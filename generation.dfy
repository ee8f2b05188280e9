/** The pure rules of one simulated generation run: the length gate, the
    cycling phase labels, the clamped progress counter and the mock
    document that a finished run produces. */
module Generation {
  import opened Wrappers
  import opened Display

  /** Descriptions shorter than this are refused. */
  const MinDescriptionLength: nat := 50

  /** The phase labels shown while a run is in flight, in display order. */
  const Statuses: seq<string> := [
    "Analyzing your requirements...",
    "Designing the layout...",
    "Adding interactive features...",
    "Applying modern styling...",
    "Almost ready..."
  ]

  /** Progress gained per progress tick, and the ceiling the ticks never pass. */
  const ProgressStep: nat := 2
  const ProgressCap: nat := 95
  /** Progress once the run has finished. */
  const ProgressDone: nat := 100

  /** How much of the description the mock document quotes. */
  const ExcerptLength: nat := 300
  const Ellipsis: string := "..."
  const Doctype: string := "<!DOCTYPE html>"

  /** The length gate of the generate handler and of the button's disabled
      state. The counter's 1000-character limit is soft: a description over
      it still passes the gate. */
  predicate LongEnough(description: string)
    ensures LongEnough(description) <==> |description| >= MinDescriptionLength
    ensures |description| > CharacterLimit ==> LongEnough(description)
  {
    |description| >= MinDescriptionLength
  }

  // ---------------------------------------------------------------- status

  /** The label index after one status tick: the next label, wrapping
      from the last one back to the first. */
  function NextStatusIndex(i: nat): (j: nat)
    ensures j < |Statuses|
    ensures i + 1 < |Statuses| ==> j == i + 1
    ensures i + 1 == |Statuses| ==> j == 0
  {
    (i + 1) % |Statuses|
  }

  /** The label index after `ticks` status ticks starting from index `i`. */
  function StatusIndexAfter(i: nat, ticks: nat): nat
    decreases ticks
  {
    if ticks == 0 then i else NextStatusIndex(StatusIndexAfter(i, ticks - 1))
  }

  /** From any valid index, the ticks walk the labels in list order: after
      `ticks` ticks the index has advanced by `ticks` modulo the list size. */
  lemma {:induction false} StatusIndexAdvances(i: nat, ticks: nat)
    requires i < |Statuses|
    ensures StatusIndexAfter(i, ticks) == (i + ticks) % |Statuses|
    decreases ticks
  {
    if ticks > 0 {
      StatusIndexAdvances(i, ticks - 1);
      var prev := (i + ticks - 1) % |Statuses|;
      assert StatusIndexAfter(i, ticks) == (prev + 1) % |Statuses|;
      assert (prev + 1) % |Statuses| == (i + ticks) % |Statuses|;
    }
  }

  /** A run starts on the first label; after `ticks` status ticks it shows
      label number `ticks mod 5`, so the labels repeat after the fifth. */
  lemma StatusLabelAfterTicks(ticks: nat)
    ensures StatusIndexAfter(0, ticks) < |Statuses|
    ensures Statuses[StatusIndexAfter(0, ticks)] == Statuses[ticks % |Statuses|]
    ensures StatusIndexAfter(0, ticks + |Statuses|) == StatusIndexAfter(0, ticks)
  {
    StatusIndexAdvances(0, ticks);
    StatusIndexAdvances(0, ticks + |Statuses|);
  }

  // -------------------------------------------------------------- progress

  /** The progress after one progress tick: two more percent, held at the ceiling. */
  function NextProgress(p: int): (q: int)
    ensures q <= ProgressCap
    ensures p <= ProgressCap ==> p <= q
    ensures q <= p + ProgressStep
    ensures q < ProgressCap ==> q == p + ProgressStep
  {
    if p + ProgressStep < ProgressCap then p + ProgressStep else ProgressCap
  }

  /** The progress after `ticks` progress ticks starting from `p`. */
  function ProgressAfter(p: int, ticks: nat): int
    decreases ticks
  {
    if ticks == 0 then p else NextProgress(ProgressAfter(p, ticks - 1))
  }

  /** Closed form of a run's progress: linear growth clamped at the ceiling. */
  lemma {:induction false} ProgressAfterTicks(p: int, ticks: nat)
    requires p <= ProgressCap
    ensures ProgressAfter(p, ticks) ==
      if p + ProgressStep * ticks < ProgressCap then p + ProgressStep * ticks else ProgressCap
    decreases ticks
  {
    if ticks > 0 {
      ProgressAfterTicks(p, ticks - 1);
    }
  }

  /** Later ticks never show less progress than earlier ones. */
  lemma ProgressNonDecreasing(p: int, earlier: nat, later: nat)
    requires p <= ProgressCap
    requires earlier <= later
    ensures ProgressAfter(p, earlier) <= ProgressAfter(p, later)
  {
    ProgressAfterTicks(p, earlier);
    ProgressAfterTicks(p, later);
  }

  /** A run starting at zero stays within [0, 95] however many ticks
      arrive, so it never claims completion before the run ends. */
  lemma ProgressBelowDone(ticks: nat)
    ensures 0 <= ProgressAfter(0, ticks) <= ProgressCap < ProgressDone
  {
    ProgressAfterTicks(0, ticks);
  }

  // -------------------------------------------------------------- document

  /** The quoted part of the description: its first 300 characters, with
      "..." appended exactly when something was cut off. */
  function Excerpt(description: string): (e: string)
    ensures |description| <= ExcerptLength ==> e == description
    ensures |description| > ExcerptLength ==>
      |e| == ExcerptLength + |Ellipsis| &&
      e[..ExcerptLength] == description[..ExcerptLength] &&
      e[ExcerptLength..] == Ellipsis
  {
    var shown := if |description| <= ExcerptLength then description else description[..ExcerptLength];
    shown + (if |description| > ExcerptLength then Ellipsis else "")
  }

  /** The fixed markup before and after the quoted excerpt. */
  const DocumentHead: string :=
    Doctype + "\n<html lang=\"en\">\n<body>\n<h2>Generated from your description:</h2>\n<p>\""
  const DocumentTail: string := "\"</p>\n</body>\n</html>"

  /** An HTML document in the sense the page relies on: it opens with the doctype. */
  predicate IsHtmlDocument(doc: string)
  {
    |doc| >= |Doctype| && doc[..|Doctype|] == Doctype
  }

  /** The document a finished run stores: fixed markup quoting the excerpt. */
  function MockDocument(description: string): (doc: string)
    ensures IsHtmlDocument(doc)
    ensures |doc| == |DocumentHead| + |Excerpt(description)| + |DocumentTail|
    ensures doc[|DocumentHead|..|DocumentHead| + |Excerpt(description)|] == Excerpt(description)
  {
    var doc := DocumentHead + Excerpt(description) + DocumentTail;
    assert doc[..|Doctype|] == DocumentHead[..|Doctype|];
    doc
  }

  /** Reads the quoted description back out of a stored document; None if
      the document does not have the mock layout. */
  function EmbeddedDescription(doc: string): Option<string>
  {
    if |doc| >= |DocumentHead| + |DocumentTail|
       && doc[..|DocumentHead|] == DocumentHead
       && doc[|doc| - |DocumentTail|..] == DocumentTail
    then Some(doc[|DocumentHead|..|doc| - |DocumentTail|])
    else None
  }

  /** The stored document quotes exactly the excerpt of the description. */
  lemma DocumentRoundTrip(description: string)
    ensures EmbeddedDescription(MockDocument(description)) == Some(Excerpt(description))
  {
    var e := Excerpt(description);
    var doc := MockDocument(description);
    assert doc == DocumentHead + e + DocumentTail;
    assert doc[..|DocumentHead|] == DocumentHead;
    assert doc[|doc| - |DocumentTail|..] == DocumentTail;
  }

  /** A description of at most 300 characters is quoted whole, so two such
      descriptions give the same document only if they are equal. */
  lemma ShortDescriptionQuotedWhole(a: string, b: string)
    requires |a| <= ExcerptLength && |b| <= ExcerptLength
    ensures EmbeddedDescription(MockDocument(a)) == Some(a)
    ensures MockDocument(a) == MockDocument(b) ==> a == b
  {
    DocumentRoundTrip(a);
    DocumentRoundTrip(b);
  }
}
