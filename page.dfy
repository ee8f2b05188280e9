/** The website-generation page as a state machine: the page's state hooks
    and the run's closure counter are fields, and every event the page
    reacts to (a click, a timer callback) is one atomic method. */
module Page {
  import opened Wrappers
  import opened Display
  import opened Export
  import opened Generation

  /** The input box accepts at most this many characters. */
  const MaxInputLength: nat := CharacterLimit + 100

  /** The notifications the page pops up. */
  datatype Notice = DescriptionTooShort | Downloaded | Copied

  /** JavaScript truthiness of the stored result: null and "" are both falsy. */
  predicate Truthy(code: Option<string>)
    ensures Truthy(code) <==> code.Some? && |code.value| > 0
  {
    code.Some? && code.value != ""
  }

  class IndexPage {
    var input: string
    var isGenerating: bool
    var generatedCode: Option<string>
    var progress: int
    var status: string
    var viewMode: ViewMode
    /** The label counter the status timer's closure advances. */
    var statusIndex: nat
    /** Whether the two intervals and the completion timeout of the current
        run are still scheduled; they are created and cleared together. */
    var timersActive: bool
    /** Every notification shown so far, oldest first. */
    var notices: seq<Notice>

    /** The page's invariant: a stored result and a run in flight never
        coexist, the timers live exactly as long as the run, a run shows a
        valid label and a progress within the ceiling, and a stored result
        is the complete mock document for the current description. */
    ghost predicate Valid()
      reads this
    {
      && statusIndex < |Statuses|
      && |input| <= MaxInputLength
      && timersActive == isGenerating
      && !(isGenerating && generatedCode.Some?)
      && (isGenerating ==>
            LongEnough(input) && 0 <= progress <= ProgressCap && status == Statuses[statusIndex])
      && (generatedCode.Some? ==>
            progress == ProgressDone && generatedCode.value == MockDocument(input))
      && (!isGenerating && generatedCode.None? ==> progress == 0 && status == "")
    }

    /** The description form is rendered: nothing stored and no run in flight. */
    predicate FormShown()
      reads this
      ensures Valid() ==> (FormShown() <==> !isGenerating && generatedCode.None?)
    {
      !Truthy(generatedCode) && !isGenerating
    }

    /** The preview with its toolbar and action buttons is rendered. Under
        the invariant the form, the loading card and the preview are never
        rendered together: at most one of them is on screen. */
    predicate PreviewShown()
      reads this
      ensures PreviewShown() ==> !FormShown() && generatedCode.Some?
      ensures Valid() && PreviewShown() ==> !isGenerating
      ensures Valid() && isGenerating ==> !PreviewShown() && !FormShown()
    {
      Truthy(generatedCode)
    }

    constructor ()
      ensures Valid()
      ensures input == "" && !isGenerating && generatedCode == None
      ensures progress == 0 && status == "" && viewMode == Desktop
      ensures statusIndex == 0 && !timersActive && notices == []
    {
      input := "";
      isGenerating := false;
      generatedCode := None;
      progress := 0;
      status := "";
      viewMode := Desktop;
      statusIndex := 0;
      timersActive := false;
      notices := [];
    }

    /** Under the invariant a stored result is never the empty string, so
        "a result is present" and "the result is truthy" agree. */
    lemma StoredResultTruthy()
      requires Valid()
      ensures generatedCode.Some? <==> Truthy(generatedCode)
    {
      if generatedCode.Some? {
        assert |generatedCode.value| >= |Doctype|;
      }
    }

    /** Typing in the description box (only shown with the form; the box
        caps the text at 1100 characters). */
    method SetInput(text: string)
      requires Valid() && FormShown()
      requires |text| <= MaxInputLength
      modifies this`input
      ensures Valid()
      ensures input == text
    {
      StoredResultTruthy();
      input := text;
    }

    /** The generate button. A description under 50 characters only raises
        a notice; otherwise a run starts: flag set, progress and result
        cleared, first label shown, timers scheduled. */
    method Generate()
      requires Valid() && FormShown()
      modifies this
      ensures Valid()
      ensures input == old(input) && viewMode == old(viewMode)
      ensures !LongEnough(old(input)) ==>
        && isGenerating == old(isGenerating) && progress == old(progress)
        && generatedCode == old(generatedCode) && status == old(status)
        && statusIndex == old(statusIndex) && timersActive == old(timersActive)
        && notices == old(notices) + [DescriptionTooShort]
      ensures LongEnough(old(input)) ==>
        && isGenerating && progress == 0 && generatedCode == None
        && statusIndex == 0 && status == Statuses[0] && timersActive
        && notices == old(notices)
    {
      StoredResultTruthy();
      if |input| < MinDescriptionLength {
        notices := notices + [DescriptionTooShort];
        return;
      }
      isGenerating := true;
      progress := 0;
      generatedCode := None;
      statusIndex := 0;
      status := Statuses[0];
      timersActive := true;
    }

    /** The status interval fires: advance to the next label, wrapping
        after the last. A cleared interval never fires. */
    method StatusTick()
      requires Valid()
      modifies this`statusIndex, this`status
      ensures Valid()
      ensures old(timersActive) ==>
        statusIndex == NextStatusIndex(old(statusIndex)) && status == Statuses[statusIndex]
      ensures !old(timersActive) ==> statusIndex == old(statusIndex) && status == old(status)
    {
      if timersActive {
        statusIndex := NextStatusIndex(statusIndex);
        status := Statuses[statusIndex];
      }
    }

    /** The progress interval fires: two more percent, held at 95. A
        cleared interval never fires. */
    method ProgressTick()
      requires Valid()
      modifies this`progress
      ensures Valid()
      ensures old(timersActive) ==> progress == NextProgress(old(progress))
      ensures old(timersActive) ==> old(progress) <= progress <= ProgressCap
      ensures !old(timersActive) ==> progress == old(progress)
    {
      if timersActive {
        progress := NextProgress(progress);
      }
    }

    /** The completion timeout fires: both intervals are cleared, progress
        jumps to 100, the mock document is stored and the run ends, all in
        one callback. */
    method Complete()
      requires Valid()
      modifies this`timersActive, this`progress, this`generatedCode, this`isGenerating
      ensures Valid()
      ensures old(timersActive) ==>
        && !timersActive && !isGenerating && progress == ProgressDone
        && generatedCode == Some(MockDocument(input))
        && IsHtmlDocument(generatedCode.value)
        && EmbeddedDescription(generatedCode.value) == Some(Excerpt(input))
      ensures !old(timersActive) ==>
        && timersActive == old(timersActive) && isGenerating == old(isGenerating)
        && progress == old(progress) && generatedCode == old(generatedCode)
    {
      if timersActive {
        timersActive := false;
        progress := ProgressDone;
        DocumentRoundTrip(input);
        generatedCode := Some(MockDocument(input));
        isGenerating := false;
      }
    }

    /** The download button at time `now` (milliseconds): without a result
        nothing happens; otherwise the result is saved as an HTML file
        named after the timestamp and a notice is shown. */
    method Download(now: nat) returns (file: Option<SavedFile>)
      requires Valid()
      modifies this`notices
      ensures Valid()
      ensures !Truthy(generatedCode) ==> file == None && notices == old(notices)
      ensures Truthy(generatedCode) ==>
        && file == Some(SavedFile(FileName(now), HtmlMime, generatedCode.value))
        && notices == old(notices) + [Downloaded]
    {
      if !Truthy(generatedCode) {
        return None;
      }
      file := Some(SavedFile(FileName(now), HtmlMime, generatedCode.value));
      notices := notices + [Downloaded];
    }

    /** The copy button: without a result nothing happens; otherwise the
        result is handed to the clipboard verbatim and a notice is shown. */
    method Copy() returns (clipboard: Option<string>)
      requires Valid()
      modifies this`notices
      ensures Valid()
      ensures !Truthy(generatedCode) ==> clipboard == None && notices == old(notices)
      ensures Truthy(generatedCode) ==>
        clipboard == Some(generatedCode.value) && notices == old(notices) + [Copied]
    {
      if !Truthy(generatedCode) {
        return None;
      }
      clipboard := Some(generatedCode.value);
      notices := notices + [Copied];
    }

    /** The "Generate Another" button (only shown with the preview): clears
        the result, the description, the progress and the label, and keeps
        the view mode and the run flag. */
    method NewWebsite()
      requires Valid() && PreviewShown()
      modifies this`generatedCode, this`input, this`progress, this`status
      ensures Valid()
      ensures generatedCode == None && input == "" && progress == 0 && status == ""
      ensures FormShown()
    {
      generatedCode := None;
      input := "";
      progress := 0;
      status := "";
    }

    /** A toolbar button: changes how the preview is framed and nothing else. */
    method SetViewMode(mode: ViewMode)
      requires Valid()
      modifies this`viewMode
      ensures Valid()
      ensures viewMode == mode
    {
      viewMode := mode;
    }
  }
}
