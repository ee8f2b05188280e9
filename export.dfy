/** The file offered by the download button: its name is built from the
    millisecond timestamp of the click, rendered in decimal. */
module Export {

  /** A saved file: its name, its MIME type and its text. */
  datatype SavedFile = SavedFile(name: string, mimeType: string, contents: string)

  const FilePrefix: string := "sento-website-"
  const FileSuffix: string := ".html"
  const HtmlMime: string := "text/html"

  predicate IsDigit(c: char)
  {
    '0' as int <= c as int <= '9' as int
  }

  function DigitChar(d: nat): (c: char)
    requires d < 10
    ensures IsDigit(c) && c as int - '0' as int == d
  {
    ('0' as int + d) as char
  }

  /** The decimal rendering of a non-negative integer, without leading zeros. */
  function Decimal(n: nat): (s: string)
    ensures 1 <= |s|
    ensures forall i :: 0 <= i < |s| ==> IsDigit(s[i])
    ensures |s| > 1 ==> s[0] != '0'
    decreases n
  {
    if n < 10 then [DigitChar(n)] else Decimal(n / 10) + [DigitChar(n % 10)]
  }

  /** The number a string of digits denotes. */
  function DecimalValue(s: string): nat
    requires forall i :: 0 <= i < |s| ==> IsDigit(s[i])
    decreases |s|
  {
    if s == [] then 0
    else
      assert IsDigit(s[|s| - 1]);
      DecimalValue(s[..|s| - 1]) * 10 + (s[|s| - 1] as int - '0' as int)
  }

  /** Reading the rendering back gives the timestamp. */
  lemma {:induction false} DecimalRoundTrip(n: nat)
    ensures DecimalValue(Decimal(n)) == n
    decreases n
  {
    var s := Decimal(n);
    if n >= 10 {
      DecimalRoundTrip(n / 10);
      assert s[..|s| - 1] == Decimal(n / 10);
    }
  }

  /** The download name for a click at timestamp `now`. */
  function FileName(now: nat): (name: string)
    ensures |name| > |FilePrefix| + |FileSuffix|
    ensures name[..|FilePrefix|] == FilePrefix
    ensures name[|name| - |FileSuffix|..] == FileSuffix
    ensures name[|FilePrefix|..|name| - |FileSuffix|] == Decimal(now)
  {
    FilePrefix + Decimal(now) + FileSuffix
  }

  /** Two downloads at different instants are saved under different names. */
  lemma FileNameDistinct(a: nat, b: nat)
    requires a != b
    ensures FileName(a) != FileName(b)
  {
    if FileName(a) == FileName(b) {
      var na, nb := FileName(a), FileName(b);
      assert Decimal(a) == na[|FilePrefix|..|na| - |FileSuffix|];
      assert Decimal(b) == nb[|FilePrefix|..|nb| - |FileSuffix|];
      DecimalRoundTrip(a);
      DecimalRoundTrip(b);
    }
  }
}
