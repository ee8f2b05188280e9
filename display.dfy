/** Pure view helpers of the generation page: the preview frame, the
    character counter and the remaining-time estimate. */
module Display {

  /** The three preview widths offered by the toolbar. */
  datatype ViewMode = Desktop | Tablet | Mobile

  /** The aspect-ratio class that frames the preview iframe. Tablet and
      mobile have their own ratios; every other mode (only desktop) falls
      through to the 16:9 video ratio. */
  function AspectRatio(mode: ViewMode): (cls: string)
    ensures cls == "aspect-video" <==> mode == Desktop
    ensures cls == "aspect-[3/4]" <==> mode == Tablet
    ensures cls == "aspect-[9/16]" <==> mode == Mobile
  {
    match mode
    case Tablet => "aspect-[3/4]"
    case Mobile => "aspect-[9/16]"
    case _ => "aspect-video"
  }

  /** Each toolbar button frames the preview differently. */
  lemma AspectRatioDistinct(a: ViewMode, b: ViewMode)
    requires a != b
    ensures AspectRatio(a) != AspectRatio(b)
  {
  }

  /** The soft limit shown by the counter; it never blocks generation. */
  const CharacterLimit: nat := 1000
  /** Above this count the counter turns yellow. */
  const WarningThreshold: nat := 900

  /** Colour class of the "n / 1000" counter under the description box. */
  function CharacterCountColor(count: int): (cls: string)
    ensures cls == "text-red-500" <==> count > CharacterLimit
    ensures cls == "text-yellow-500" <==> WarningThreshold < count <= CharacterLimit
    ensures cls == "text-gray-500" <==> count <= WarningThreshold
  {
    if count > CharacterLimit then "text-red-500"
    else if count > WarningThreshold then "text-yellow-500"
    else "text-gray-500"
  }

  /** How alarming a counter colour is: gray, then yellow, then red. */
  function Severity(cls: string): nat
  {
    if cls == "text-red-500" then 2
    else if cls == "text-yellow-500" then 1
    else 0
  }

  /** A longer description never shows a calmer counter colour. */
  lemma CharacterCountColorMonotone(a: int, b: int)
    requires a <= b
    ensures Severity(CharacterCountColor(a)) <= Severity(CharacterCountColor(b))
  {
  }

  /** The "~N seconds remaining" estimate for a 30-second run, computed
      from the progress percentage in integer arithmetic. The divisor is
      positive, so Dafny's division is the floor the page applies; for a
      percentage in 0..100 the estimate is the time left rounded up to
      whole seconds. */
  function SecondsRemaining(progress: int): (secs: nat)
    ensures 0 <= progress ==> secs <= 30
    ensures progress >= 100 ==> secs == 0
    ensures progress <= 95 ==> secs >= 2
    ensures 0 <= progress <= 100 ==> (secs - 1) * 100 < 30 * (100 - progress) <= secs * 100
  {
    var elapsed := progress * 30 / 100;
    if 30 - elapsed > 0 then 30 - elapsed else 0
  }

  /** More progress never raises the estimate. */
  lemma SecondsRemainingAntitone(p: int, q: int)
    requires p <= q
    ensures SecondsRemaining(q) <= SecondsRemaining(p)
  {
  }
}
