# Sento website generator page — verified model

This project models the generation workflow of the Sento landing page
(`src/pages/Index.tsx`). A user types a description of a website and presses
"Generate". Descriptions under 50 characters are refused with a notice.
Otherwise a simulated run starts. A status timer cycles through five phase
labels. A progress timer adds 2% per tick and stops at 95%. After 30 seconds
a completion callback clears both timers, sets progress to 100% and stores a
mock HTML document that quotes the first 300 characters of the description.
The preview can then be reframed (desktop, tablet or mobile), downloaded,
copied, or discarded with "Generate Another".

The page's state hooks and the status timer's closure counter are the fields
of the class `Page.IndexPage`. Each event the page reacts to is one atomic
method: a click, an interval tick or the timeout. The timers are a single
flag, `timersActive`, and the tick and completion methods do nothing while it
is off. The class invariant `Valid()` says that a stored result and a run in
flight never coexist, that the timers live exactly as long as the run, and
that a stored result is the mock document for the current description. Every
method keeps it. The pure rules are functions in three modules: the status
cycle, the progress clamp and the document in `Generation`, the view helpers
in `Display`, and the download file name in `Export`. Lemmas about those
functions give the properties that hold over many events: closed forms for
the label index and the progress after any number of ticks, and round trips
for the quoted description and for the timestamp in the file name.

What the page does is what is
modelled. It makes no network call. It has no prompt builder, no
code-fence sanitizer and no HTTP error classification: the result is a fixed
mock document. Neither "Generate" nor "Generate Another" resets the view mode,
so the model keeps the view mode across runs.

## Model

| member | source | states |
|---|---|---|
| Display.AspectRatio | src/pages/Index.tsx:191-200 | tablet frames at 3/4, mobile at 9/16, and every other mode (desktop) at the video ratio; each iff |
| Display.AspectRatioDistinct | src/pages/Index.tsx:191-200 | the three view modes frame the preview with three different classes |
| Display.CharacterCountColor | src/pages/Index.tsx:202-209 | the counter is red iff over 1000 characters, yellow iff in 901..1000, gray iff at most 900 |
| Display.CharacterCountColorMonotone | src/pages/Index.tsx:202-209 | a longer description never shows a less severe counter colour |
| Display.SecondsRemaining | src/pages/Index.tsx:314 | for a percentage in 0..100 the estimate is the time left of the 30 s run rounded up to whole seconds; it is at most 30 s for non-negative progress, 0 at 100%, and at least 2 s at any progress up to the 95% ceiling |
| Display.SecondsRemainingAntitone | src/pages/Index.tsx:314 | more progress never raises the estimate |
| Export.Decimal | src/pages/Index.tsx:164 | the timestamp renders as a non-empty string of digits with no leading zero |
| Export.DecimalRoundTrip | src/pages/Index.tsx:164 | reading the rendered timestamp back yields the timestamp |
| Export.FileName | src/pages/Index.tsx:164 | the download name is `sento-website-`, then the decimal rendering of the click's timestamp, then `.html` |
| Export.FileNameDistinct | src/pages/Index.tsx:164 | downloads at two different instants get two different file names |
| Generation.LongEnough | src/pages/Index.tsx:44 | a description passes the length gate iff it has at least 50 characters; one over the counter's 1000-character limit still passes |
| Generation.NextStatusIndex | src/pages/Index.tsx:60-62 | one status tick moves to the next label index, from the last back to 0, always within the five labels |
| Generation.StatusIndexAdvances | src/pages/Index.tsx:57-63 | after k status ticks from index i the index is (i + k) mod 5 |
| Generation.StatusLabelAfterTicks | src/pages/Index.tsx:35-63 | a run shows label k mod 5 after k ticks, so the labels repeat in list order after the fifth |
| Generation.NextProgress | src/pages/Index.tsx:65-67 | a progress tick adds 2, never passes 95, and never lowers a progress at or under 95 |
| Generation.ProgressAfterTicks | src/pages/Index.tsx:65-67 | after n progress ticks from p (p at most 95) progress is min(p + 2n, 95) |
| Generation.ProgressNonDecreasing | src/pages/Index.tsx:65-67 | progress after more ticks is never lower than after fewer |
| Generation.ProgressBelowDone | src/pages/Index.tsx:54-67 | a run that starts at 0 stays in 0..95, below the 100 of a finished run, for any number of ticks |
| Generation.Excerpt | src/pages/Index.tsx:113 | a description of at most 300 characters is quoted whole; a longer one as its first 300 characters followed by `...` |
| Generation.MockDocument | src/pages/Index.tsx:74-150 | the stored document starts with `<!DOCTYPE html>` and carries the excerpt right after its fixed head |
| Generation.DocumentRoundTrip | src/pages/Index.tsx:113 | reading the quote back out of a stored document gives exactly the excerpt |
| Generation.ShortDescriptionQuotedWhole | src/pages/Index.tsx:113 | a description of at most 300 characters is recovered whole from its document, so distinct short descriptions give distinct documents |
| Page.Truthy | src/pages/Index.tsx:158 | a stored result counts as present iff it is non-null and non-empty, as `!generatedCode` tests it |
| Page.IndexPage.FormShown | src/pages/Index.tsx:240 | under the invariant the description form is rendered iff no run is in flight and nothing is stored |
| Page.IndexPage.PreviewShown | src/pages/Index.tsx:321 | the preview is rendered only with a stored result; it never appears beside the form, and under the invariant never beside a run in flight |
| Page.IndexPage.constructor | src/pages/Index.tsx:27-32 | the page starts empty and idle: no run, no result, progress 0, no label, desktop view, no timers |
| Page.IndexPage.StoredResultTruthy | src/pages/Index.tsx:158 | under the invariant a stored result is never empty, so "present" and JavaScript-truthy agree |
| Page.IndexPage.SetInput | src/pages/Index.tsx:268-273 | typing (only with the form shown, at most 1100 characters) sets the description and keeps the invariant |
| Page.IndexPage.Generate | src/pages/Index.tsx:43-67 | a description under 50 characters changes nothing but the notices; otherwise the run flag is set, progress 0, result cleared, index 0, first label shown and timers scheduled |
| Page.IndexPage.StatusTick | src/pages/Index.tsx:60-63 | with timers active the index advances cyclically and the label follows it; with timers cleared nothing changes |
| Page.IndexPage.ProgressTick | src/pages/Index.tsx:65-67 | with timers active progress becomes min(p + 2, 95) and does not drop; with timers cleared nothing changes |
| Page.IndexPage.Complete | src/pages/Index.tsx:69-154 | with timers active: timers cleared, progress exactly 100, the mock document for the description stored, run flag cleared; otherwise nothing changes |
| Page.IndexPage.Download | src/pages/Index.tsx:157-172 | without a truthy result no file and no notice; otherwise the result verbatim as `text/html` under the timestamped name, plus a notice |
| Page.IndexPage.Copy | src/pages/Index.tsx:174-182 | without a truthy result nothing is copied; otherwise the result verbatim goes to the clipboard, plus a notice |
| Page.IndexPage.NewWebsite | src/pages/Index.tsx:184-189 | clears result, description, progress (to 0) and label (to empty), keeps view mode and run flag, and shows the form again |
| Page.IndexPage.SetViewMode | src/pages/Index.tsx:334-369 | sets the view mode and changes nothing else, in particular not the stored document |

## Left out

- Rendering: the markup, CSS classes other than the aspect-ratio and counter classes, icons, the plan and credits badge and the disabled zoom buttons have no logic.
- Notifications are recorded as a list of notice kinds; their titles, texts and styling are not modelled.
- Browser I/O: the Blob, the object URL, the anchor click and the clipboard write are reduced to the returned file or clipboard text. A rejected clipboard write, which would skip the notice, is not modelled.
- `Date.now()` is the `now` parameter of `Download`, taken as a non-negative number of milliseconds.
- Timer scheduling: the 6 s and 600 ms intervals and the 30 s timeout are events with no timing; nothing forces the completion to come after any particular number of ticks. React's batching of state updates is not modelled; each callback is atomic.
- Display.SecondsRemaining: computes `progress * 30 / 100` in integer arithmetic; the page computes `(progress / 100) * 30` in floating point, whose rounding is not modelled.
- Page.IndexPage.Generate: the 50-character gate counts Unicode characters, while the page counts UTF-16 code units. So a description with characters outside the Basic Multilingual Plane can pass the page's gate and still be refused here. For example, 25 emoji have length 50 on the page and 25 here. Page.IndexPage.SetInput's 1100-character cap is counted the same way.
- Generation.Excerpt: lengths count Unicode characters; the page counts UTF-16 code units, so a description with characters outside the Basic Multilingual Plane is cut at a different place.
- Generation.MockDocument: the document's fixed markup (styles, headings, feature cards) is abbreviated to a short head and tail; only the doctype prefix and the quoted excerpt are modelled exactly.
- The generate button is also disabled under 50 characters; the model keeps the handler's own length check, which covers that case.
