# heimdall-visual-test, modelled in Dafny

heimdall-visual-test is a small visual-regression engine. It loads a
reference screenshot and a new one into two canvases and compares them
pixel by pixel in HSL space. It paints a third "diff" canvas, counts the
differing pixels until a share of them (the aggregate threshold) is reached,
and resolves a promise with the result and a message. The Cypress side of
the package encodes screenshots as data URLs and normalises image file
names.

This project models the logic of that engine and proves properties of it:

- `js_numbers.dfy` (`JsNumbers`): the JavaScript number operations the
  engine relies on, over exact rationals. These are `Math.round`, the
  remainder `%`, and the ratio test `count / total >= threshold`, including
  what division by zero gives.
- `color_model.dfy` (`ColorModel`): `rgbToHsl` and `arePixelsEqual`. The
  conversion is tied to an independent integer formulation, which gives its
  ranges, the hue sector of each dominant channel and the test vectors.
- `diff_engine.dfy` (`DiffEngine`): `highlightedDiffPixel`, the wording
  choice of `diffResultMessage`, and the pixel loop of `calcDiffWithCanvas`.
  The loop is an in-place method over arrays, proved against a functional
  specification (`DiffImage`, `PassResult`). That specification has a
  proved closed form: the count is the number of differing pixels, capped
  at `ceil(threshold * total)`.
- `image_polling.dfy` (`ImagePolling`): the interval callback of
  `testImagesDiff`.
  - It is a class `Poll` whose `Tick` updates `triesCount`, `done` (the
    interval was cleared) and `outcome` (how the callback left the promise).
  - `Tick` is proved against the pure step function `Next`. Lemmas over
    runs of ticks show that the interval is always cleared with a final
    outcome, that the first tick with both images loaded decides it, and
    that the poll times out otherwise.
- `data_url.dfy` (`DataUrl`) and `js_text.dfy` (`JsText`): `imgBase64ToDataUrl`.
  This means the `\s` white-space set, the pattern `^[a-z0-9]+={0,2}$` with
  the `i` flag, and the PNG data-URL prefix.
- `task_handlers.dfy` (`TaskHandlers`): `normalizeFilename`, built on
  `String.prototype.trim`.

`src/common/visualTesting.js` is an older single-file copy of
`src/common/helpers.js` and `src/core/naive.js`. Its functions are the same
text, so one model serves both. Some rows below cite that copy.

Decisions worth knowing:

- **Unwrapped hue.** The hue is not brought back into [0, 360): a red-dominant
  pixel with more blue than green has a negative hue, down to -60. The
  test comment at src/core/naive.test.js:11 labels [243,114,200] as HSL
  (320,84,70), and the HSL article cited at src/common/helpers.js:5 puts
  hue in [0, 360), but the code never adds 360. The model follows the code.
  - One test row expects `[0, 0, 255]` and `[243, 114, 200]` to be similar
    at threshold 0.25 (src/core/naive.test.js:12). Its comment gives the
    second pixel hue 320, but the code computes -40, so the code finds the
    pair different. `ColorModel.UnwrappedHueSeparates` proves this.
  - `ColorModel.NegativeHueVectors` gives the value the code computes.
- **Channels.** Channels are `Byte` (0..255). This is what a canvas's
  `Uint8ClampedArray` holds, and it is the valid input of `rgbToHsl`.
- **Zero pixels.** A canvas of zero width or height never reaches the
  ratio test. `getImageData` (src/core/naive.js:44) throws an
  `IndexSizeError` for an empty area. The throw happens inside the interval
  callback, after `clearInterval` (src/core/naive.js:101), so the promise
  never settles. The model keeps this path: `CalcDiffWithCanvas` returns
  `IndexSizeError`, and the poll ends with the interval cleared and the
  outcome `Thrown`. The pure pass still defines `0 / 0` as NaN, which never
  reaches the threshold (`JsNumbers.RatioAtLeast`).
- **Threshold of zero or less.** An aggregate threshold of zero or less sets
  the flag after the first pixel. The model covers that case too.
- **Ticks.** A tick of the interval is given what the two image loaders show
  at that moment: `NotLoaded`, or `Loaded` with the canvas drawn. A load that
  fails leaves `hasLoaded` false forever, because the loader installs no
  error handler.

## Model

| member | source | states |
|---|---|---|
| JsNumbers.Round | src/common/helpers.js:28 | `Math.round` gives the integer within one half of its argument, halves going up |
| JsNumbers.RemSmall | src/common/helpers.js:18 | `%` by 6 leaves a quotient strictly between -6 and 6 unchanged, so the red-sector hue keeps its sign |
| JsNumbers.RatioAtLeastIffBound | src/core/naive.js:61 | for a positive total, `count / total >= threshold` holds exactly when count is at least `ceil(threshold * total)` |
| ColorModel.RgbToHslIntegerForm | src/common/helpers.js:7-29 | the conversion equals the rounded integer-channel formulas: hue by dominant channel (red first), saturation `100 D / (255 - abs(M + m - 255))`, lightness `100 (M + m) / 510` |
| ColorModel.GreyIsAchromatic | src/common/helpers.js:15-28 | a grey pixel has hue 0, saturation 0 and lightness `round(100 v / 255)` |
| ColorModel.HslRanges | src/common/helpers.js:24-28 | saturation and lightness lie in [0, 100]; the unwrapped hue lies in [-60, 300] |
| ColorModel.HueByDominantChannel | src/common/visualTesting.js:17-28 | a red-dominant pixel has hue in [-60, 60], a green-dominant one [60, 180], a blue-dominant one [180, 300] |
| ColorModel.RedHueNegative | src/common/helpers.js:17-18 | with red dominant (grey included), the hue is negative exactly when blue exceeds green by more than 1/120 of the channel spread |
| ColorModel.GreyVectors | src/common/helpers.test.js:83-85 | black, grey 127 and white convert to (0,0,0), (0,0,50), (0,0,100) |
| ColorModel.PrimaryVectors | src/common/helpers.test.js:86-88 | red, green and blue convert to hues 0, 120 and 240 at (100, 50) |
| ColorModel.NamedColourVectors | src/common/helpers.test.js:89-91 | firebrick, dark olive green and cornflower blue convert to (0,68,42), (82,39,30), (219,79,66) |
| ColorModel.NegativeHueVectors | src/common/helpers.js:28 | magenta converts to hue -60 and [243,114,200] to -40: nothing adds 360 |
| ColorModel.SimilarityReflexive | src/core/naive.js:4-12 | every pixel is similar to itself under any non-negative threshold |
| ColorModel.SimilaritySymmetric | src/common/visualTesting.js:32-40 | similarity does not depend on the order of the two pixels |
| ColorModel.SimilarityMonotone | src/core/naive.js:7-11 | pixels similar at a threshold stay similar at any larger one |
| ColorModel.WholeRangeThreshold | src/core/naive.js:8-10 | at threshold 1 or more every pair is similar, since all channel distances fit |
| ColorModel.UnwrappedHueSeparates | src/core/naive.test.js:12 | blue against [243,114,200] at 0.25 is not similar, as the unwrapped hues are 280 degrees apart |
| ColorModel.SimilarityExamples | src/core/naive.test.js:12-32 | red against [188,238,119] at 0.25 is similar, and against [211,244,164] it is not |
| DiffEngine.HighlightTints | src/core/naive.js:14-18 | alpha 64 exactly for similar pairs (base red and green, blue 255); alpha 255 exactly for differing pairs (red 255, current green and blue) |
| DiffEngine.DiffersAt | src/core/naive.js:54-56 | the verdict on pixel k compares the RGB bytes at 4k of both buffers; alpha is not read |
| DiffEngine.DiffImageHighlights | src/core/naive.js:53-59 | bytes 4j..4j+3 of the diff image are `highlightedDiffPixel` of pixel j of the two inputs |
| DiffEngine.OpaqueCountsDiffering | src/core/naive.js:58-59 | the opaque pixels of the diff image are exactly as many as the differing pairs |
| DiffEngine.ScanFoldClosedForm | src/core/naive.js:56-63 | after n pixels the counters equal the closed form: differing pixels capped at `ceil(q * total)` for q > 0; for q <= 0, the verdict on the first pixel and the flag set |
| DiffEngine.FlagFreezesCounters | src/common/visualTesting.js:84-91 | once the flag is set, later pixels change neither the flag nor the count |
| DiffEngine.PassPositiveThreshold | src/core/naive.js:51-64 | for q > 0 the flag is set exactly when the true ratio of differing pixels reaches q; the count is exact without the flag and `ceil(q * total)` with it |
| DiffEngine.PassNonPositiveThreshold | src/core/naive.js:61-63 | for q <= 0 and a non-empty image the flag is set and only the first pixel can be counted |
| DiffEngine.PassCountBounded | src/common/visualTesting.js:79-92 | the count never exceeds the number of differing pixels, nor width * height; the total reported is width * height |
| DiffEngine.WordingFollowsFlag | src/core/naive.js:20-30 | the message says "at least" and "bigger than or equal" exactly when the result's flag is set |
| DiffEngine.IdenticalImagesPass | src/core/naive.js:56-61 | identical buffers (q > 0, pixel threshold >= 0) give count 0, flag unset, and an all-alpha-64 diff image |
| DiffEngine.HighlightPixel | src/core/naive.js:54-59 | one iteration's write: bytes i..i+3 get the tint of pixel i/4, and all bytes before and after them are untouched |
| DiffEngine.ScanPixel | src/common/visualTesting.js:82-91 | one iteration extends the diff prefix by one pixel, leaves the bytes after it untouched, and advances the counters by one step |
| DiffEngine.ScanPixels | src/core/naive.js:51-64 | the loop leaves `img3Array` equal to `DiffImage` and returns the counters of `PassResult` |
| DiffEngine.CalcDiffWithCanvas | src/core/naive.js:44-70 | a zero width or height gives `IndexSizeError`, as `getImageData` throws; otherwise the result is `PassResult` over width * height pixels, and the buffer put back is `DiffImage` |
| ImagePolling.NextSound | src/core/naive.js:97-124 | each tick keeps the invariant: cleared exactly when the outcome is final, and at most `max(maxTries, 1)` tries, fewer while polling |
| ImagePolling.RunSound | src/common/visualTesting.js:133-160 | after any ticks the invariant holds, and while polling the count equals the number of ticks |
| ImagePolling.SettlesWithinLimit | src/core/naive.js:120-123 | after `max(maxTries, 1)` ticks the interval is cleared and the outcome is final (resolved, rejected, or thrown) |
| ImagePolling.SettledStays | src/core/naive.js:101 | a tick after the interval was cleared changes nothing |
| ImagePolling.RunSettledStays | src/core/naive.js:101-122 | once the interval is cleared, any further ticks leave the whole state as it is |
| ImagePolling.WaitingTicks | src/core/naive.js:99-123 | while the images have not both loaded there is one try per tick, pending, until the timeout rejection at `max(maxTries, 1)` |
| ImagePolling.TimeoutWhenNeverLoaded | src/core/naive.js:120-123 | if the images never both load within the limit, the poll rejects with the timeout message at the limit |
| ImagePolling.FailedLoadTimesOut | src/common/visualTesting.js:105-111 | an image that never loads makes the poll end in the timeout rejection |
| ImagePolling.FirstLoadedTickDecides | src/core/naive.js:99-118 | the first tick with both images loaded, before the limit, decides the poll there: size-mismatch rejection, the `IndexSizeError` throw, or the resolved diff |
| ImagePolling.EmptyImagesNeverSettle | src/core/naive.js:100-111 | empty images of one size, loaded before the limit, leave the interval cleared and the promise unsettled for good |
| ImagePolling.SettleOutcome | src/common/visualTesting.js:136-154 | a size mismatch rejects without a diff; empty images of one size throw `IndexSizeError`; non-empty images of one size resolve with `PassResult`, `DiffImage`, a bounded count and the wording that follows the flag |
| ImagePolling.IdenticalImagesResolveClean | src/core/naive.js:77-80 | under the default options a non-empty image compared with itself resolves with count 0 and the "smaller than" wording |
| ImagePolling.Poll.constructor | src/core/naive.js:97 | a new poll has no tries, its interval is running and its outcome is pending |
| ImagePolling.Poll.Tick | src/core/naive.js:98-124 | one callback run moves the fields exactly as `Next` does and keeps the invariant |
| ImagePolling.TestImagesDiff | src/core/naive.js:82-125 | ticking until the interval is cleared gives the outcome `Run` gives, which is final once the limit is reached |
| JsText.StripWhiteSpace | src/common/helpers.js:34 | the stripped string has no white-space character and is no longer than its argument |
| JsText.StripConcat | src/common/visualTesting.js:167 | stripping acts character by character: it distributes over concatenation |
| JsText.StripIdempotent | src/common/helpers.js:34 | stripping twice is stripping once |
| JsText.TrimShape | src/cypress/taskHandlers.js:4 | `trim` gives an infix of its argument with only white space around it and none at either of its ends |
| JsText.TrimClean | src/cypress/taskHandlers.js:3-5 | a string that neither starts nor ends with white space is its own trim |
| DataUrl.ImgBase64ToDataUrl | src/common/helpers.js:32 | a non-string argument fails with "argument should be a string" |
| DataUrl.IsPayloadIffPattern | src/common/helpers.js:35 | the payload test accepts exactly the strings of one or more ASCII letters or digits followed by at most two `=` |
| DataUrl.DataUrlContract | src/common/helpers.js:31-38 | a string succeeds exactly when its stripped form matches the pattern; the URL is the PNG prefix and the stripped string; otherwise the invalid-base64 message |
| DataUrl.DataUrlRoundTrip | src/common/helpers.js:34-37 | the payload of an accepted URL, fed back in, gives the same URL |
| DataUrl.WhiteSpaceIgnored | src/common/helpers.js:34 | inserting a white-space character anywhere does not change the outcome |
| DataUrl.ForeignCharacterRejected | src/common/visualTesting.js:168 | any character other than a letter, digit or `=` is rejected, including the base64 characters `+` and `/` |
| DataUrl.SpacedArgumentStrips | src/common/helpers.test.js:15-22 | "lorem ipsum\n123456\t" strips to "loremipsum123456" |
| DataUrl.PaddedPayloads | src/common/visualTesting.test.js:25-34 | "abcd=" and "abcd==" pass the payload test and "abcd===" does not |
| DataUrl.AcceptedExamples | src/common/helpers.test.js:6-35 | the accepted test arguments produce the prefix followed by their stripped text |
| DataUrl.RejectedExamples | src/common/helpers.test.js:25-68 | the rejected test arguments fail with the message the tests expect |
| TaskHandlers.ReplaceSlashes | src/cypress/taskHandlers.js:4 | same length; each `/` becomes `_`; every other character stays in place |
| TaskHandlers.NormalizeShape | src/cypress/taskHandlers.js:3-5 | the file name is the trimmed name with `_` for `/`, then `.png`: length of the trimmed name plus 4, no slash anywhere |
| TaskHandlers.StemTrimmed | src/cypress/taskHandlers.js:4 | the part before `.png` neither starts nor ends with white space |
| TaskHandlers.StemIdempotent | src/cypress/taskHandlers.js:4 | trimming and replacing slashes changes nothing in a stem it produced |
| TaskHandlers.NormalizeTwiceAppendsExtension | src/cypress/taskHandlers.js:4 | normalising an already normalised name appends a second `.png`: the function is not idempotent |
| TaskHandlers.SurroundingSpaceIgnored | src/cypress/taskHandlers.js:9-35 | white space around a name does not change the file the three tasks use |
| TaskHandlers.SlashAndUnderscoreCollide | src/cypress/taskHandlers.js:4 | "home/button" and "home_button" map to the same file, "home_button.png" |

## Left out

- **Numbers.** JavaScript numbers are IEEE doubles; the model computes with
  exact rationals.
  - Results can differ where a double rounds: at an exact `.5` before
    `Math.round`, or at a threshold boundary such as `0.1 * 360`.
- **Browser and DOM.** These are browser APIs with no logic of the engine in
  them:
  - `loadHtmlImage` and `loadImage` (src/common/helpers.js:40-46);
  - canvas creation, `getContext`, `drawImage`, `getImageData`,
    `putImageData`;
  - `appendResultsTo`.

  Their effect is modelled as inputs. A tick is given whether each image
  has loaded and the canvas it was drawn onto. `CalcDiffWithCanvas` is given
  the canvases' bytes and returns the diff buffer.
  `getImageData` is modelled as throwing only for an empty area. Other
  exceptions it can raise, such as a `SecurityError` on a canvas tainted
  by a cross-origin image, are not modelled.
- **Capture offset.** `calcDiffWithCanvas` is modelled for `x = y = 0`, the
  only offset its caller uses.
- **Timers.** `setInterval`, `clearInterval` and `triesIntervalMs` are
  abstract ticks. The wall-clock time between ticks is not modelled.
- **Message text.** The text of `diffResultMessage` built with `toFixed(2)`
  and `threshold * 100` is float-to-string rendering and is not modelled.
  Only the two wording choices are modelled (`DiffEngine.DiffResultWording`).
- **Non-string argument to `imgBase64ToDataUrl`.** All non-string values
  are one `NonString` case, since only `typeof` matters to the function.
- **Non-string argument to `normalizeFilename`.** This would throw from
  `trim` and is not modelled.
- **UTF-16.** Strings are sequences of Unicode characters, not UTF-16 code
  units. No white-space character and no character of the pattern lies
  outside the Basic Multilingual Plane, so stripping, trimming and matching
  are unaffected.
- **Filesystem tasks.** `fs.stat`, `mkdir`, `rename` and `rm` in the three
  Cypress tasks (src/cypress/taskHandlers.js:7-39) are I/O. Only the file
  name they share is modelled.
- **Cypress glue.** src/cypress/commands.js is not part of this model: it
  is the screenshot and `cy.task` glue of the Cypress runner.
- **Behaviour the code does not have.** Some tests expect behaviour the code
  does not implement, and the model does not add it:
  - errors for invalid RGB vectors and thresholds;
  - an `arePixelsSimilar` export;
  - a `hasLoaded` flag that is undefined before loading;
  - an error callback.
