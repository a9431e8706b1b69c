# babycry-dec detector core in Dafny

The page `app.js` runs a microphone → MFCC → classifier pipeline. This project models the two parts of it that carry state:

- **The streaming window assembler** in `onMeydaFeatures`. Every Meyda callback appends one frame of cepstral coefficients to the flat buffer `mfccBuffer`. Once the buffer holds `MFCC_SLICES * NUM_MFCC` scalars, the callback hands the first window to the classifier. It then drops `hopSliceCount * NUM_MFCC` scalars from the head, whether or not `predict` threw. With the configured parameters `MFCC_SLICES = 30` and `hopSliceCount = floor(512 / 1024 * 30) = 15`, so a window is 1200 scalars and each trim drops 600.
- **The session lifecycle** of `startMicrophone` and `stopMicrophone`, reduced to the three nullable handles (`meydaAnalyzer`, `audioContext`, `micStream`), the model flag, and a log of the external effects on audio resources in the order they happen.

Modules:

- `Wrappers` (wrappers.dfy): `Option`.
- `Params` (params.dfy): the constants, and the two derived counts as functions whose contracts say what the formulas compute.
- `Windowing` (windowing.dfy): one callback as pure functions (`Feed`, `ScoreAfter`, `Callback`), and the laws of the rolling window. `Run` feeds a stream of frames into an empty buffer with `Feed` alone, so it has no model guard and no score. `Callbacks` folds the full `Callback` over a stream with the model loaded, passing the k-th classifier call `predict(k, ·)` so that equal windows may meet different outcomes, and `CallbacksRun` proves that its buffer is `Run`'s and that its score folds `ScoreAfter` over the predictions of `Run`'s windows.
- `Lifecycle` (lifecycle.dfy): start and stop as transitions over the handles, with the effects each performs, and laws over any sequence of user actions.
- `App` (app.dfy): class `Detector`. Its fields are the module-level globals of `app.js` (the model, the buffer, the three handles), plus two fields the model adds: `score`, the probability last written to the result element, and `effects`, a log of the external operations on audio resources. Its methods are the page's handlers, written step by step. `OnMeydaFeatures`, `StartMicrophone` and `StopMicrophone` are each proved equal to a pure function (`Callback`, `Start`, `Stop`). `LoadModel` has no pure counterpart: its contract states the new model flag directly.

External collaborators become parameters:

- `getUserMedia` is a `Grant`: denied, or granted with a list of track ids.
- The model's `predict` is a function argument `seq<T> -> Prediction<S>`: it returns an output sequence or throws.
- A model load is a success flag.
- Meyda frames are a `Features<T>` value. The coefficient type `T` and the score type `S` are generic.

Three behaviours of the code worth knowing:

- **Permission denial.** `startMicrophone` creates the `AudioContext` before asking for the microphone, and on denial it returns without releasing it (app.js:60-68). So the session is not back to idle: every later start returns at the `audioContext` guard until a stop. `Lifecycle.DeniedStartBlocksUntilStop` states this.
- **Empty output.** When `predict` returns an empty output, `outputTensor[0]` is `undefined` (app.js:106-113). `prob.toFixed` then throws inside the same `try`, so the shown score is left unchanged, just as when `predict` throws. An empty `mfcc` array is truthy, so it passes the guard at line 95: nothing is appended, but readiness is still tested.
- **Buffer across sessions.** `stopMicrophone` clears neither `mfccBuffer` nor the shown score (app.js:123-139), so the next session continues the old buffer: its first frames can complete a window made mostly of frames from before the stop. The laws "from empty" therefore describe the first session after page load. `Windowing.NextSessionStartsFromOldBuffer` shows a case, and neither `StopMicrophone` nor `StartMicrophone` may modify `buffer` or `score`.

## Model

| member | source | states |
|---|---|---|
| Params.SliceCount | app.js:15 | `floor((sampleRate - fftSize) / hopSize) + 1` is the number of whole analysis frames at hop offsets that fit in the samples: `(n-1)*hop + fft <= rate < n*hop + fft` |
| Params.HopSliceCount | app.js:115 | the integer `(hop * slices) / fft` is the floor of the real product `(hop / fft) * slices` |
| Params.FormulaValues | app.js:9-15 | the window sizes used throughout (30 frames, trim 15 frames, 1200 and 600 scalars) are what the source formulas give for its constants |
| Windowing.Feed | app.js:100-117 | a window forms iff the appended buffer holds at least 1200 scalars; the window is the 1200-element prefix of the appended buffer; after it, the buffer is the appended buffer minus its first 600 scalars; otherwise the buffer is the old buffer with the frame at its tail |
| Windowing.ScoreAfter | app.js:106-113 | the score becomes `output[0]` exactly when `predict` returns a non-empty output; otherwise (a throw, or an undefined `output[0]`) it stays |
| Windowing.Callback | app.js:94-118 | a missing argument, a missing `mfcc`, or no loaded model leaves buffer and score unchanged; otherwise the buffer is `Feed`'s, and the score changes only when a window forms, by `predict` on that window |
| Windowing.TrimDoesNotDependOnPredict | app.js:106-116 | the buffer after a callback is the same whatever `predict` returns or throws |
| Windowing.AtMostOneWindowPerCallback | app.js:103-117 | each callback adds at most one window, and adds one exactly when the pre-callback buffer plus the frame reach 1200 scalars |
| Windowing.RunUniform | app.js:100-117 | from empty, with 40-wide frames: after n frames, `WindowCount(n)` windows exist; window j is frames 15j..15j+29 concatenated oldest first; the buffer is the last `BufferedFrames(n)` frames |
| Windowing.UniformBounds | app.js:100-117 | from empty, with 40-wide frames, the buffer length is a multiple of 40, equals 40 times the buffered frame count, and stays below 1200 after every callback |
| Windowing.UniformCadence | app.js:103-116 | from empty, with 40-wide frames, the n-th callback forms a window iff n >= 30 and (n - 30) mod 15 == 0 |
| Windowing.LastWindowTailPrefixesBuffer | app.js:100-116 | for any frame sizes, every window has 1200 scalars, and the last window's final 600 scalars start the buffer |
| Windowing.ConsecutiveWindowsOverlap | app.js:105-116 | for any frame sizes, the first 600 scalars of window j+1 are the last 600 of window j |
| Windowing.ScoreIsLatestUsable | app.js:106-113 | after a sequence of predictions, the score is `output[0]` of the most recent usable one; later failures leave it |
| Windowing.ScoreWithoutUsable | app.js:106-113 | if no prediction is usable, the score is the initial one |
| Windowing.Predictions | app.js:103-108 | one prediction per window, the n-th classifier call `predict(n, window n)` at position n, in the order the windows formed |
| Windowing.CallbacksRun | app.js:94-118 | a stream of `mfcc`-carrying callbacks with the model loaded, from an empty buffer: its buffer is `Run`'s, it calls the classifier once per window of `Run`, and its score folds `ScoreAfter` over the predictions of exactly `Run`'s windows |
| Windowing.StreamScoreIsLatestUsable | app.js:106-116 | after a real stream of callbacks, the score is `output[0]` of the latest window whose prediction was usable, whatever later calls did, even on equal windows |
| Windowing.NextSessionStartsFromOldBuffer | app.js:94-139 | the buffer survives a stop: after 44 uniform frames 29 frames are buffered, so the first frame of the next session completes a window of 29 old frames and 1 new one |
| Windowing.ThirtyFramesOneWindow | app.js:100-117 | 30 frames, frame k filled with k, form exactly one window holding frames 0..29 in order; frames 15..29 remain buffered |
| Lifecycle.Start | app.js:50-89 | no model: nothing changes, nothing acquired; context held: nothing changes; denied: only the context is created and kept; granted: context, microphone and analyzer are acquired in that order |
| Lifecycle.TrackStops | app.js:133 | one stop per track, in the stream's track order |
| Lifecycle.Stop | app.js:123-139 | all three handles end null; the releases are exactly those of the held handles, analyzer then context then tracks |
| Lifecycle.ReplayBalanced | app.js:50-135 | over any sequence of starts and stops from page load, the handles are idle, context-only or fully held, and contexts created = contexts closed + (1 if held), likewise for the analyzer |
| Lifecycle.StartGuards | app.js:52-58 | a start without the model, or with a context held, acquires nothing and changes nothing |
| Lifecycle.StartTwiceAcquiresOnce | app.js:56-58 | a second start right after a first returns at the guard, acquiring nothing |
| Lifecycle.DeniedStartBlocksUntilStop | app.js:60-68 | after a denied start only the context is held; later starts return at the guard; a stop closes that context, and then a start gets past the guard |
| Lifecycle.StopIdempotent | app.js:123-135 | a second stop releases nothing and leaves every handle null |
| Lifecycle.StopAfterStartOrder | app.js:123-135 | a stop after a successful start stops the analyzer, closes the context, then stops each track |
| App.Detector.constructor | app.js:3-24 | page load: no model, empty buffer, no score, no handle held |
| App.Detector.LoadModel | app.js:29-40 | a successful load sets the model; a failed one leaves it unchanged |
| App.Detector.OnMeydaFeatures | app.js:94-118 | the in-place append, window, predict and trim give exactly `Callback`'s buffer and score |
| App.Detector.StartMicrophone | app.js:50-89 | the step-by-step start gives exactly `Start`'s handles and outcome, with `Start`'s effects appended to the log |
| App.Detector.StopMicrophone | app.js:123-139 | the step-by-step stop, including the loop over the tracks, nulls every handle and appends exactly `Releases` of the old handles |

## Left out

- Web Audio (`AudioContext`, `createMediaStreamSource`), `getUserMedia` and Meyda MFCC extraction are browser and library I/O. They appear only as an outcome (`Grant`), an effect in the log, or an opaque frame.
- TFLite model loading and `predict` internals are a foreign library. `predict` is an arbitrary function argument that may throw; the model handle is a flag.
- The `Float32Array` conversion, `prob.toFixed(3)` and the coefficient values are float numerics and formatting. Element types are generic and the window is passed as is.
- Params.HopSliceCount: computed on exact integers and reals, not IEEE doubles. It agrees with the source for its constants, because 512 / 1024 and 0.5 * 30 are exact in double precision.
- Params.SliceCount: computed on exact integers, not IEEE doubles. It agrees with the source for its constants, because (16000 - 1024) / 512 = 29.25 is exact in double precision.
- DOM status and result text, button enabling, `alert`, `console` and the event-listener wiring (app.js:18-21, 30-31, 33-45, 86-88, 136-143) are UI. `StartOutcome` only records which of the branches that write them was taken.
- Lifecycle.ReplayBalanced, Lifecycle.Start, App.Detector.StartMicrophone: treat `startMicrophone` as one atomic step, although it suspends at `await getUserMedia` (app.js:64), its only `await`. `onMeydaFeatures` has no `await` and calls `predict` synchronously (app.js:108), and callbacks begin only at `meydaAnalyzer.start()` (app.js:85), so no other handler can interleave with a callback. A second start during the suspension returns at the guard at line 56, as in the model. A stop during the suspension closes and nulls `audioContext`; when permission then resolves, line 64 sets `micStream` and line 70 throws on the null context, leaving `Handles(false, false, Some(tracks))`: a live microphone in a state outside `Lifecycle.Consistent`, whose tracks no later stop reaches once the next start overwrites `micStream`. `ReplayBalanced`'s `Consistent` clause holds only because this interleaving is not modelled; whether stop can be clicked at that moment depends on the stop button's initial state, which the page's HTML sets and which is not part of this model.
- Lifecycle.Start, App.Detector.StartMicrophone, Lifecycle.ReplayBalanced: assume that `new AudioContext()` (app.js:60), `createMediaStreamSource` (app.js:70), `Meyda.createMeydaAnalyzer` (app.js:73) and `meydaAnalyzer.start()` (app.js:85) do not throw; none of them is inside a `try`. A throw at line 70 or 73 after the microphone was granted would leave the context and the stream held with no analyzer, a state outside `Lifecycle.Consistent`, so the replay invariant covers only runs without such throws.
- Lifecycle.Stop, App.Detector.StopMicrophone: assume `meydaAnalyzer.stop()` and `track.stop()` do not throw, and treats `audioContext.close()` (a promise) as done. If one of them threw, the source would skip the remaining releases; that case is not modelled.
- Lifecycle.ReplayBalanced: does not count microphone releases, because the source releases a stream only track by track and keeps no per-stream record.
