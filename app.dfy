/**
 * The module-level state of app.js as one object: the model flag, the
 * coefficient buffer, the score last shown, the three audio handles, and
 * the log of external effects the handlers perform. Each handler of the
 * page is a method on it.
 */
module App {
  import opened Wrappers
  import opened Params
  import opened Windowing
  import opened Lifecycle

  class Detector<T, S> {
    /** `tfliteModel !== null`. */
    var modelLoaded: bool
    /** `mfccBuffer`. */
    var buffer: seq<T>
    /** The probability last written to the result element, if any. */
    var score: Option<S>
    /** `meydaAnalyzer`, `audioContext` and `micStream` (by its tracks). */
    var analyzer: bool
    var audioContext: bool
    var micStream: Option<seq<TrackId>>
    /** The external operations on audio resources performed so far, oldest first. */
    var effects: seq<Effect>

    function Session(): Handles
      reads this
    {
      Handles(analyzer, audioContext, micStream)
    }

    function Pipeline(): State<T, S>
      reads this
    {
      State(buffer, score)
    }

    /** The state at page load: no model, nothing buffered, nothing held. */
    constructor ()
      ensures !modelLoaded && buffer == [] && score == None
      ensures Session() == Released && effects == []
    {
      modelLoaded := false;
      buffer := [];
      score := None;
      analyzer, audioContext, micStream := false, false, None;
      effects := [];
    }

    /**
     * `loadTFLiteModel`: a successful load sets the model; a failed one
     * leaves `tfliteModel` as it was.
     */
    method LoadModel(succeeded: bool)
      modifies this`modelLoaded
      ensures modelLoaded == (old(modelLoaded) || succeeded)
    {
      if succeeded {
        modelLoaded := true;
      }
    }

    /**
     * `onMeydaFeatures`: append the frame's coefficients, and once a full
     * window is buffered, classify its first MFCC_SLICES * NUM_MFCC
     * scalars and drop hopSliceCount * NUM_MFCC scalars from the head,
     * whatever `predict` does.
     */
    method OnMeydaFeatures(features: Features<T>, predict: seq<T> -> Prediction<S>)
      modifies this`buffer, this`score
      ensures Pipeline() == Callback(old(Pipeline()), features, modelLoaded, predict)
      ensures features.WithMfcc? && modelLoaded ==>
        buffer == Feed(old(buffer), features.mfcc).buffer &&
        score == match Feed(old(buffer), features.mfcc).window
                 case None => old(score)
                 case Some(w) => ScoreAfter(old(score), predict(w))
    {
      if features.Missing? || features.WithoutMfcc? {
        return;
      }
      if !modelLoaded {
        return;
      }
      FormulaValues();
      buffer := buffer + features.mfcc;
      if |buffer| >= MfccSlices * NumMfcc {
        var input := buffer[..MfccSlices * NumMfcc];
        var outcome := predict(input);
        match outcome {
          case Returned(output) =>
            if |output| > 0 {
              score := Some(output[0]);
            }
          case Threw =>
        }
        var hopSliceCount := HopSliceCount(HopSize, FftSize, MfccSlices);
        buffer := buffer[hopSliceCount * NumMfcc..];
      }
    }

    /**
     * `startMicrophone`: the model guard, the already-started guard, then
     * the audio context, the permission request and the analyzer, step by
     * step; a denied permission returns with the context still held.
     */
    method StartMicrophone(grant: Grant) returns (outcome: StartOutcome)
      modifies this`analyzer, this`audioContext, this`micStream, this`effects
      ensures var r := Start(old(Session()), modelLoaded, grant);
        Session() == r.0.handles && effects == old(effects) + r.0.effects && outcome == r.1
    {
      if !modelLoaded {
        return ModelNotLoaded;
      }
      if audioContext {
        return AlreadyStarted;
      }
      audioContext := true;
      effects := effects + [CreateContext];
      match grant {
        case Denied =>
          return PermissionDenied;
        case Granted(tracks) =>
          micStream := Some(tracks);
          effects := effects + [AcquireMic(tracks)];
          analyzer := true;
          effects := effects + [StartAnalyzer];
          return Started;
      }
    }

    /**
     * `stopMicrophone`: stop and null the analyzer, close and null the
     * context, then stop every track of the stream and null it.
     */
    method StopMicrophone()
      modifies this`analyzer, this`audioContext, this`micStream, this`effects
      ensures Session() == Released
      ensures effects == old(effects) + Releases(old(Session()))
    {
      if analyzer {
        effects := effects + [StopAnalyzer];
        analyzer := false;
      }
      if audioContext {
        effects := effects + [CloseContext];
        audioContext := false;
      }
      if micStream.Some? {
        var tracks := micStream.value;
        var i := 0;
        while i < |tracks|
          invariant 0 <= i <= |tracks|
          invariant !analyzer && !audioContext
          invariant effects == old(effects)
            + (if old(analyzer) then [StopAnalyzer] else [])
            + (if old(audioContext) then [CloseContext] else [])
            + TrackStops(tracks[..i])
        {
          assert tracks[..i + 1][..i] == tracks[..i];
          effects := effects + [StopTrack(tracks[i])];
          i := i + 1;
        }
        assert tracks[..i] == tracks;
        micStream := None;
      }
    }
  }
}
