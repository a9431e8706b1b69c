/**
 * The streaming window assembler of `onMeydaFeatures` (app.js, lines
 * 94-118) as pure functions over the coefficient buffer, and the laws of
 * the rolling window: readiness, trim, overlap, cadence and the
 * isolation of classifier failures.
 */
module Windowing {
  import opened Wrappers
  import opened Params

  /** The argument of one feature callback. */
  datatype Features<T> =
    | Missing                      // `features` is null or undefined
    | WithoutMfcc                  // `features.mfcc` is null or undefined
    | WithMfcc(mfcc: seq<T>)       // an array of coefficients (an empty one is truthy)

  /** What one call of the classifier's `predict` does. */
  datatype Prediction<S> = Returned(output: seq<S>) | Threw

  /** The buffer after a callback, and the window handed to `predict`, if any. */
  datatype Step<T> = Step(buffer: seq<T>, window: Option<seq<T>>)

  /** True when the buffer holds a full window. */
  predicate Ready<T>(buffer: seq<T>) {
    |buffer| >= WindowLen
  }

  /**
   * One accepted callback: append the coefficients at the tail; when a
   * full window is there, take the first WindowLen scalars as the window
   * and drop the first TrimLen scalars.
   */
  function Feed<T>(buffer: seq<T>, coeffs: seq<T>): (r: Step<T>)
    ensures r.window.Some? <==> Ready(buffer + coeffs)
    ensures r.window.Some? ==>
      |r.window.value| == WindowLen && r.window.value <= buffer + coeffs
    ensures r.window.Some? ==>
      |r.buffer| == |buffer| + |coeffs| - TrimLen &&
      buffer + coeffs == (buffer + coeffs)[..TrimLen] + r.buffer
    ensures r.window.None? ==> r.buffer == buffer + coeffs
  {
    var appended := buffer + coeffs;
    if Ready(appended) then
      Step(appended[TrimLen..], Some(appended[..WindowLen]))
    else
      Step(appended, None)
  }

  /**
   * The score shown after one prediction: output[0] when `predict`
   * returns a non-empty output; otherwise the previous score, both when
   * `predict` throws and when output[0] is undefined, so that formatting
   * it throws inside the same try block.
   */
  function ScoreAfter<S>(score: Option<S>, p: Prediction<S>): (r: Option<S>)
    ensures Usable(p) ==> r == Some(p.output[0])
    ensures !Usable(p) ==> r == score
  {
    match p
    case Returned(output) => if |output| > 0 then Some(output[0]) else score
    case Threw => score
  }

  /** A prediction that yields a displayable score. */
  predicate Usable<S>(p: Prediction<S>) {
    p.Returned? && |p.output| > 0
  }

  /** What a whole callback does to the buffer and the score. */
  datatype State<T, S> = State(buffer: seq<T>, score: Option<S>)

  function Callback<T, S>(s: State<T, S>, f: Features<T>, modelLoaded: bool,
                          predict: seq<T> -> Prediction<S>): (r: State<T, S>)
    ensures (f.Missing? || f.WithoutMfcc? || !modelLoaded) ==> r == s
    ensures f.WithMfcc? && modelLoaded ==> r.buffer == Feed(s.buffer, f.mfcc).buffer
    ensures f.WithMfcc? && modelLoaded && !Ready(s.buffer + f.mfcc) ==> r.score == s.score
    ensures f.WithMfcc? && modelLoaded && Ready(s.buffer + f.mfcc) ==>
      r.score == ScoreAfter(s.score, predict((s.buffer + f.mfcc)[..WindowLen]))
  {
    match f
    case WithMfcc(coeffs) =>
      if !modelLoaded then s
      else
        var step := Feed(s.buffer, coeffs);
        (match step.window
         case None => State(step.buffer, s.score)
         case Some(w) => State(step.buffer, ScoreAfter(s.score, predict(w))))
    case _ => s
  }

  /** The classifier's outcome never influences the buffer. */
  lemma {:induction false} TrimDoesNotDependOnPredict<T, S>(
    s: State<T, S>, f: Features<T>, modelLoaded: bool,
    p1: seq<T> -> Prediction<S>, p2: seq<T> -> Prediction<S>)
    ensures Callback(s, f, modelLoaded, p1).buffer == Callback(s, f, modelLoaded, p2).buffer
  {
  }

  // ---------------------------------------------------------------------
  // Streams of frames

  /** Concatenation of frames, oldest first. */
  function Flatten<T>(frames: seq<seq<T>>): seq<T>
    decreases |frames|
  {
    if frames == [] then [] else frames[0] + Flatten(frames[1..])
  }

  /** Every frame holds NumMfcc coefficients. */
  predicate Uniform<T>(frames: seq<seq<T>>) {
    forall i :: 0 <= i < |frames| ==> |frames[i]| == NumMfcc
  }

  /** Buffer and windows after feeding the frames one by one from empty. */
  datatype Trace<T> = Trace(buffer: seq<T>, windows: seq<seq<T>>)

  function Run<T>(frames: seq<seq<T>>): (t: Trace<T>)
    decreases |frames|
  {
    if frames == [] then Trace([], [])
    else
      var prev := Run(frames[..|frames| - 1]);
      var step := Feed(prev.buffer, frames[|frames| - 1]);
      Trace(step.buffer, prev.windows + (if step.window.Some? then [step.window.value] else []))
  }

  lemma {:induction false} FlattenAppend<T>(a: seq<seq<T>>, b: seq<seq<T>>)
    ensures Flatten(a + b) == Flatten(a) + Flatten(b)
    decreases |a|
  {
    if a == [] {
      assert a + b == b;
    } else {
      assert (a + b)[1..] == a[1..] + b;
      FlattenAppend(a[1..], b);
    }
  }

  // The arithmetic of uniform streams below writes NumMfcc, MfccSlices and
  // HopSlices as their values 40, 30 and 15 from module Params:
  // the solver reads a product with a literal factor as linear arithmetic,
  // and a product with a named constant as non-linear.

  lemma {:induction false} FlattenLength<T>(frames: seq<seq<T>>)
    requires Uniform(frames)
    ensures |Flatten(frames)| == 40 * |frames|
    decreases |frames|
  {
    if frames != [] {
      FlattenLength(frames[1..]);
    }
  }

  /** Dropping k uniform frames drops 40 * k scalars, keeping k frames keeps as many. */
  lemma FlattenSplit<T>(frames: seq<seq<T>>, k: int)
    requires Uniform(frames) && 0 <= k <= |frames|
    ensures |Flatten(frames)| == 40 * |frames|
    ensures Flatten(frames)[40 * k..] == Flatten(frames[k..])
    ensures Flatten(frames)[..40 * k] == Flatten(frames[..k])
  {
    assert frames == frames[..k] + frames[k..];
    FlattenAppend(frames[..k], frames[k..]);
    FlattenLength(frames[..k]);
    FlattenLength(frames);
  }

  /** Frames buffered after n uniform frames have been fed from empty. */
  function BufferedFrames(n: nat): nat {
    if n < 30 then n else 15 + (n - 30) % 15
  }

  /** Windows formed after n uniform frames have been fed from empty. */
  function WindowCount(n: nat): nat {
    if n < 30 then 0 else (n - 30) / 15 + 1
  }

  /**
   * w windows and n - 15 * w buffered frames, within the bounds the
   * stream keeps, are the closed forms WindowCount and BufferedFrames.
   */
  lemma Counting(n: nat, w: nat)
    requires 0 <= n - 15 * w < 30 && (w > 0 ==> n - 15 * w >= 15)
    ensures w == WindowCount(n) && n - 15 * w == BufferedFrames(n)
  {
  }

  /**
   * One callback on a buffer of fewer than 30 uniform frames with one
   * more uniform frame: the 30th frame completes a window of all of them
   * and keeps the last 15; an earlier one is only appended.
   */
  lemma FeedFrames<T>(kept: seq<seq<T>>, f: seq<T>)
    requires Uniform(kept + [f]) && |kept| < 30
    ensures var all := kept + [f];
      (|all| == 30 ==> Feed(Flatten(kept), f) == Step(Flatten(all[15..]), Some(Flatten(all)))) &&
      (|all| < 30 ==> Feed(Flatten(kept), f) == Step(Flatten(all), None))
  {
    var all := kept + [f];
    FlattenAppend(kept, [f]);
    assert Flatten([f]) == f + Flatten([f][1..]);
    FlattenLength(all);
    assert Flatten(kept) + f == Flatten(all);
    if |all| == 30 {
      FlattenSplit(all, 15);
      assert Flatten(all)[..WindowLen] == Flatten(all);
      assert Flatten(all)[TrimLen..] == Flatten(all[15..]);
    }
  }

  /**
   * Closed form of the buffer and the windows after n uniform frames with
   * w windows formed: the buffer holds frames 15 * w onwards, fewer than
   * 30 of them and, once a window was formed, at least 15; window j holds
   * frames 15 * j up to 15 * j + 30.
   */
  ghost predicate ClosedForm<T>(frames: seq<seq<T>>, t: Trace<T>) {
    var n := |frames|;
    var w := |t.windows|;
    0 <= n - 15 * w < 30 && (w > 0 ==> n - 15 * w >= 15) &&
    t.buffer == Flatten(frames[15 * w..]) &&
    forall j :: 0 <= j < w ==> t.windows[j] == Flatten(frames[15 * j .. 15 * j + 30])
  }

  /**
   * The callback of the last frame sees the buffer of the frames
   * 15 * w .. m and, after appending, holds the frames 15 * w .. m + 1.
   */
  lemma StepKept<T>(frames: seq<seq<T>>)
    requires Uniform(frames) && frames != []
    requires ClosedForm(frames[..|frames| - 1], Run(frames[..|frames| - 1]))
    ensures var m := |frames| - 1;
      var w := |Run(frames[..m]).windows|;
      var all := frames[15 * w..];
      0 <= 15 * w <= m && |all| <= 30 &&
      Run(frames) == (var step := Feed(Flatten(frames[15 * w..m]), frames[m]);
        Trace(step.buffer, Run(frames[..m]).windows +
          if step.window.Some? then [step.window.value] else [])) &&
      (|all| == 30 ==> Feed(Flatten(frames[15 * w..m]), frames[m]) == Step(Flatten(all[15..]), Some(Flatten(all)))) &&
      (|all| < 30 ==> Feed(Flatten(frames[15 * w..m]), frames[m]) == Step(Flatten(all), None))
  {
    var m := |frames| - 1;
    var w := |Run(frames[..m]).windows|;
    var kept := frames[15 * w..m];
    assert frames[..m][15 * w..] == kept;
    assert kept + [frames[m]] == frames[15 * w..];
    assert Uniform(frames[15 * w..]);
    FeedFrames(kept, frames[m]);
  }

  /** Windows formed so far stay what they were when more frames follow. */
  lemma WindowsExtend<T>(frames: seq<seq<T>>, windows: seq<seq<T>>, extra: seq<seq<T>>)
    requires frames != []
    requires forall j :: 0 <= j < |windows| ==>
      15 * j + 30 <= |frames| - 1 &&
      windows[j] == Flatten(frames[..|frames| - 1][15 * j .. 15 * j + 30])
    requires extra == [] || (15 * |windows| + 30 <= |frames|
                             && extra == [Flatten(frames[15 * |windows| .. 15 * |windows| + 30])])
    ensures forall j :: 0 <= j < |windows + extra| ==>
      (windows + extra)[j] == Flatten(frames[15 * j .. 15 * j + 30])
  {
    var init := frames[..|frames| - 1];
    var all := windows + extra;
    forall j | 0 <= j < |all|
      ensures all[j] == Flatten(frames[15 * j .. 15 * j + 30])
    {
      if j < |windows| {
        assert init[15 * j .. 15 * j + 30] == frames[15 * j .. 15 * j + 30];
      }
    }
  }

  /** The frame that completes a window preserves the closed form. */
  lemma StepWindow<T>(frames: seq<seq<T>>)
    requires Uniform(frames) && frames != []
    requires ClosedForm(frames[..|frames| - 1], Run(frames[..|frames| - 1]))
    requires |frames| - 15 * |Run(frames[..|frames| - 1]).windows| == 30
    ensures ClosedForm(frames, Run(frames))
  {
    var n := |frames|;
    StepKept(frames);
    var prev := Run(frames[..n - 1]);
    var w := |prev.windows|;
    var all := frames[15 * w..];
    var t := Run(frames);
    assert all[15..] == frames[15 * (w + 1)..];
    assert all == frames[15 * w .. 15 * w + 30];
    WindowsExtend(frames, prev.windows, [Flatten(all)]);
  }

  /** A frame that does not complete a window preserves the closed form. */
  lemma StepPlain<T>(frames: seq<seq<T>>)
    requires Uniform(frames) && frames != []
    requires ClosedForm(frames[..|frames| - 1], Run(frames[..|frames| - 1]))
    requires |frames| - 15 * |Run(frames[..|frames| - 1]).windows| < 30
    ensures ClosedForm(frames, Run(frames))
  {
    StepKept(frames);
    var prev := Run(frames[..|frames| - 1]);
    WindowsExtend(frames, prev.windows, []);
  }

  /**
   * Closed form of a stream of uniform frames fed from empty: with
   * n = |frames|, WindowCount(n) windows have formed, window j is the
   * concatenation of frames 15*j up to 15*j + 30 (HopSlices*j up to
   * HopSlices*j + MfccSlices), oldest first, and the buffer is the
   * concatenation of the last BufferedFrames(n) frames.
   */
  lemma {:induction false} RunUniform<T>(frames: seq<seq<T>>)
    requires Uniform(frames)
    ensures var n := |frames|;
      var t := Run(frames);
      |t.windows| == WindowCount(n) &&
      t.buffer == Flatten(frames[n - BufferedFrames(n)..]) &&
      forall j :: 0 <= j < |t.windows| ==>
        15 * j + 30 <= n && t.windows[j] == Flatten(frames[15 * j .. 15 * j + 30])
  {
    RunClosedForm(frames);
    Counting(|frames|, |Run(frames).windows|);
  }

  lemma {:induction false} RunClosedForm<T>(frames: seq<seq<T>>)
    requires Uniform(frames)
    ensures ClosedForm(frames, Run(frames))
    decreases |frames|
  {
    if frames == [] {
      assert frames[0..] == [];
    } else {
      var init := frames[..|frames| - 1];
      assert Uniform(init);
      RunClosedForm(init);
      if |frames| - 15 * |Run(init).windows| == 30 {
        StepWindow(frames);
      } else {
        StepPlain(frames);
      }
    }
  }

  /** Every callback forms at most one window, and a window only with enough data. */
  lemma {:induction false} AtMostOneWindowPerCallback<T>(frames: seq<seq<T>>)
    requires frames != []
    ensures var before := Run(frames[..|frames| - 1]);
      var after := Run(frames);
      |after.windows| <= |before.windows| + 1 &&
      (|after.windows| == |before.windows| + 1 <==>
        |before.buffer| + |frames[|frames| - 1]| >= WindowLen)
  {
  }

  /**
   * For uniform frames fed from empty, the buffer length stays a multiple
   * of NumMfcc below WindowLen after every callback.
   */
  lemma UniformBounds<T>(frames: seq<seq<T>>)
    requires Uniform(frames)
    ensures |Run(frames).buffer| % NumMfcc == 0
    ensures |Run(frames).buffer| < WindowLen
    ensures |Run(frames).buffer| == NumMfcc * BufferedFrames(|frames|)
  {
    var n := |frames|;
    RunUniform(frames);
    assert Uniform(frames[n - BufferedFrames(n)..]);
    FlattenLength(frames[n - BufferedFrames(n)..]);
  }

  /**
   * Cadence: for uniform frames fed from empty, the n-th callback forms a
   * window exactly when n == MfccSlices + k * HopSlices for some k >= 0.
   */
  lemma UniformCadence<T>(frames: seq<seq<T>>)
    requires Uniform(frames) && frames != []
    ensures var n := |frames|;
      |Run(frames).windows| == |Run(frames[..n - 1]).windows| + 1 <==>
        n >= MfccSlices && (n - MfccSlices) % HopSlices == 0
  {
    var n := |frames|;
    RunUniform(frames);
    assert Uniform(frames[..n - 1]);
    RunUniform(frames[..n - 1]);
  }

  /** Invariant of any stream: the tail of the last window starts the buffer. */
  lemma {:induction false} LastWindowTailPrefixesBuffer<T>(frames: seq<seq<T>>)
    ensures var t := Run(frames);
      (forall j :: 0 <= j < |t.windows| ==> |t.windows[j]| == WindowLen) &&
      (|t.windows| > 0 ==> t.windows[|t.windows| - 1][TrimLen..] <= t.buffer)
    decreases |frames|
  {
    if frames != [] {
      LastWindowTailPrefixesBuffer(frames[..|frames| - 1]);
    }
  }

  /**
   * Overlap law, for any frame sizes: consecutive windows share
   * WindowLen - TrimLen scalars; the head of window j + 1 is the tail of
   * window j.
   */
  lemma {:induction false} ConsecutiveWindowsOverlap<T>(frames: seq<seq<T>>)
    ensures var w := Run(frames).windows;
      (forall j :: 0 <= j < |w| ==> |w[j]| == WindowLen) &&
      forall j :: 0 <= j < |w| - 1 ==> w[j + 1][..WindowLen - TrimLen] == w[j][TrimLen..]
    decreases |frames|
  {
    if frames != [] {
      var init := frames[..|frames| - 1];
      ConsecutiveWindowsOverlap(init);
      LastWindowTailPrefixesBuffer(init);
      LastWindowTailPrefixesBuffer(frames);
      var prev := Run(init);
      var step := Feed(prev.buffer, frames[|frames| - 1]);
      if step.window.Some? && |prev.windows| > 0 {
        var last := prev.windows[|prev.windows| - 1];
        assert last[TrimLen..] <= prev.buffer + frames[|frames| - 1];
        assert step.window.value[..WindowLen - TrimLen] == last[TrimLen..];
      }
    }
  }

  // ---------------------------------------------------------------------
  // Scores over a stream of predictions

  /** Score after a sequence of predictions, most recent last. */
  function Scores<S>(init: Option<S>, ps: seq<Prediction<S>>): Option<S>
    decreases |ps|
  {
    if ps == [] then init else ScoreAfter(Scores(init, ps[..|ps| - 1]), ps[|ps| - 1])
  }

  /**
   * The score is that of the most recent usable prediction; failures
   * before or after it neither halt nor alter it, and with no usable
   * prediction the initial score stays.
   */
  lemma {:induction false} ScoreIsLatestUsable<S>(init: Option<S>, ps: seq<Prediction<S>>, i: int)
    requires 0 <= i < |ps| && Usable(ps[i])
    requires forall j :: i < j < |ps| ==> !Usable(ps[j])
    ensures Scores(init, ps) == Some(ps[i].output[0])
    decreases |ps|
  {
    if i < |ps| - 1 {
      ScoreIsLatestUsable(init, ps[..|ps| - 1], i);
    }
  }

  lemma {:induction false} ScoreWithoutUsable<S>(init: Option<S>, ps: seq<Prediction<S>>)
    requires forall j :: 0 <= j < |ps| ==> !Usable(ps[j])
    ensures Scores(init, ps) == init
    decreases |ps|
  {
    if ps != [] {
      ScoreWithoutUsable(init, ps[..|ps| - 1]);
    }
  }

  // ---------------------------------------------------------------------
  // Streams of accepted callbacks

  /**
   * The predictions a stream of windows asks for, one per window, in
   * order: the n-th call of the classifier behaves as predict(n, .), so
   * that equal windows may meet different outcomes.
   */
  function Predictions<T, S>(windows: seq<seq<T>>, predict: (nat, seq<T>) -> Prediction<S>): (ps: seq<Prediction<S>>)
    ensures |ps| == |windows|
    ensures forall i :: 0 <= i < |ps| ==> ps[i] == predict(i, windows[i])
    decreases |windows|
  {
    if windows == [] then []
    else Predictions(windows[..|windows| - 1], predict) + [predict(|windows| - 1, windows[|windows| - 1])]
  }

  /**
   * Buffer and score after one callback per frame, each carrying `mfcc`,
   * with the model loaded, from page load; and the number of classifier
   * calls made so far. The callback that makes the k-th call passes
   * predict(k, .) as its classifier.
   */
  function Callbacks<T, S>(init: Option<S>, frames: seq<seq<T>>, predict: (nat, seq<T>) -> Prediction<S>): (State<T, S>, nat)
    decreases |frames|
  {
    if frames == [] then (State([], init), 0)
    else
      var prev := Callbacks(init, frames[..|frames| - 1], predict);
      var s := prev.0;
      var k := prev.1;
      var f := frames[|frames| - 1];
      (Callback(s, WithMfcc(f), true, w => predict(k, w)), k + if Ready(s.buffer + f) then 1 else 0)
  }

  lemma PredictionsSnoc<T, S>(windows: seq<seq<T>>, w: seq<T>, predict: (nat, seq<T>) -> Prediction<S>)
    ensures Predictions(windows + [w], predict) == Predictions(windows, predict) + [predict(|windows|, w)]
  {
    assert (windows + [w])[..|windows|] == windows;
  }

  lemma ScoresSnoc<S>(init: Option<S>, ps: seq<Prediction<S>>, p: Prediction<S>)
    ensures Scores(init, ps + [p]) == ScoreAfter(Scores(init, ps), p)
  {
    assert (ps + [p])[..|ps|] == ps;
  }

  /**
   * A stream of callbacks from an empty buffer is the stream of Feeds:
   * its buffer is Run's, it has called the classifier once per window of
   * Run, and its score is the fold of ScoreAfter over the predictions of
   * exactly Run's windows, in the order they formed.
   */
  lemma {:induction false} CallbacksRun<T, S>(init: Option<S>, frames: seq<seq<T>>, predict: (nat, seq<T>) -> Prediction<S>)
    ensures Callbacks(init, frames, predict)
         == (State(Run(frames).buffer, Scores(init, Predictions(Run(frames).windows, predict))), |Run(frames).windows|)
    decreases |frames|
  {
    if frames != [] {
      var init' := frames[..|frames| - 1];
      CallbacksRun(init, init', predict);
      var prev := Run(init');
      var step := Feed(prev.buffer, frames[|frames| - 1]);
      if step.window.Some? {
        PredictionsSnoc(prev.windows, step.window.value, predict);
        ScoresSnoc(init, Predictions(prev.windows, predict), predict(|prev.windows|, step.window.value));
      } else {
        assert prev.windows + [] == prev.windows;
      }
    }
  }

  /**
   * Fault isolation over a real stream: after any frames, the score is
   * output[0] of the latest window whose prediction was usable, however
   * many later windows' predictions threw (even on equal windows).
   */
  lemma StreamScoreIsLatestUsable<T, S>(init: Option<S>, frames: seq<seq<T>>,
                                        predict: (nat, seq<T>) -> Prediction<S>, i: int)
    requires 0 <= i < |Run(frames).windows| && Usable(predict(i, Run(frames).windows[i]))
    requires forall j :: i < j < |Run(frames).windows| ==> !Usable(predict(j, Run(frames).windows[j]))
    ensures Callbacks(init, frames, predict).0.score == Some(predict(i, Run(frames).windows[i]).output[0])
  {
    CallbacksRun(init, frames, predict);
    ScoreIsLatestUsable(init, Predictions(Run(frames).windows, predict), i);
  }

  /**
   * Stopping keeps the buffer, so a later session continues the old one.
   * After 44 uniform frames, 29 frames are buffered, so the first frame of
   * the next session already completes a window: 29 old frames and 1 new
   * one.
   */
  lemma NextSessionStartsFromOldBuffer<T>(frames: seq<seq<T>>, f: seq<T>)
    requires Uniform(frames) && |frames| == 44 && |f| == NumMfcc
    ensures |Run(frames).buffer| == 29 * NumMfcc
    ensures Feed(Run(frames).buffer, f).window == Some(Run(frames).buffer + f)
  {
    UniformBounds(frames);
    var appended := Run(frames).buffer + f;
    assert |appended| == WindowLen;
    var w := Feed(Run(frames).buffer, f).window.value;
    assert |w| == |appended| && w <= appended;
    assert w == appended;
  }

  // ---------------------------------------------------------------------
  // Scenario: 30 frames, frame k filled with the scalar k

  function ConstFrame(k: int): (f: seq<int>)
    ensures |f| == NumMfcc && forall i :: 0 <= i < |f| ==> f[i] == k
  {
    seq(NumMfcc, _ => k)
  }

  function Ramp(n: nat): (frames: seq<seq<int>>)
    ensures |frames| == n && Uniform(frames)
    ensures forall k :: 0 <= k < n ==> frames[k] == ConstFrame(k)
  {
    seq(n, k => ConstFrame(k))
  }

  /** Thirty frames form one window holding frames 0..29; frames 15..29 stay. */
  lemma ThirtyFramesOneWindow()
    ensures |Run(Ramp(30)).windows| == 1
    ensures Run(Ramp(30)).windows[0] == Flatten(Ramp(30))
    ensures Run(Ramp(30)).buffer == Flatten(Ramp(30)[15..])
  {
    RunUniform(Ramp(30));
    assert Ramp(30)[0..30] == Ramp(30);
  }
}
