/**
 * The session lifecycle of `startMicrophone` and `stopMicrophone`
 * (app.js, lines 50-89 and 123-139), reduced to the three nullable
 * handles and the external effects each call performs, in order.
 */
module Lifecycle {
  import opened Wrappers

  /** An opaque identifier of one track of the microphone stream. */
  type TrackId = nat

  /** The handles `meydaAnalyzer`, `audioContext` and `micStream` (with its tracks). */
  datatype Handles = Handles(analyzer: bool, audioContext: bool, micStream: Option<seq<TrackId>>)

  /** No handle held: the state before any start and after every stop. */
  const Released: Handles := Handles(false, false, None)

  /** What `getUserMedia` does: reject, or resolve with a stream of tracks. */
  datatype Grant = Denied | Granted(tracks: seq<TrackId>)

  /** External operations on the audio resources, in the order performed. */
  datatype Effect =
    | CreateContext              // new AudioContext()
    | AcquireMic(tracks: seq<TrackId>)  // getUserMedia resolved
    | StartAnalyzer              // Meyda analyzer created on the stream and started
    | StopAnalyzer               // meydaAnalyzer.stop()
    | CloseContext               // audioContext.close()
    | StopTrack(track: TrackId)  // track.stop() for one track of the stream

  /** Which way `startMicrophone` left. */
  datatype StartOutcome =
    | ModelNotLoaded    // alert: the model is not loaded yet
    | AlreadyStarted    // silent return: an audio context exists
    | PermissionDenied  // status text: microphone access failed
    | Started           // status text: recording

  datatype Transition = Transition(handles: Handles, effects: seq<Effect>)

  /** `startMicrophone`: the handles after it, the effects it performs, and how it left. */
  function Start(h: Handles, modelLoaded: bool, grant: Grant): (r: (Transition, StartOutcome))
    ensures !modelLoaded ==> r == (Transition(h, []), ModelNotLoaded)
    ensures modelLoaded && h.audioContext ==> r == (Transition(h, []), AlreadyStarted)
    ensures modelLoaded && !h.audioContext && grant.Denied? ==>
      r == (Transition(h.(audioContext := true), [CreateContext]), PermissionDenied)
    ensures modelLoaded && !h.audioContext && grant.Granted? ==>
      r == (Transition(Handles(true, true, Some(grant.tracks)),
                       [CreateContext, AcquireMic(grant.tracks), StartAnalyzer]), Started)
  {
    if !modelLoaded then (Transition(h, []), ModelNotLoaded)
    else if h.audioContext then (Transition(h, []), AlreadyStarted)
    else
      match grant
      case Denied => (Transition(h.(audioContext := true), [CreateContext]), PermissionDenied)
      case Granted(tracks) =>
        (Transition(Handles(true, true, Some(tracks)),
                    [CreateContext, AcquireMic(tracks), StartAnalyzer]), Started)
  }

  /** One StopTrack per track, in the stream's track order. */
  function TrackStops(tracks: seq<TrackId>): (es: seq<Effect>)
    ensures |es| == |tracks|
    ensures forall i :: 0 <= i < |es| ==> es[i] == StopTrack(tracks[i])
    decreases |tracks|
  {
    if tracks == [] then [] else TrackStops(tracks[..|tracks| - 1]) + [StopTrack(tracks[|tracks| - 1])]
  }

  /** What `stopMicrophone` releases: the analyzer, then the context, then the tracks. */
  function Releases(h: Handles): seq<Effect> {
    (if h.analyzer then [StopAnalyzer] else []) +
    (if h.audioContext then [CloseContext] else []) +
    (match h.micStream case Some(tracks) => TrackStops(tracks) case None => [])
  }

  /** `stopMicrophone`: every handle is released and nulled, whatever the state. */
  function Stop(h: Handles): (r: Transition)
    ensures r.handles == Released
    ensures r.effects == Releases(h)
  {
    Transition(Released, Releases(h))
  }

  /**
   * The states a session can be in between user actions: nothing held;
   * only an audio context (a start whose permission was denied); or
   * everything held.
   */
  predicate Consistent(h: Handles) {
    h == Released ||
    h == Released.(audioContext := true) ||
    (h.analyzer && h.audioContext && h.micStream.Some?)
  }

  /** A user action: a click on start (with the model flag and the permission outcome) or on stop. */
  datatype Request = StartRequest(modelLoaded: bool, grant: Grant) | StopRequest

  function Apply(h: Handles, q: Request): Transition {
    match q
    case StartRequest(loaded, grant) => Start(h, loaded, grant).0
    case StopRequest => Stop(h)
  }

  /** Handles and all effects after a sequence of user actions from page load. */
  function Replay(qs: seq<Request>): (r: Transition)
    decreases |qs|
  {
    if qs == [] then Transition(Released, [])
    else
      var prev := Replay(qs[..|qs| - 1]);
      var next := Apply(prev.handles, qs[|qs| - 1]);
      Transition(next.handles, prev.effects + next.effects)
  }

  /** Number of occurrences of e in es. */
  function Count(es: seq<Effect>, e: Effect): nat
    decreases |es|
  {
    if es == [] then 0 else Count(es[..|es| - 1], e) + (if es[|es| - 1] == e then 1 else 0)
  }

  lemma {:induction false} CountAppend(a: seq<Effect>, b: seq<Effect>, e: Effect)
    ensures Count(a + b, e) == Count(a, e) + Count(b, e)
    decreases |b|
  {
    if b == [] {
      assert a + b == a;
    } else {
      assert (a + b)[..|a + b| - 1] == a + b[..|b| - 1];
      CountAppend(a, b[..|b| - 1], e);
    }
  }

  lemma CountSingle(x: Effect)
    ensures forall e :: Count([x], e) == if x == e then 1 else 0
  {
    assert [x][..0] == [];
  }

  lemma {:induction false} CountTrackStops(tracks: seq<TrackId>, e: Effect)
    requires !e.StopTrack?
    ensures Count(TrackStops(tracks), e) == 0
    decreases |tracks|
  {
    if tracks != [] {
      var es := TrackStops(tracks);
      assert es[..|es| - 1] == TrackStops(tracks[..|tracks| - 1]);
      CountTrackStops(tracks[..|tracks| - 1], e);
    }
  }

  /** 1 while a handle is held, 0 otherwise. */
  function Held(b: bool): nat {
    if b then 1 else 0
  }

  /** A stop performs one release per held handle and acquires nothing. */
  lemma ReleaseCounts(h: Handles)
    ensures Count(Releases(h), CreateContext) == 0 && Count(Releases(h), StartAnalyzer) == 0
    ensures Count(Releases(h), CloseContext) == Held(h.audioContext)
    ensures Count(Releases(h), StopAnalyzer) == Held(h.analyzer)
  {
    var first := if h.analyzer then [StopAnalyzer] else [];
    var second := if h.audioContext then [CloseContext] else [];
    var rest := match h.micStream case Some(tracks) => TrackStops(tracks) case None => [];
    assert Releases(h) == first + second + rest;
    CountAppend(first + second, rest, CreateContext);
    CountAppend(first + second, rest, StartAnalyzer);
    CountAppend(first + second, rest, CloseContext);
    CountAppend(first + second, rest, StopAnalyzer);
    CountAppend(first, second, CreateContext);
    CountAppend(first, second, StartAnalyzer);
    CountAppend(first, second, CloseContext);
    CountAppend(first, second, StopAnalyzer);
    CountSingle(StopAnalyzer);
    CountSingle(CloseContext);
    if h.micStream.Some? {
      CountTrackStops(h.micStream.value, CreateContext);
      CountTrackStops(h.micStream.value, StartAnalyzer);
      CountTrackStops(h.micStream.value, CloseContext);
      CountTrackStops(h.micStream.value, StopAnalyzer);
    }
  }

  /** One user action keeps the session consistent and balances acquisitions with releases. */
  lemma ApplyBalanced(h: Handles, q: Request)
    requires Consistent(h)
    ensures var next := Apply(h, q);
      Consistent(next.handles) &&
      Held(h.audioContext) + Count(next.effects, CreateContext) ==
        Count(next.effects, CloseContext) + Held(next.handles.audioContext) &&
      Held(h.analyzer) + Count(next.effects, StartAnalyzer) ==
        Count(next.effects, StopAnalyzer) + Held(next.handles.analyzer)
  {
    match q
    case StopRequest => ReleaseCounts(h);
    case StartRequest(loaded, grant) =>
      var es := Start(h, loaded, grant).0.effects;
      CountSingle(CreateContext);
      if loaded && !h.audioContext && grant.Granted? {
        var a := [CreateContext, AcquireMic(grant.tracks)];
        assert es == a + [StartAnalyzer];
        assert a == [CreateContext] + [AcquireMic(grant.tracks)];
        CountSingle(AcquireMic(grant.tracks));
        CountSingle(StartAnalyzer);
        forall e | e in [CreateContext, StartAnalyzer, CloseContext, StopAnalyzer]
          ensures Count(es, e) == Count([CreateContext], e) + Count([AcquireMic(grant.tracks)], e)
                                  + Count([StartAnalyzer], e)
        {
          CountAppend(a, [StartAnalyzer], e);
          CountAppend([CreateContext], [AcquireMic(grant.tracks)], e);
        }
      }
  }

  /**
   * Every sequence of user actions keeps the session consistent and pairs
   * each acquisition with at most one release: the contexts created exceed
   * those closed by one exactly while a context is held, and likewise for
   * the analyzer.
   */
  lemma {:induction false} ReplayBalanced(qs: seq<Request>)
    ensures var r := Replay(qs);
      Consistent(r.handles) &&
      Count(r.effects, CreateContext) == Count(r.effects, CloseContext) + Held(r.handles.audioContext) &&
      Count(r.effects, StartAnalyzer) == Count(r.effects, StopAnalyzer) + Held(r.handles.analyzer)
    decreases |qs|
  {
    if qs != [] {
      ReplayBalanced(qs[..|qs| - 1]);
      var prev := Replay(qs[..|qs| - 1]);
      var next := Apply(prev.handles, qs[|qs| - 1]);
      ApplyBalanced(prev.handles, qs[|qs| - 1]);
      CountAppend(prev.effects, next.effects, CreateContext);
      CountAppend(prev.effects, next.effects, CloseContext);
      CountAppend(prev.effects, next.effects, StartAnalyzer);
      CountAppend(prev.effects, next.effects, StopAnalyzer);
    }
  }

  /**
   * A start on a held context, or without the model, acquires nothing and
   * changes nothing: the first two postconditions of Start, restated as
   * one corollary.
   */
  lemma StartGuards(h: Handles, modelLoaded: bool, grant: Grant)
    requires !modelLoaded || h.audioContext
    ensures Start(h, modelLoaded, grant).0 == Transition(h, [])
  {
  }

  /** Two starts in a row acquire the resources once: the second returns at the guard. */
  lemma StartTwiceAcquiresOnce(h: Handles, g1: Grant, g2: Grant)
    ensures var first := Start(h, true, g1).0;
      Start(first.handles, true, g2) == (Transition(first.handles, []), AlreadyStarted)
  {
  }

  /**
   * After a denied permission the context stays held, so every later start
   * returns at the guard until a stop, which closes that context.
   */
  lemma DeniedStartBlocksUntilStop(g: Grant)
    ensures var denied := Start(Released, true, Denied).0.handles;
      denied == Handles(false, true, None) &&
      Start(denied, true, g).1 == AlreadyStarted &&
      Stop(denied).effects == [CloseContext] &&
      Start(Stop(denied).handles, true, g).1 != AlreadyStarted
  {
  }

  /** A second stop releases nothing; a stop with nothing held releases nothing. */
  lemma StopIdempotent(h: Handles)
    ensures Stop(Stop(h).handles) == Transition(Released, [])
    ensures Stop(Released).effects == []
  {
  }

  /**
   * Order of a stop after a successful start: the analyzer stops first,
   * then the context closes, then each track stops in order.
   */
  lemma StopAfterStartOrder(tracks: seq<TrackId>)
    ensures var started := Start(Released, true, Granted(tracks)).0.handles;
      Stop(started).effects == [StopAnalyzer, CloseContext] + TrackStops(tracks)
  {
  }
}
