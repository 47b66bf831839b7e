/** The speed and distance estimator: walks every analysed object class of a track
    store in windows of `frameWindow` frames, accumulates per-track distances and
    speed samples, and writes each window's speed and cumulative distance back
    into the track records; then summarises the accumulators as export rows. */
module Estimator {
  import opened Tracks
  import opened Windows
  import opened Measurement
  import opened Summary

  /** How `add_speed_and_distance_to_tracks` ends: normally, or by the
      `ZeroDivisionError` raised while analysing class `objectName`. */
  datatype Outcome = Completed | ZeroDivisionError(objectName: string)

  /** The classes the estimator analyses: every class but the ball and the referees. */
  predicate Analyzed(c: string)
  {
    c != "ball" && c != "referees"
  }

  /** Class `c` has the same entry (or the same absence) in `m0` and `m`. */
  ghost predicate Agree<V>(m0: map<string, V>, m: map<string, V>, c: string)
  {
    (c in m0 <==> c in m) && (c in m0 ==> m0[c] == m[c])
  }

  /** Only the entry of class `c` may differ between `m0` and `m`. */
  ghost predicate OnlyClassChanged<V>(m0: map<string, V>, m: map<string, V>, c: string)
  {
    forall d :: d != c ==> Agree(m0, m, d)
  }

  lemma OnlyClassChangedTrans<V>(m0: map<string, V>, m1: map<string, V>, m2: map<string, V>, c: string)
    requires OnlyClassChanged(m0, m1, c) && OnlyClassChanged(m1, m2, c)
    ensures OnlyClassChanged(m0, m2, c)
  {
    forall d | d != c
      ensures Agree(m0, m2, d)
    {
      assert Agree(m0, m1, d) && Agree(m1, m2, d);
    }
  }

  /** Adding a distance and a sample to one track keeps the accumulators consistent. */
  lemma ConsistentUpdate(T: Totals, S: Samples,
                         c: string, x: int, distance: real, speed: real)
    requires Consistent(T, S)
    ensures var t, s := Lookup(T, c, map[]), Lookup(S, c, map[]);
      Consistent(T[c := t[x := Lookup(t, x, 0.0) + distance]], S[c := s[x := Lookup(s, x, []) + [speed]]])
  {
  }

  /** Class `c` after all its windows have been applied to accumulators `T0`, `S0`
      and frames `F0`. */
  ghost predicate ObjectAnalyzed(T0: Totals, S0: Samples,
                                 T: Totals, S: Samples,
                                 c: string, F0: seq<Frame>, F: seq<Frame>, cfg: Config)
    requires ValidConfig(cfg)
  {
    var n := NumWindows(|F0|, cfg.frameWindow);
    TalliesAfter(T0, S0, T, S, c, F0, cfg, n, {}) && FramesAfter(F0, F, Lookup(T0, c, map[]), cfg, n, {})
  }

  /** `ObjectAnalyzed` depends on the accumulators only through class `c`'s entries. */
  lemma ObjectAnalyzedTransfer(T0: Totals, S0: Samples,
                               T1: Totals, S1: Samples,
                               T0': Totals, S0': Samples,
                               T1': Totals, S1': Samples,
                               c: string, F0: seq<Frame>, F: seq<Frame>, cfg: Config)
    requires ValidConfig(cfg)
    requires Agree(T0, T0', c) && Agree(S0, S0', c) && Agree(T1, T1', c) && Agree(S1, S1', c)
    requires ObjectAnalyzed(T0, S0, T1, S1, c, F0, F, cfg)
    ensures ObjectAnalyzed(T0', S0', T1', S1', c, F0, F, cfg)
  {
    assert Lookup(T0, c, map[]) == Lookup(T0', c, map[]) && Lookup(S0, c, map[]) == Lookup(S0', c, map[]);
    assert Lookup(T1, c, map[]) == Lookup(T1', c, map[]) && Lookup(S1, c, map[]) == Lookup(S1', c, map[]);
  }

  /** No window before window `k` of the frames `F0` divides by zero. */
  ghost predicate WindowsPassed(F0: seq<Frame>, cfg: Config, k: nat)
    requires ValidConfig(cfg)
  {
    forall w: nat, x :: w < k && w * cfg.frameWindow < |F0| ==> !Measure(F0, cfg, w, x).DivisionByZero?
  }

  /** When the window loop runs past the last frame without raising, the class has
      no division fault and every window has been applied. */
  lemma WindowsFinished(T0: Totals, S0: Samples, T: Totals, S: Samples, c: string, F0: seq<Frame>, F: seq<Frame>,
                        cfg: Config, k: nat)
    requires ValidConfig(cfg) && WindowsPassed(F0, cfg, k)
    requires k * cfg.frameWindow >= |F0| && (k == 0 || (k - 1) * cfg.frameWindow < |F0|)
    requires TalliesAfter(T0, S0, T, S, c, F0, cfg, k, {}) && FramesAfter(F0, F, Lookup(T0, c, map[]), cfg, k, {})
    ensures !DivisionFault(F0, cfg.frameWindow)
    ensures ObjectAnalyzed(T0, S0, T, S, c, F0, F, cfg)
  {
    var n := |F0|;
    WindowCount(k, n, cfg.frameWindow);
    DivisionFaultIff(F0, cfg);
    forall w: nat, x | w * cfg.frameWindow < n
      ensures !Measure(F0, cfg, w, x).DivisionByZero?
    {
      WindowExists(w, n, cfg.frameWindow);
    }
  }

  /** When window `k` divides by zero for some track, the class has a division
      fault, and window `k` was the last one. */
  lemma WindowFaulted(T0: Totals, S0: Samples, T: Totals, S: Samples, c: string, F0: seq<Frame>, F: seq<Frame>,
                      cfg: Config, k: nat, x: int)
    requires ValidConfig(cfg) && k * cfg.frameWindow < |F0|
    requires Measure(F0, cfg, k, x).DivisionByZero?
    requires TalliesAfter(T0, S0, T, S, c, F0, cfg, k + 1, {}) && FramesAfter(F0, F, Lookup(T0, c, map[]), cfg, k + 1, {})
    ensures k + 1 == NumWindows(|F0|, cfg.frameWindow)
    ensures DivisionFault(F0, cfg.frameWindow)
    ensures ObjectAnalyzed(T0, S0, T, S, c, F0, F, cfg)
  {
    DivisionFaultIff(F0, cfg);
    EmptyWindowMeasuresNothing(F0, cfg, k, x);
  }

  /** How many classes of `objects` the pass reached: all of them, or up to and
      including the one that raised. */
  function Reached(objects: seq<string>, outcome: Outcome): (r: nat)
    ensures r <= |objects|
  {
    if outcome.ZeroDivisionError? && outcome.objectName in objects then IndexOf(objects, outcome.objectName) + 1
    else |objects|
  }

  /** Class `c` was analysed by a pass that ended with `outcome`. */
  ghost predicate Processed(objects: seq<string>, outcome: Outcome, c: string)
  {
    Analyzed(c) && c in objects[..Reached(objects, outcome)]
  }

  /** Some element of a non-empty set. */
  ghost function PickOne<T>(s: set<T>): (e: T)
    requires s != {}
  {
    var e :| e in s; e
  }

  /** What a pass over the classes `objects` of the store `F0` promises, starting
      from accumulators `T0`, `S0` and ending in `T`, `S`, `F` with `outcome`: it
      completes exactly when no analysed class has a division fault; when it
      raises, it does so on an analysed class with a fault and every analysed class
      before it has none; every class it reached and analysed is as
      `ObjectAnalyzed` says and every other class is untouched. */
  ghost predicate PassOutcome(objects: seq<string>, F0: Store, T0: Totals, S0: Samples,
                              T: Totals, S: Samples, F: Store, outcome: Outcome, cfg: Config)
    requires ValidConfig(cfg) && forall c :: c in objects ==> c in F0
  {
    && (outcome.Completed? <==> forall c :: c in objects && Analyzed(c) ==> !DivisionFault(F0[c], cfg.frameWindow))
    && (outcome.ZeroDivisionError? ==>
          var c := outcome.objectName;
          && c in objects && Analyzed(c) && DivisionFault(F0[c], cfg.frameWindow)
          && forall j :: 0 <= j < IndexOf(objects, c) && Analyzed(objects[j]) ==> !DivisionFault(F0[objects[j]], cfg.frameWindow))
    && (forall c :: Processed(objects, outcome, c) ==> c in F && ObjectAnalyzed(T0, S0, T, S, c, F0[c], F[c], cfg))
    && (forall c :: !Processed(objects, outcome, c) ==> Agree(T0, T, c) && Agree(S0, S, c) && Agree(F0, F, c))
  }

  /** The ball and the referees are never analysed: a pass leaves their accumulator
      entries and their frames exactly as they were. */
  lemma BallAndRefereesUntouched(objects: seq<string>, F0: Store, T0: Totals, S0: Samples,
                                 T: Totals, S: Samples, F: Store, outcome: Outcome, cfg: Config)
    requires ValidConfig(cfg) && forall c :: c in objects ==> c in F0
    requires PassOutcome(objects, F0, T0, S0, T, S, F, outcome, cfg)
    ensures forall c :: c == "ball" || c == "referees" ==> Agree(T0, T, c) && Agree(S0, S, c) && Agree(F0, F, c)
  {
    forall c | c == "ball" || c == "referees"
      ensures Agree(T0, T, c) && Agree(S0, S, c) && Agree(F0, F, c)
    {
      assert !Processed(objects, outcome, c);
    }
  }

  /** The state of the pass once the classes in `done` have been analysed: those
      are as `ObjectAnalyzed` says, every other class is untouched. */
  ghost predicate Progress(T0: Totals, S0: Samples, F0: Store, T: Totals, S: Samples, F: Store, done: set<string>, cfg: Config)
    requires ValidConfig(cfg)
  {
    && (forall c :: c in done ==> c in F0 && c in F && ObjectAnalyzed(T0, S0, T, S, c, F0[c], F[c], cfg))
    && (forall c :: c !in done ==> Agree(T0, T, c) && Agree(S0, S, c) && Agree(F0, F, c))
  }

  /** Analysing one more class `c`, changing only its entries, extends `done` by `c`. */
  lemma ProgressStep(T0: Totals, S0: Samples, F0: Store, Tb: Totals, Sb: Samples, Fb: Store,
                     T: Totals, S: Samples, F: Store, done: set<string>, c: string, cfg: Config)
    requires ValidConfig(cfg) && Progress(T0, S0, F0, Tb, Sb, Fb, done, cfg)
    requires c !in done && c in Fb && c in F
    requires OnlyClassChanged(Tb, T, c) && OnlyClassChanged(Sb, S, c) && OnlyClassChanged(Fb, F, c)
    requires ObjectAnalyzed(Tb, Sb, T, S, c, Fb[c], F[c], cfg)
    ensures Progress(T0, S0, F0, T, S, F, done + {c}, cfg)
  {
    assert Agree(T0, Tb, c) && Agree(S0, Sb, c) && Agree(F0, Fb, c);
    forall d | d in done + {c}
      ensures d in F0 && d in F && ObjectAnalyzed(T0, S0, T, S, d, F0[d], F[d], cfg)
    {
      if d == c {
        ObjectAnalyzedTransfer(Tb, Sb, T, S, T0, S0, T, S, d, F0[d], F[d], cfg);
      } else {
        assert Agree(Tb, T, d) && Agree(Sb, S, d) && Agree(Fb, F, d);
        ObjectAnalyzedTransfer(T0, S0, Tb, Sb, T0, S0, T, S, d, F0[d], F[d], cfg);
      }
    }
    forall d | d !in done + {c}
      ensures Agree(T0, T, d) && Agree(S0, S, d) && Agree(F0, F, d)
    {
      assert Agree(T0, Tb, d) && Agree(S0, Sb, d) && Agree(F0, Fb, d);
      assert Agree(Tb, T, d) && Agree(Sb, S, d) && Agree(Fb, F, d);
    }
  }

  /** The pass after the first `i` classes: none of the analysed ones had a fault,
      and `done` holds exactly the analysed ones. */
  ghost predicate PassInvariant(objects: seq<string>, F0: Store, T0: Totals, S0: Samples,
                                T: Totals, S: Samples, F: Store, i: nat, done: set<string>, cfg: Config)
    requires ValidConfig(cfg)
  {
    && i <= |objects| && (forall c :: c in objects ==> c in F0)
    && (forall j :: 0 <= j < i && Analyzed(objects[j]) ==> !DivisionFault(F0[objects[j]], cfg.frameWindow))
    && (forall c :: c in done <==> Analyzed(c) && c in objects[..i])
    && Progress(T0, S0, F0, T, S, F, done, cfg)
  }

  lemma PassStart(objects: seq<string>, F0: Store, T0: Totals, S0: Samples, cfg: Config)
    requires ValidConfig(cfg) && forall c :: c in objects ==> c in F0
    ensures PassInvariant(objects, F0, T0, S0, T0, S0, F0, 0, {}, cfg)
  {
  }

  /** The ball and the referees are passed over. */
  lemma PassSkip(objects: seq<string>, F0: Store, T0: Totals, S0: Samples, T: Totals, S: Samples, F: Store,
                 i: nat, done: set<string>, cfg: Config)
    requires ValidConfig(cfg) && PassInvariant(objects, F0, T0, S0, T, S, F, i, done, cfg)
    requires i < |objects| && !Analyzed(objects[i])
    ensures PassInvariant(objects, F0, T0, S0, T, S, F, i + 1, done, cfg)
  {
    assert objects[..i + 1] == objects[..i] + [objects[i]];
  }

  /** Analysing class `objects[i]`, which only changes that class's entries,
      extends the pass by that class. */
  lemma PassAnalyzed(objects: seq<string>, F0: Store, T0: Totals, S0: Samples, Tb: Totals, Sb: Samples, Fb: Store,
                     T: Totals, S: Samples, F: Store, i: nat, done: set<string>, cfg: Config)
    requires ValidConfig(cfg) && Distinct(objects) && PassInvariant(objects, F0, T0, S0, Tb, Sb, Fb, i, done, cfg)
    requires i < |objects| && Analyzed(objects[i]) && objects[i] in Fb && objects[i] in F
    requires OnlyClassChanged(Tb, T, objects[i]) && OnlyClassChanged(Sb, S, objects[i]) && OnlyClassChanged(Fb, F, objects[i])
    requires ObjectAnalyzed(Tb, Sb, T, S, objects[i], Fb[objects[i]], F[objects[i]], cfg)
    ensures objects[i] in F0 && F0[objects[i]] == Fb[objects[i]]
    ensures Progress(T0, S0, F0, T, S, F, done + {objects[i]}, cfg)
  {
    var c := objects[i];
    assert c !in done by {
      IndexOfDistinct(objects, i);
    }
    ProgressStep(T0, S0, F0, Tb, Sb, Fb, T, S, F, done, c, cfg);
  }

  /** A class without a fault lets the pass go on to the next class. */
  lemma PassNext(objects: seq<string>, F0: Store, T0: Totals, S0: Samples, Tb: Totals, Sb: Samples, Fb: Store,
                 T: Totals, S: Samples, F: Store, i: nat, done: set<string>, cfg: Config)
    requires ValidConfig(cfg) && PassInvariant(objects, F0, T0, S0, Tb, Sb, Fb, i, done, cfg)
    requires i < |objects| && Analyzed(objects[i]) && objects[i] in F0 && !DivisionFault(F0[objects[i]], cfg.frameWindow)
    requires Progress(T0, S0, F0, T, S, F, done + {objects[i]}, cfg)
    ensures PassInvariant(objects, F0, T0, S0, T, S, F, i + 1, done + {objects[i]}, cfg)
  {
    assert objects[..i + 1] == objects[..i] + [objects[i]];
  }

  /** A class with a fault ends the pass with `ZeroDivisionError`. */
  lemma PassFault(objects: seq<string>, F0: Store, T0: Totals, S0: Samples, Tb: Totals, Sb: Samples, Fb: Store,
                  T: Totals, S: Samples, F: Store, i: nat, done: set<string>, cfg: Config)
    requires ValidConfig(cfg) && Distinct(objects) && PassInvariant(objects, F0, T0, S0, Tb, Sb, Fb, i, done, cfg)
    requires i < |objects| && Analyzed(objects[i]) && objects[i] in F0 && DivisionFault(F0[objects[i]], cfg.frameWindow)
    requires Progress(T0, S0, F0, T, S, F, done + {objects[i]}, cfg)
    ensures PassOutcome(objects, F0, T0, S0, T, S, F, ZeroDivisionError(objects[i]), cfg)
  {
    var outcome := ZeroDivisionError(objects[i]);
    IndexOfDistinct(objects, i);
    assert objects[..i + 1] == objects[..i] + [objects[i]];
    assert forall c :: c in done + {objects[i]} <==> Processed(objects, outcome, c);
  }

  /** A pass through every class completes. */
  lemma PassComplete(objects: seq<string>, F0: Store, T0: Totals, S0: Samples,
                     T: Totals, S: Samples, F: Store, done: set<string>, cfg: Config)
    requires ValidConfig(cfg) && PassInvariant(objects, F0, T0, S0, T, S, F, |objects|, done, cfg)
    ensures PassOutcome(objects, F0, T0, S0, T, S, F, Completed, cfg)
  {
    assert objects[..|objects|] == objects;
    forall c | c in objects && Analyzed(c)
      ensures !DivisionFault(F0[c], cfg.frameWindow)
    {
      var j :| 0 <= j < |objects| && objects[j] == c;
    }
    assert forall c :: c in done <==> Processed(objects, Completed, c);
  }

  class SpeedAndDistanceEstimator {
    const frameWindow: nat
    const frameRate: nat
    /** class -> track id -> cumulative distance in metres */
    var totalDistance: Totals
    /** class -> track id -> every speed measured, in km/h, in window order */
    var speedData: Samples

    ghost predicate Valid()
      reads this
    {
      frameWindow > 0 && frameRate > 0 && Consistent(totalDistance, speedData)
    }

    /** The window length, the frame rate and the ground-plane distance function. */
    function Settings(measure: (Position, Position) -> real): (cfg: Config)
    {
      Config(frameWindow, frameRate, measure)
    }

    constructor ()
      ensures Valid()
      ensures frameWindow == 5 && frameRate == 24
      ensures totalDistance == map[] && speedData == map[]
    {
      frameWindow := 5;
      frameRate := 24;
      totalDistance := map[];
      speedData := map[];
    }

    /** `add_speed_and_distance_to_tracks`: analyses every class of `tracks` in key
        order except the ball and the referees. A class whose last window is empty
        while some track has a position in its last frame raises
        `ZeroDivisionError`; the classes before it and that class itself have then
        been fully applied and the later classes are untouched. */
    method AddSpeedAndDistanceToTracks(tracks: TrackStore, measure: (Position, Position) -> real)
      returns (outcome: Outcome)
      requires Valid() && tracks.Valid()
      modifies this, tracks
      ensures Valid() && tracks.Valid()
      ensures tracks.objects == old(tracks.objects) && tracks.frames.Keys == old(tracks.frames.Keys)
      ensures PassOutcome(old(tracks.objects), old(tracks.frames), old(totalDistance), old(speedData),
                          totalDistance, speedData, tracks.frames, outcome, Settings(measure))
    {
      ghost var objects, T0, S0, F0 := tracks.objects, totalDistance, speedData, tracks.frames;
      var cfg := Settings(measure);
      ghost var done: set<string> := {};
      PassStart(objects, F0, T0, S0, cfg);
      var i := 0;
      while i < |tracks.objects|
        invariant Valid() && tracks.Valid() && tracks.objects == objects && tracks.frames.Keys == F0.Keys
        invariant PassInvariant(objects, F0, T0, S0, totalDistance, speedData, tracks.frames, i, done, cfg)
        decreases |objects| - i
      {
        var c := tracks.objects[i];
        if c == "ball" || c == "referees" {
          PassSkip(objects, F0, T0, S0, totalDistance, speedData, tracks.frames, i, done, cfg);
          i := i + 1;
          continue;
        }
        ghost var Tb, Sb, Fb := totalDistance, speedData, tracks.frames;
        var ok := AnalyzeObject(tracks, c, measure);
        PassAnalyzed(objects, F0, T0, S0, Tb, Sb, Fb, totalDistance, speedData, tracks.frames, i, done, cfg);
        if !ok {
          outcome := ZeroDivisionError(c);
          PassFault(objects, F0, T0, S0, Tb, Sb, Fb, totalDistance, speedData, tracks.frames, i, done, cfg);
          return;
        }
        PassNext(objects, F0, T0, S0, Tb, Sb, Fb, totalDistance, speedData, tracks.frames, i, done, cfg);
        done := done + {c};
        i := i + 1;
      }
      outcome := Completed;
      PassComplete(objects, F0, T0, S0, totalDistance, speedData, tracks.frames, done, cfg);
    }

    /** The body of the class loop for one class `c`: `for frame_num in range(0,
        number_of_frames, frame_window)`. It ends normally exactly when the class has
        no empty window with a positioned track in it, and in both cases all its
        windows have been applied (an empty window measures nothing). */
    method AnalyzeObject(tracks: TrackStore, c: string, measure: (Position, Position) -> real) returns (ok: bool)
      requires Valid() && tracks.Valid() && c in tracks.frames
      modifies this, tracks
      ensures Valid() && tracks.Valid() && tracks.objects == old(tracks.objects) && tracks.frames.Keys == old(tracks.frames.Keys)
      ensures OnlyClassChanged(old(totalDistance), totalDistance, c) && OnlyClassChanged(old(speedData), speedData, c)
      ensures OnlyClassChanged(old(tracks.frames), tracks.frames, c)
      ensures ok <==> !DivisionFault(old(tracks.frames)[c], frameWindow)
      ensures ObjectAnalyzed(old(totalDistance), old(speedData), totalDistance, speedData, c,
                             old(tracks.frames)[c], tracks.frames[c], Settings(measure))
    {
      ghost var T0, S0, F0 := totalDistance, speedData, tracks.frames[c];
      ghost var frames0 := tracks.frames;
      var cfg := Settings(measure);
      var n := |tracks.frames[c]|;
      TalliesStart(T0, S0, c, F0, cfg);
      FramesStart(F0, Lookup(T0, c, map[]), cfg);
      var start := 0;
      ghost var k: nat := 0;
      while start < n
        invariant start == k * frameWindow
        invariant k == 0 || (k - 1) * frameWindow < n
        invariant Valid() && tracks.Valid() && tracks.objects == old(tracks.objects) && tracks.frames.Keys == frames0.Keys
        invariant OnlyClassChanged(T0, totalDistance, c) && OnlyClassChanged(S0, speedData, c)
        invariant OnlyClassChanged(frames0, tracks.frames, c)
        invariant TalliesAfter(T0, S0, totalDistance, speedData, c, F0, cfg, k, {})
        invariant FramesAfter(F0, tracks.frames[c], Lookup(T0, c, map[]), cfg, k, {})
        invariant WindowsPassed(F0, cfg, k)
        decreases n - start
      {
        var end := if start + frameWindow < n - 1 then start + frameWindow else n - 1;
        ghost var Tb, Sb, Fb := totalDistance, speedData, tracks.frames;
        ok := AnalyzeWindow(tracks, c, start, end, measure, k, T0, S0, F0);
        OnlyClassChangedTrans(T0, Tb, totalDistance, c);
        OnlyClassChangedTrans(S0, Sb, speedData, c);
        OnlyClassChangedTrans(frames0, Fb, tracks.frames, c);
        if !ok {
          ghost var x :| Measure(F0, cfg, k, x).DivisionByZero?;
          WindowFaulted(T0, S0, totalDistance, speedData, c, F0, tracks.frames[c], cfg, k, x);
          return;
        }
        NextStart(k, frameWindow);
        start := start + frameWindow;
        k := k + 1;
      }
      WindowsFinished(T0, S0, totalDistance, speedData, c, F0, tracks.frames[c], cfg, k);
      ok := true;
    }

    /** One window `[start, end]` of class `c`: every track id of the start frame in
        turn. It ends normally exactly when no track divides by zero; an empty window
        raises before changing anything. */
    method AnalyzeWindow(tracks: TrackStore, c: string, start: nat, end: nat, measure: (Position, Position) -> real,
                         ghost k: nat, ghost T0: Totals, ghost S0: Samples,
                         ghost F0: seq<Frame>)
      returns (ok: bool)
      requires Valid() && tracks.Valid() && c in tracks.frames && Consistent(T0, S0)
      requires start == k * frameWindow && start < |F0| && end == WindowEnd(start, |F0|, frameWindow)
      requires TalliesAfter(T0, S0, totalDistance, speedData, c, F0, Settings(measure), k, {})
      requires FramesAfter(F0, tracks.frames[c], Lookup(T0, c, map[]), Settings(measure), k, {})
      modifies this, tracks
      ensures Valid() && tracks.Valid() && tracks.objects == old(tracks.objects) && tracks.frames.Keys == old(tracks.frames.Keys)
      ensures OnlyClassChanged(old(totalDistance), totalDistance, c) && OnlyClassChanged(old(speedData), speedData, c)
      ensures OnlyClassChanged(old(tracks.frames), tracks.frames, c)
      ensures ok <==> forall x :: !Measure(F0, Settings(measure), k, x).DivisionByZero?
      ensures !ok ==> end == start
      ensures TalliesAfter(T0, S0, totalDistance, speedData, c, F0, Settings(measure), k + 1, {})
      ensures FramesAfter(F0, tracks.frames[c], Lookup(T0, c, map[]), Settings(measure), k + 1, {})
    {
      var cfg := Settings(measure);
      ghost var frames0 := tracks.frames;
      ghost var done: set<int> := {};
      var ids := tracks.frames[c][start].Keys;
      assert ids == F0[start].Keys by {
        assert tracks.frames[c][start].Keys == F0[start].Keys;
      }
      while ids != {}
        invariant ids + done == F0[start].Keys && ids !! done
        invariant Valid() && tracks.Valid() && tracks.objects == old(tracks.objects) && tracks.frames.Keys == frames0.Keys
        invariant c in tracks.frames
        invariant OnlyClassChanged(old(totalDistance), totalDistance, c) && OnlyClassChanged(old(speedData), speedData, c)
        invariant OnlyClassChanged(frames0, tracks.frames, c)
        invariant TalliesAfter(T0, S0, totalDistance, speedData, c, F0, cfg, k, done)
        invariant FramesAfter(F0, tracks.frames[c], Lookup(T0, c, map[]), cfg, k, done)
        invariant forall x :: x in done ==> !Measure(F0, cfg, k, x).DivisionByZero?
        decreases ids
      {
        assert exists y :: y in ids by {
          var y := PickOne(ids);
        }
        var x :| x in ids;
        ghost var Tb, Sb, Fb := totalDistance, speedData, tracks.frames;
        ok := AnalyzeTrack(tracks, c, start, end, x, measure, k, done, T0, S0, F0);
        OnlyClassChangedTrans(old(totalDistance), Tb, totalDistance, c);
        OnlyClassChangedTrans(old(speedData), Sb, speedData, c);
        OnlyClassChangedTrans(frames0, Fb, tracks.frames, c);
        if !ok {
          forall y
            ensures !Measure(F0, cfg, k, y).Measured?
          {
            EmptyWindowMeasuresNothing(F0, cfg, k, y);
          }
          Advance(T0, S0, totalDistance, speedData, c, F0, tracks.frames[c], cfg, k, done);
          return;
        }
        ids := ids - {x};
        done := done + {x};
      }
      Advance(T0, S0, totalDistance, speedData, c, F0, tracks.frames[c], cfg, k, done);
      ok := true;
    }

    /** The body of the track loop for track `x` in window `[start, end]` of class
        `c`: skip the track unless it is present with a position at both ends;
        otherwise measure the distance, divide by the elapsed time (raising on an
        empty window), add the distance and the speed to the accumulators and write
        both back into the records of frames `[start, end)`. */
    method AnalyzeTrack(tracks: TrackStore, c: string, start: nat, end: nat, x: int,
                        measure: (Position, Position) -> real, ghost k: nat, ghost done: set<int>,
                        ghost T0: Totals, ghost S0: Samples,
                        ghost F0: seq<Frame>)
      returns (ok: bool)
      requires Valid() && tracks.Valid() && c in tracks.frames && Consistent(T0, S0)
      requires start == k * frameWindow && start < |F0| && end == WindowEnd(start, |F0|, frameWindow)
      requires x in F0[start] && x !in done
      requires TalliesAfter(T0, S0, totalDistance, speedData, c, F0, Settings(measure), k, done)
      requires FramesAfter(F0, tracks.frames[c], Lookup(T0, c, map[]), Settings(measure), k, done)
      modifies this, tracks
      ensures Valid() && tracks.Valid() && tracks.objects == old(tracks.objects) && tracks.frames.Keys == old(tracks.frames.Keys)
      ensures OnlyClassChanged(old(totalDistance), totalDistance, c) && OnlyClassChanged(old(speedData), speedData, c)
      ensures OnlyClassChanged(old(tracks.frames), tracks.frames, c)
      ensures ok <==> !Measure(F0, Settings(measure), k, x).DivisionByZero?
      ensures ok ==> TalliesAfter(T0, S0, totalDistance, speedData, c, F0, Settings(measure), k, done + {x})
      ensures ok ==> FramesAfter(F0, tracks.frames[c], Lookup(T0, c, map[]), Settings(measure), k, done + {x})
      ensures !Measure(F0, Settings(measure), k, x).Measured? ==>
        totalDistance == old(totalDistance) && speedData == old(speedData) && tracks.frames == old(tracks.frames)
    {
      var cfg := Settings(measure);
      ghost var F := tracks.frames[c];
      ghost var base := Lookup(T0, c, map[]);
      FramesAfterShape(F0, F, base, cfg, k, done, start, x);
      FramesAfterShape(F0, F, base, cfg, k, done, end, x);
      if x !in tracks.frames[c][end] {
        SkipStep(T0, S0, totalDistance, speedData, c, F0, cfg, k, done, x);
        FramesSkipStep(F0, F, base, cfg, k, done, x);
        return true;
      }
      var startPosition := tracks.frames[c][start][x].position;
      var endPosition := tracks.frames[c][end][x].position;
      if startPosition.None? || endPosition.None? {
        SkipStep(T0, S0, totalDistance, speedData, c, F0, cfg, k, done, x);
        FramesSkipStep(F0, F, base, cfg, k, done, x);
        return true;
      }
      var distanceCovered := measure(startPosition.value, endPosition.value);
      if end == start {
        // time_elapsed is 0: the division raises ZeroDivisionError
        return false;
      }
      var speedKmh := SpeedKmh(distanceCovered, end - start, frameRate);
      assert Measure(F0, cfg, k, x) == Measured(Reading(distanceCovered, speedKmh));
      ApplyReading(tracks, c, start, end, x, distanceCovered, speedKmh, measure, k, done, T0, S0, F0);
      ok := true;
    }

    /** A measured window for track `x`: the distance and the speed go into the
        accumulators, then the speed and the new cumulative distance into the
        track's records of frames `[start, end)`. */
    method ApplyReading(tracks: TrackStore, c: string, start: nat, end: nat, x: int, distance: real, speed: real,
                        measure: (Position, Position) -> real, ghost k: nat, ghost done: set<int>,
                        ghost T0: Totals, ghost S0: Samples,
                        ghost F0: seq<Frame>)
      requires Valid() && tracks.Valid() && c in tracks.frames && Consistent(T0, S0)
      requires start == k * frameWindow && start < |F0| && end == WindowEnd(start, |F0|, frameWindow)
      requires x !in done && Measure(F0, Settings(measure), k, x) == Measured(Reading(distance, speed))
      requires TalliesAfter(T0, S0, totalDistance, speedData, c, F0, Settings(measure), k, done)
      requires FramesAfter(F0, tracks.frames[c], Lookup(T0, c, map[]), Settings(measure), k, done)
      modifies this, tracks
      ensures Valid() && tracks.Valid() && tracks.objects == old(tracks.objects) && tracks.frames.Keys == old(tracks.frames.Keys)
      ensures OnlyClassChanged(old(totalDistance), totalDistance, c) && OnlyClassChanged(old(speedData), speedData, c)
      ensures OnlyClassChanged(old(tracks.frames), tracks.frames, c)
      ensures TalliesAfter(T0, S0, totalDistance, speedData, c, F0, Settings(measure), k, done + {x})
      ensures FramesAfter(F0, tracks.frames[c], Lookup(T0, c, map[]), Settings(measure), k, done + {x})
    {
      var cfg := Settings(measure);
      ghost var F := tracks.frames[c];
      ghost var base := Lookup(T0, c, map[]);
      ghost var T, S := totalDistance, speedData;
      FramesAfterShape(F0, F, base, cfg, k, done, start, x);
      Accumulate(c, x, distance, speed);
      MeasuredStep(T0, S0, T, S, totalDistance, speedData, c, F0, cfg, k, done, x);
      WriteBackWindow(tracks, c, start, end, x, speed, totalDistance[c][x]);
      FramesMeasuredStep(F0, F, tracks.frames[c], base, cfg, k, done, x, start, end, speed, totalDistance[c][x]);
    }

    /** Creates the entries of class `c` and track `x` when missing, adds `distance`
        to the track's total and appends `speed` to its samples. */
    method Accumulate(c: string, x: int, distance: real, speed: real)
      requires Valid()
      modifies this
      ensures Valid()
      ensures OnlyClassChanged(old(totalDistance), totalDistance, c) && OnlyClassChanged(old(speedData), speedData, c)
      ensures var t := Lookup(old(totalDistance), c, map[]);
        totalDistance == old(totalDistance)[c := t[x := Lookup(t, x, 0.0) + distance]]
      ensures var s := Lookup(old(speedData), c, map[]);
        speedData == old(speedData)[c := s[x := Lookup(s, x, []) + [speed]]]
    {
      // the class's entries and the track's entries are created when missing
      var t := Lookup(totalDistance, c, map[]);
      var s := Lookup(speedData, c, map[]);
      var total := Lookup(t, x, 0.0);
      var samples := Lookup(s, x, []);
      ConsistentUpdate(totalDistance, speedData, c, x, distance, speed);
      totalDistance := totalDistance[c := t[x := total + distance]];
      speedData := speedData[c := s[x := samples + [speed]]];
    }

    /** `for frame_num_batch in range(frame_num, last_frame)`: sets the speed and
        the cumulative distance of track `x` in every frame of `[start, end)` where
        it is present, and changes nothing else. */
    method WriteBackWindow(tracks: TrackStore, c: string, start: nat, end: nat, x: int, speed: real, distance: real)
      requires tracks.Valid() && c in tracks.frames && start <= end <= |tracks.frames[c]|
      modifies tracks
      ensures tracks.Valid() && tracks.objects == old(tracks.objects) && tracks.frames.Keys == old(tracks.frames.Keys)
      ensures OnlyClassChanged(old(tracks.frames), tracks.frames, c)
      ensures tracks.frames == old(tracks.frames)[c := WriteBack(old(tracks.frames)[c], start, end, x, speed, distance)]
    {
      ghost var F := tracks.frames[c];
      assert WriteBack(F, start, start, x, speed, distance) == F;
      var g := start;
      while g < end
        invariant start <= g <= end
        invariant tracks.Valid() && tracks.objects == old(tracks.objects)
        invariant tracks.frames == old(tracks.frames)[c := WriteBack(F, start, g, x, speed, distance)]
      {
        if x in tracks.frames[c][g] {
          tracks.Annotate(c, g, x, speed, distance);
        }
        assert tracks.frames[c] == WriteBack(F, start, g + 1, x, speed, distance);
        g := g + 1;
      }
    }

    /** Class `c` and track `x` have an entry in the accumulators. */
    ghost predicate HasEntry(e: (string, int))
      reads this
    {
      e.0 in totalDistance && e.1 in totalDistance[e.0]
    }

    /** The summary row of an accumulator entry. */
    ghost function RowOf(e: (string, int)): Row
      reads this
      requires Valid() && HasEntry(e)
    {
      SummaryRow(e.1, speedData[e.0][e.1], totalDistance[e.0][e.1])
    }

    /** The rows of `export_to_csv`, one per (class, track) entry of the
        accumulators in map order, or `None` when there is none (and no file would
        be written). `entries` lists the entry behind each row. */
    method ExportRows() returns (result: Option<seq<Row>>, ghost entries: seq<(string, int)>)
      requires Valid()
      ensures result.None? <==> forall e :: !HasEntry(e)
      ensures Distinct(entries) && forall e :: e in entries <==> HasEntry(e)
      ensures result.Some? ==> |result.value| == |entries| > 0
      ensures result.Some? ==> forall i :: 0 <= i < |entries| ==> HasEntry(entries[i]) && result.value[i] == RowOf(entries[i])
    {
      var data: seq<Row> := [];
      entries := [];
      var objectTypes := totalDistance.Keys;
      ghost var doneObjects: set<string> := {};
      while objectTypes != {}
        invariant objectTypes + doneObjects == totalDistance.Keys && objectTypes !! doneObjects
        invariant |data| == |entries| && Distinct(entries)
        invariant forall e :: e in entries <==> e.0 in doneObjects && HasEntry(e)
        invariant forall i :: 0 <= i < |entries| ==> HasEntry(entries[i]) && data[i] == RowOf(entries[i])
        decreases objectTypes
      {
        var objectType :| objectType in objectTypes;
        var playerIds := totalDistance[objectType].Keys;
        ghost var donePlayers: set<int> := {};
        while playerIds != {}
          invariant playerIds + donePlayers == totalDistance[objectType].Keys && playerIds !! donePlayers
          invariant |data| == |entries| && Distinct(entries)
          invariant forall e :: e in entries <==> (e.0 in doneObjects && HasEntry(e)) || (e.0 == objectType && e.1 in donePlayers)
          invariant forall i :: 0 <= i < |entries| ==> HasEntry(entries[i]) && data[i] == RowOf(entries[i])
          decreases playerIds
        {
          assert exists p :: p in playerIds by {
            var p := PickOne(playerIds);
          }
          var playerId :| playerId in playerIds;
          if playerId in speedData[objectType] {
            var row := SummaryRow(playerId, speedData[objectType][playerId], totalDistance[objectType][playerId]);
            data := data + [row];
            entries := entries + [(objectType, playerId)];
          }
          playerIds := playerIds - {playerId};
          donePlayers := donePlayers + {playerId};
        }
        objectTypes := objectTypes - {objectType};
        doneObjects := doneObjects + {objectType};
      }
      assert forall e :: HasEntry(e) ==> e in entries;
      if |data| > 0 {
        assert entries[0] in entries;
        result := Some(data);
      } else {
        result := None;
      }
    }
  }
}
