/** What one window does for one track, what a whole pass of windows leaves in the
    accumulators and in the track store, and the step lemmas that carry the
    estimator's loops from one track and one window to the next. */
module Measurement {
  import opened Tracks
  import opened Windows

  /** The estimator's settings and the distance function it imports
      (`measure_distance`, left uninterpreted). */
  datatype Config = Config(frameWindow: nat, frameRate: nat, measure: (Position, Position) -> real)

  predicate ValidConfig(cfg: Config)
  {
    cfg.frameWindow > 0 && cfg.frameRate > 0
  }

  /** Speed in km/h over `frames` frames at `frameRate` frames per second: the time
      elapsed is `frames / frameRate` seconds, the speed in m/s is the distance over
      it, and 3.6 converts m/s to km/h. */
  function SpeedKmh(distance: real, frames: nat, frameRate: nat): real
    requires frames > 0 && frameRate > 0
  {
    var timeElapsed := (frames as real) / (frameRate as real);
    var metresPerSecond := distance / timeElapsed;
    metresPerSecond * 3.6
  }

  /** The speed is `distance * 3.6 * frameRate / frames`, and it is not negative
      when the distance is not. */
  lemma SpeedFormula(distance: real, frames: nat, frameRate: nat)
    requires frames > 0 && frameRate > 0
    ensures SpeedKmh(distance, frames, frameRate) == distance * 3.6 * (frameRate as real) / (frames as real)
    ensures distance >= 0.0 ==> SpeedKmh(distance, frames, frameRate) >= 0.0
  {
  }

  /** The worked example: 5 m over a window of 5 frames at 24 frames per second
      is 24 m/s, that is 86.4 km/h. */
  lemma SpeedExample()
    ensures SpeedKmh(5.0, 5, 24) == 86.4
  {
  }

  /** One measurement: the distance covered in a window and the speed derived from it. */
  datatype Reading = Reading(distance: real, speed: real)

  /** The outcome of one window for one track: skipped silently, a division by a
      zero time interval (Python raises `ZeroDivisionError`), or a measurement. */
  datatype WindowResult = Skipped | DivisionByZero | Measured(reading: Reading)

  /** Class -> track id -> total distance, class -> track id -> speed samples, and
      class -> frames: the estimator's two accumulators and the track store's frames. */
  type Totals = map<string, map<int, real>>
  type Samples = map<string, map<int, seq<real>>>
  type Store = map<string, seq<Frame>>

  function Lookup<K, V>(m: map<K, V>, k: K, default: V): V
  {
    if k in m then m[k] else default
  }

  /** Window `w` of a class with frames `F`, for track `x`. */
  function Measure(F: seq<Frame>, cfg: Config, w: nat, x: int): WindowResult
    requires ValidConfig(cfg) && w * cfg.frameWindow < |F|
  {
    var start := w * cfg.frameWindow;
    var end := WindowEnd(start, |F|, cfg.frameWindow);
    if x !in F[start] || x !in F[end] then Skipped
    else if F[start][x].position.None? || F[end][x].position.None? then Skipped
    else if end == start then DivisionByZero
    else
      var d := cfg.measure(F[start][x].position.value, F[end][x].position.value);
      Measured(Reading(d, SpeedKmh(d, end - start, cfg.frameRate)))
  }

  /** A window measures a track exactly when the track is present at both ends with
      a position at both ends and the window is not empty; the distance is the
      measured one and the speed is `distance * 3.6 * frameRate / (end - start)`.
      Any missing piece makes the window skip the track. */
  lemma MeasureCases(F: seq<Frame>, cfg: Config, w: nat, x: int)
    requires ValidConfig(cfg) && w * cfg.frameWindow < |F|
    ensures var start := w * cfg.frameWindow;
      var end := WindowEnd(start, |F|, cfg.frameWindow);
      var present := x in F[start] && x in F[end] && F[start][x].position.Some? && F[end][x].position.Some?;
      && (Measure(F, cfg, w, x).Skipped? <==> !present)
      && (Measure(F, cfg, w, x).DivisionByZero? <==> present && end == start)
      && (Measure(F, cfg, w, x).Measured? <==> present && end > start)
      && (Measure(F, cfg, w, x).Measured? ==>
            var d := cfg.measure(F[start][x].position.value, F[end][x].position.value);
            Measure(F, cfg, w, x).reading.distance == d &&
            Measure(F, cfg, w, x).reading.speed == d * 3.6 * (cfg.frameRate as real) / ((end - start) as real))
  {
    var start := w * cfg.frameWindow;
    var end := WindowEnd(start, |F|, cfg.frameWindow);
    if Measure(F, cfg, w, x).Measured? {
      var d := cfg.measure(F[start][x].position.value, F[end][x].position.value);
      SpeedFormula(d, end - start, cfg.frameRate);
    }
  }

  /** With a non-negative distance function a measured window has a non-negative
      distance and speed. */
  lemma MeasuredNonNegative(F: seq<Frame>, cfg: Config, w: nat, x: int)
    requires ValidConfig(cfg) && w * cfg.frameWindow < |F|
    requires forall p, q :: cfg.measure(p, q) >= 0.0
    ensures Measure(F, cfg, w, x).Measured? ==>
      Measure(F, cfg, w, x).reading.distance >= 0.0 && Measure(F, cfg, w, x).reading.speed >= 0.0
  {
    var start := w * cfg.frameWindow;
    var end := WindowEnd(start, |F|, cfg.frameWindow);
    if Measure(F, cfg, w, x).Measured? {
      var d := cfg.measure(F[start][x].position.value, F[end][x].position.value);
      SpeedFormula(d, end - start, cfg.frameRate);
    }
  }

  /** The readings of track `x` in windows `0 .. k-1`, in window order. */
  function Readings(F: seq<Frame>, cfg: Config, x: int, k: nat): (h: seq<Reading>)
    requires ValidConfig(cfg)
    ensures |h| <= k
  {
    if k == 0 then []
    else
      var h := Readings(F, cfg, x, k - 1);
      if (k - 1) * cfg.frameWindow < |F| && Measure(F, cfg, k - 1, x).Measured?
      then h + [Measure(F, cfg, k - 1, x).reading]
      else h
  }

  /** The windows among `0 .. k-1` that measured track `x`. */
  ghost function MeasuredWindows(F: seq<Frame>, cfg: Config, x: int, k: nat): set<nat>
    requires ValidConfig(cfg)
  {
    set w: nat | w < k && w * cfg.frameWindow < |F| && Measure(F, cfg, w, x).Measured?
  }

  /** There is one reading per window that measured the track. */
  lemma {:induction false} ReadingsCount(F: seq<Frame>, cfg: Config, x: int, k: nat)
    requires ValidConfig(cfg)
    ensures |Readings(F, cfg, x, k)| == |MeasuredWindows(F, cfg, x, k)|
  {
    if k > 0 {
      var w0 := k - 1;
      ReadingsCount(F, cfg, x, w0);
      var measured := w0 * cfg.frameWindow < |F| && Measure(F, cfg, w0, x).Measured?;
      CardStep(MeasuredWindows(F, cfg, x, w0), MeasuredWindows(F, cfg, x, k), w0, measured);
    }
  }

  /** A set that gains at most one new element grows by at most one. */
  lemma CardStep(before: set<nat>, after: set<nat>, w0: nat, add: bool)
    requires w0 !in before
    requires forall w :: w in after <==> w in before || (add && w == w0)
    ensures |after| == |before| + (if add then 1 else 0)
  {
    if add {
      assert after == before + {w0};
    } else {
      assert after == before;
    }
  }

  /** Sum of the distances, accumulated left to right. */
  function Distances(h: seq<Reading>): real
  {
    if h == [] then 0.0 else Distances(h[..|h| - 1]) + h[|h| - 1].distance
  }

  /** The speeds, in order. */
  function Speeds(h: seq<Reading>): seq<real>
  {
    if h == [] then [] else Speeds(h[..|h| - 1]) + [h[|h| - 1].speed]
  }

  lemma SpeedsLength(h: seq<Reading>)
    ensures |Speeds(h)| == |h|
  {
  }

  /** With a non-negative distance function, distances and speeds are non-negative. */
  lemma {:induction false} ReadingsNonNegative(F: seq<Frame>, cfg: Config, x: int, k: nat)
    requires ValidConfig(cfg)
    requires forall p, q :: cfg.measure(p, q) >= 0.0
    ensures Distances(Readings(F, cfg, x, k)) >= 0.0
    ensures forall i :: 0 <= i < |Readings(F, cfg, x, k)| ==> Readings(F, cfg, x, k)[i].speed >= 0.0
  {
    if k > 0 {
      var w0 := k - 1;
      ReadingsNonNegative(F, cfg, x, w0);
      var h, h' := Readings(F, cfg, x, w0), Readings(F, cfg, x, k);
      if w0 * cfg.frameWindow < |F| && Measure(F, cfg, w0, x).Measured? {
        var r := Measure(F, cfg, w0, x).reading;
        MeasuredNonNegative(F, cfg, w0, x);
        assert h' == h + [r];
        AppendLast(h, r);
        forall i | 0 <= i < |h'|
          ensures h'[i].speed >= 0.0
        {
          if i < |h| {
            assert h'[i] == h[i];
          }
        }
      } else {
        assert h' == h;
      }
    }
  }

  /** How many windows have been applied to track `x`: `k`, or `k + 1` once the
      track has been handled in window `k` (it is in `done`). */
  function Count(k: nat, done: set<int>, x: int): nat
  {
    if x in done then k + 1 else k
  }

  /** The record of track `x` in frame `g` once `n` windows have been applied:
      annotated with the speed of the window that covers `g` and the cumulative
      distance as of that window, if that window has been applied, covers `g` in
      its write-back range and measured the track; otherwise the original record. */
  function Expected(F0: seq<Frame>, base: map<int, real>, cfg: Config, g: nat, x: int, n: nat): Record
    requires ValidConfig(cfg) && g < |F0| && x in F0[g]
  {
    WindowOfFrame(g, cfg.frameWindow);
    var w := g / cfg.frameWindow;
    if w < n && g < WindowEnd(w * cfg.frameWindow, |F0|, cfg.frameWindow) && Measure(F0, cfg, w, x).Measured?
    then Annotated(F0[g][x], Measure(F0, cfg, w, x).reading.speed, Lookup(base, x, 0.0) + Distances(Readings(F0, cfg, x, w + 1)))
    else F0[g][x]
  }

  /** The accumulators agree on their keys and every sample list is non-empty. */
  ghost predicate Consistent(T: Totals, S: Samples)
  {
    T.Keys == S.Keys &&
    forall c :: c in T ==> T[c].Keys == S[c].Keys && forall x :: x in S[c] ==> S[c][x] != []
  }

  /** Track `x`'s entries in one class's accumulators `t`, `s` after `n` windows
      have been applied to `t0`, `s0`: the track has an entry when it had one or
      was measured, its total is the old total plus the measured distances in
      window order, and its samples are the old samples followed by the measured
      speeds. */
  ghost predicate TrackTallies(t0: map<int, real>, s0: map<int, seq<real>>, t: map<int, real>, s: map<int, seq<real>>,
                               F0: seq<Frame>, cfg: Config, n: nat, x: int)
    requires ValidConfig(cfg)
  {
    var h := Readings(F0, cfg, x, n);
    && (x in t <==> x in t0 || h != [])
    && (x in s <==> x in t)
    && (x in t ==> t[x] == Lookup(t0, x, 0.0) + Distances(h))
    && (x in s ==> s[x] == Lookup(s0, x, []) + Speeds(h))
  }

  /** Every track of one class, with the windows counted by `k` and `done` applied. */
  ghost predicate ClassTallies(t0: map<int, real>, s0: map<int, seq<real>>, t: map<int, real>, s: map<int, seq<real>>,
                               F0: seq<Frame>, cfg: Config, k: nat, done: set<int>)
    requires ValidConfig(cfg)
  {
    forall x :: TrackTallies(t0, s0, t, s, F0, cfg, Count(k, done, x), x)
  }

  /** The same for class `c` of the estimator's nested maps: the class gets an entry
      only when it had one or some track of it was measured. */
  ghost predicate TalliesAfter(T0: Totals, S0: Samples,
                               T: Totals, S: Samples,
                               c: string, F0: seq<Frame>, cfg: Config, k: nat, done: set<int>)
    requires ValidConfig(cfg)
  {
    && (c in T <==> c in S)
    && (c in T0 ==> c in T)
    && (c in T && c !in T0 ==> T[c] != map[])
    && ClassTallies(Lookup(T0, c, map[]), Lookup(S0, c, map[]), Lookup(T, c, map[]), Lookup(S, c, map[]), F0, cfg, k, done)
  }

  /** Track `x`'s record in frame `g` is as `Expected` after `n` windows. */
  ghost predicate RecordAfter(F0: seq<Frame>, F: seq<Frame>, base: map<int, real>, cfg: Config, n: nat, g: int, x: int)
    requires ValidConfig(cfg)
  {
    0 <= g < |F0| && g < |F| && x in F0[g] ==> x in F[g] && F[g][x] == Expected(F0, base, cfg, g, x, n)
  }

  /** The frames `F` of a class after the windows counted by `k` and `done` have been
      applied to `F0`: same frames, same track ids, every record as `Expected`. */
  ghost predicate FramesAfter(F0: seq<Frame>, F: seq<Frame>, base: map<int, real>, cfg: Config, k: nat, done: set<int>)
    requires ValidConfig(cfg)
  {
    && |F| == |F0|
    && (forall g :: 0 <= g < |F0| ==> F[g].Keys == F0[g].Keys)
    && (forall g, x :: RecordAfter(F0, F, base, cfg, Count(k, done, x), g, x))
  }

  /** `for g in range(from, to): if x in F[g]: F[g][x]['speed'], F[g][x]['distance'] = speed, distance` */
  function WriteBack(F: seq<Frame>, from: nat, to: nat, x: int, speed: real, distance: real): seq<Frame>
  {
    seq(|F|, g requires 0 <= g < |F| =>
      if from <= g < to && x in F[g] then F[g][x := Annotated(F[g][x], speed, distance)] else F[g])
  }

  /** Only the `speed` and `distance` fields of a record ever change: the ids of
      every frame and the position and box of every record stay as they were. */
  lemma FramesAfterShape(F0: seq<Frame>, F: seq<Frame>, base: map<int, real>, cfg: Config, k: nat, done: set<int>, g: nat, x: int)
    requires ValidConfig(cfg) && FramesAfter(F0, F, base, cfg, k, done)
    requires g < |F0|
    ensures x in F[g] <==> x in F0[g]
    ensures x in F0[g] ==> F[g][x].position == F0[g][x].position && F[g][x].bbox == F0[g][x].bbox
  {
    assert F[g].Keys == F0[g].Keys;
    assert RecordAfter(F0, F, base, cfg, Count(k, done, x), g, x);
  }

  /** Readings grow by the window's reading exactly when it measured the track. */
  lemma ReadingsStep(F: seq<Frame>, cfg: Config, x: int, k: nat)
    requires ValidConfig(cfg) && k * cfg.frameWindow < |F|
    ensures Readings(F, cfg, x, k + 1) ==
      if Measure(F, cfg, k, x).Measured? then Readings(F, cfg, x, k) + [Measure(F, cfg, k, x).reading] else Readings(F, cfg, x, k)
  {
    assert (k + 1 - 1) == k;
  }

  lemma AppendLast(h: seq<Reading>, r: Reading)
    ensures Distances(h + [r]) == Distances(h) + r.distance
    ensures Speeds(h + [r]) == Speeds(h) + [r.speed]
  {
    assert (h + [r])[..|h|] == h;
  }

  /** A window that skipped track `x` (or raised for it) changes none of its
      accumulator entries. */
  lemma TalliesSkipStep(t0: map<int, real>, s0: map<int, seq<real>>, t: map<int, real>, s: map<int, seq<real>>,
                        F0: seq<Frame>, cfg: Config, k: nat, done: set<int>, x: int)
    requires ValidConfig(cfg) && k * cfg.frameWindow < |F0| && x !in done
    requires !Measure(F0, cfg, k, x).Measured?
    requires ClassTallies(t0, s0, t, s, F0, cfg, k, done)
    ensures ClassTallies(t0, s0, t, s, F0, cfg, k, done + {x})
  {
    forall y
      ensures TrackTallies(t0, s0, t, s, F0, cfg, Count(k, done + {x}, y), y)
    {
      assert TrackTallies(t0, s0, t, s, F0, cfg, Count(k, done, y), y);
      if y == x {
        ReadingsStep(F0, cfg, x, k);
      } else {
        assert Count(k, done + {x}, y) == Count(k, done, y);
      }
    }
  }

  /** A window that measured track `x` adds its distance to the track's total and
      appends its speed to the track's samples, creating both entries if needed. */
  lemma TalliesMeasuredStep(t0: map<int, real>, s0: map<int, seq<real>>, t: map<int, real>, s: map<int, seq<real>>,
                            F0: seq<Frame>, cfg: Config, k: nat, done: set<int>, x: int)
    requires ValidConfig(cfg) && k * cfg.frameWindow < |F0| && x !in done
    requires Measure(F0, cfg, k, x).Measured?
    requires t0.Keys == s0.Keys
    requires ClassTallies(t0, s0, t, s, F0, cfg, k, done)
    ensures var r := Measure(F0, cfg, k, x).reading;
      && Lookup(t, x, 0.0) + r.distance == Lookup(t0, x, 0.0) + Distances(Readings(F0, cfg, x, k + 1))
      && ClassTallies(t0, s0, t[x := Lookup(t, x, 0.0) + r.distance], s[x := Lookup(s, x, []) + [r.speed]], F0, cfg, k, done + {x})
  {
    var r := Measure(F0, cfg, k, x).reading;
    var h := Readings(F0, cfg, x, k);
    var t', s' := t[x := Lookup(t, x, 0.0) + r.distance], s[x := Lookup(s, x, []) + [r.speed]];
    assert TrackTallies(t0, s0, t, s, F0, cfg, Count(k, done, x), x);
    assert Count(k, done, x) == k;
    ReadingsStep(F0, cfg, x, k);
    AppendLast(h, r);
    if x !in t {
      assert x !in t0 && x !in s0 && h == [];
    }
    assert TrackTallies(t0, s0, t', s', F0, cfg, k + 1, x);
    forall y
      ensures TrackTallies(t0, s0, t', s', F0, cfg, Count(k, done + {x}, y), y)
    {
      if y != x {
        assert Count(k, done + {x}, y) == Count(k, done, y);
        assert TrackTallies(t0, s0, t, s, F0, cfg, Count(k, done, y), y);
      }
    }
  }

  /** The outer-map form of `TalliesSkipStep`. */
  lemma SkipStep(T0: Totals, S0: Samples,
                 T: Totals, S: Samples,
                 c: string, F0: seq<Frame>, cfg: Config, k: nat, done: set<int>, x: int)
    requires ValidConfig(cfg) && k * cfg.frameWindow < |F0| && x !in done
    requires !Measure(F0, cfg, k, x).Measured?
    requires TalliesAfter(T0, S0, T, S, c, F0, cfg, k, done)
    ensures TalliesAfter(T0, S0, T, S, c, F0, cfg, k, done + {x})
  {
    TalliesSkipStep(Lookup(T0, c, map[]), Lookup(S0, c, map[]), Lookup(T, c, map[]), Lookup(S, c, map[]), F0, cfg, k, done, x);
  }

  /** The outer-map form of `TalliesMeasuredStep`: `total_distance[c][x] += d` and
      `speed_data[c][x].append(v)`, after creating missing entries, give `T'` and
      `S'`; the new total is the distance of every measured window so far. */
  lemma MeasuredStep(T0: Totals, S0: Samples,
                     T: Totals, S: Samples,
                     T': Totals, S': Samples,
                     c: string, F0: seq<Frame>, cfg: Config, k: nat, done: set<int>, x: int)
    requires ValidConfig(cfg) && k * cfg.frameWindow < |F0| && x !in done
    requires Measure(F0, cfg, k, x).Measured?
    requires Consistent(T0, S0)
    requires TalliesAfter(T0, S0, T, S, c, F0, cfg, k, done)
    requires var r := Measure(F0, cfg, k, x).reading;
      var t, s := Lookup(T, c, map[]), Lookup(S, c, map[]);
      T' == T[c := t[x := Lookup(t, x, 0.0) + r.distance]] && S' == S[c := s[x := Lookup(s, x, []) + [r.speed]]]
    ensures c in T' && x in T'[c]
    ensures T'[c][x] == Lookup(Lookup(T0, c, map[]), x, 0.0) + Distances(Readings(F0, cfg, x, k + 1))
    ensures TalliesAfter(T0, S0, T', S', c, F0, cfg, k, done + {x})
  {
    var t0, s0 := Lookup(T0, c, map[]), Lookup(S0, c, map[]);
    assert t0.Keys == s0.Keys;
    var t, s := Lookup(T, c, map[]), Lookup(S, c, map[]);
    var r := Measure(F0, cfg, k, x).reading;
    TalliesMeasuredStep(t0, s0, t, s, F0, cfg, k, done, x);
    var t', s' := t[x := Lookup(t, x, 0.0) + r.distance], s[x := Lookup(s, x, []) + [r.speed]];
    assert Lookup(T', c, map[]) == t' && Lookup(S', c, map[]) == s';
    assert x in t';
  }

  /** Writing back a window's measurement for track `x` annotates exactly the
      frames of that window's range where `x` is present. */
  lemma FramesMeasuredStep(F0: seq<Frame>, F: seq<Frame>, F': seq<Frame>, base: map<int, real>, cfg: Config, k: nat,
                           done: set<int>, x: int, start: nat, end: nat, speed: real, dist: real)
    requires ValidConfig(cfg) && start == k * cfg.frameWindow && start < |F0| && x !in done
    requires end == WindowEnd(start, |F0|, cfg.frameWindow)
    requires Measure(F0, cfg, k, x).Measured? && speed == Measure(F0, cfg, k, x).reading.speed
    requires dist == Lookup(base, x, 0.0) + Distances(Readings(F0, cfg, x, k + 1))
    requires FramesAfter(F0, F, base, cfg, k, done)
    requires F' == WriteBack(F, start, end, x, speed, dist)
    ensures FramesAfter(F0, F', base, cfg, k, done + {x})
  {
    forall g | 0 <= g < |F0|
      ensures F'[g].Keys == F0[g].Keys
    {
      assert F[g].Keys == F0[g].Keys;
    }
    forall g, y
      ensures RecordAfter(F0, F', base, cfg, Count(k, done + {x}, y), g, y)
    {
      WriteBackRecord(F0, F, base, cfg, k, done, x, g, y);
    }
  }

  lemma WriteBackRecord(F0: seq<Frame>, F: seq<Frame>, base: map<int, real>, cfg: Config, k: nat, done: set<int>, x: int, g: int, y: int)
    requires ValidConfig(cfg) && k * cfg.frameWindow < |F0| && x !in done
    requires Measure(F0, cfg, k, x).Measured?
    requires FramesAfter(F0, F, base, cfg, k, done)
    ensures var start := k * cfg.frameWindow;
      RecordAfter(F0, WriteBack(F, start, WindowEnd(start, |F0|, cfg.frameWindow), x, Measure(F0, cfg, k, x).reading.speed,
                                Lookup(base, x, 0.0) + Distances(Readings(F0, cfg, x, k + 1))),
                  base, cfg, Count(k, done + {x}, y), g, y)
  {
    assert RecordAfter(F0, F, base, cfg, Count(k, done, y), g, y);
    if 0 <= g < |F0| && y in F0[g] {
      assert F[g].Keys == F0[g].Keys;
      if y == x {
        WriteBackOwnRecord(F0, F, base, cfg, k, x, g);
      } else {
        assert Count(k, done + {x}, y) == Count(k, done, y);
      }
    }
  }

  /** The measured track's own record in frame `g`: annotated when `g` is in the
      window's range, otherwise as it was. */
  lemma WriteBackOwnRecord(F0: seq<Frame>, F: seq<Frame>, base: map<int, real>, cfg: Config, k: nat, x: int, g: nat)
    requires ValidConfig(cfg) && k * cfg.frameWindow < |F0|
    requires Measure(F0, cfg, k, x).Measured?
    requires |F| == |F0| && g < |F0| && x in F0[g] && x in F[g]
    requires F[g][x] == Expected(F0, base, cfg, g, x, k)
    ensures var start := k * cfg.frameWindow;
      var F' := WriteBack(F, start, WindowEnd(start, |F0|, cfg.frameWindow), x, Measure(F0, cfg, k, x).reading.speed,
                          Lookup(base, x, 0.0) + Distances(Readings(F0, cfg, x, k + 1)));
      x in F'[g] && F'[g][x] == Expected(F0, base, cfg, g, x, k + 1)
  {
    var fw := cfg.frameWindow;
    var start := k * fw;
    var end := WindowEnd(start, |F0|, fw);
    WindowOfFrame(g, fw);
    if start <= g < end {
      assert g < start + fw;
      assert g / fw == k;
    } else if g / fw == k {
      assert g >= start;
    }
  }

  /** Skipping track `x` in window `k` leaves its records as they were. */
  lemma FramesSkipStep(F0: seq<Frame>, F: seq<Frame>, base: map<int, real>, cfg: Config, k: nat, done: set<int>, x: int)
    requires ValidConfig(cfg) && k * cfg.frameWindow < |F0| && x !in done
    requires !Measure(F0, cfg, k, x).Measured?
    requires FramesAfter(F0, F, base, cfg, k, done)
    ensures FramesAfter(F0, F, base, cfg, k, done + {x})
  {
    forall g, y
      ensures RecordAfter(F0, F, base, cfg, Count(k, done + {x}, y), g, y)
    {
      assert RecordAfter(F0, F, base, cfg, Count(k, done, y), g, y);
      if y == x && 0 <= g < |F0| && y in F0[g] && g / cfg.frameWindow == k {
        assert !Measure(F0, cfg, g / cfg.frameWindow, y).Measured?;
      }
    }
  }

  /** Before any window has been applied the accumulators are the initial ones. */
  lemma TalliesStart(T0: Totals, S0: Samples,
                     c: string, F0: seq<Frame>, cfg: Config)
    requires ValidConfig(cfg) && Consistent(T0, S0)
    ensures TalliesAfter(T0, S0, T0, S0, c, F0, cfg, 0, {})
  {
    var t0, s0 := Lookup(T0, c, map[]), Lookup(S0, c, map[]);
    var zero, none: set<int> := 0, {};
    forall y
      ensures TrackTallies(t0, s0, t0, s0, F0, cfg, Count(zero, none, y), y)
    {
    }
  }

  /** Before any window has been applied every record is the original one. */
  lemma FramesStart(F0: seq<Frame>, base: map<int, real>, cfg: Config)
    requires ValidConfig(cfg)
    ensures FramesAfter(F0, F0, base, cfg, 0, {})
  {
    var zero, none: set<int> := 0, {};
    forall g, y
      ensures RecordAfter(F0, F0, base, cfg, Count(zero, none, y), g, y)
    {
    }
  }

  /** Once every track that window `k` could measure has been handled, the state is
      the state after `k + 1` windows. */
  lemma Advance(T0: Totals, S0: Samples,
                T: Totals, S: Samples,
                c: string, F0: seq<Frame>, F: seq<Frame>, cfg: Config, k: nat, done: set<int>)
    requires ValidConfig(cfg) && k * cfg.frameWindow < |F0|
    requires forall x :: x !in done ==> !Measure(F0, cfg, k, x).Measured?
    requires TalliesAfter(T0, S0, T, S, c, F0, cfg, k, done)
    requires FramesAfter(F0, F, Lookup(T0, c, map[]), cfg, k, done)
    ensures TalliesAfter(T0, S0, T, S, c, F0, cfg, k + 1, {})
    ensures FramesAfter(F0, F, Lookup(T0, c, map[]), cfg, k + 1, {})
  {
    var t0, s0 := Lookup(T0, c, map[]), Lookup(S0, c, map[]);
    var t, s := Lookup(T, c, map[]), Lookup(S, c, map[]);
    var k', none: set<int> := k + 1, {};
    forall y
      ensures TrackTallies(t0, s0, t, s, F0, cfg, Count(k', none, y), y)
    {
      assert TrackTallies(t0, s0, t, s, F0, cfg, Count(k, done, y), y);
      ReadingsStep(F0, cfg, y, k);
    }
    var base := Lookup(T0, c, map[]);
    forall g, y
      ensures RecordAfter(F0, F, base, cfg, Count(k', none, y), g, y)
    {
      assert RecordAfter(F0, F, base, cfg, Count(k, done, y), g, y);
      if y !in done && 0 <= g < |F0| && y in F0[g] && g / cfg.frameWindow == k {
        assert !Measure(F0, cfg, g / cfg.frameWindow, y).Measured?;
      }
    }
  }

  /** A class raises `ZeroDivisionError`: its last window is empty (`n - 1` is a
      multiple of the window length, including a class of one frame) and some track
      in the last frame has a position. */
  ghost predicate DivisionFault(F: seq<Frame>, fw: nat)
    requires fw > 0
  {
    |F| > 0 && (|F| - 1) % fw == 0 && exists x :: HasPosition(LastFrame(F), x)
  }

  function LastFrame(F: seq<Frame>): Frame
    requires |F| > 0
  {
    F[|F| - 1]
  }

  predicate HasPosition(f: Frame, x: int)
  {
    x in f && f[x].position.Some?
  }

  /** `DivisionFault` holds exactly when some window divides by zero for some track. */
  lemma DivisionFaultIff(F: seq<Frame>, cfg: Config)
    requires ValidConfig(cfg)
    ensures DivisionFault(F, cfg.frameWindow) <==>
      exists w: nat, x :: w * cfg.frameWindow < |F| && Measure(F, cfg, w, x).DivisionByZero?
  {
    var fw := cfg.frameWindow;
    var n := |F|;
    if DivisionFault(F, fw) {
      var x :| HasPosition(LastFrame(F), x);
      EmptyWindow(0, n, fw);
      var w := (n - 1) / fw;
      assert w * fw == n - 1;
      assert Measure(F, cfg, w, x).DivisionByZero?;
    }
    if exists w: nat, x :: w * fw < n && Measure(F, cfg, w, x).DivisionByZero? {
      var w: nat, x :| w * fw < n && Measure(F, cfg, w, x).DivisionByZero?;
      EmptyWindow(w, n, fw);
      assert HasPosition(LastFrame(F), x);
    }
  }

  /** An empty window never measures anything, and it is the last window. */
  lemma EmptyWindowMeasuresNothing(F: seq<Frame>, cfg: Config, w: nat, x: int)
    requires ValidConfig(cfg) && w * cfg.frameWindow < |F|
    requires WindowEnd(w * cfg.frameWindow, |F|, cfg.frameWindow) == w * cfg.frameWindow
    ensures !Measure(F, cfg, w, x).Measured?
    ensures w + 1 == NumWindows(|F|, cfg.frameWindow)
  {
    EmptyWindow(w, |F|, cfg.frameWindow);
  }

  /** After `n` windows a track's total is its old total plus the distances of the
      windows that measured it, in window order, and it has gained exactly one
      speed sample per such window. */
  lemma SamplesPerWindow(T0: Totals, S0: Samples,
                         T: Totals, S: Samples,
                         c: string, F0: seq<Frame>, cfg: Config, n: nat, x: int)
    requires ValidConfig(cfg)
    requires TalliesAfter(T0, S0, T, S, c, F0, cfg, n, {})
    ensures var t0 := Lookup(T0, c, map[]);
      x in Lookup(T, c, map[]) <==> x in t0 || MeasuredWindows(F0, cfg, x, n) != {}
    ensures c in T && x in T[c] ==>
      && c in S && x in S[c]
      && T[c][x] == Lookup(Lookup(T0, c, map[]), x, 0.0) + Distances(Readings(F0, cfg, x, n))
      && |S[c][x]| == |Lookup(Lookup(S0, c, map[]), x, [])| + |MeasuredWindows(F0, cfg, x, n)|
  {
    var t0, s0 := Lookup(T0, c, map[]), Lookup(S0, c, map[]);
    var t, s := Lookup(T, c, map[]), Lookup(S, c, map[]);
    var h := Readings(F0, cfg, x, n);
    assert TrackTallies(t0, s0, t, s, F0, cfg, Count(n, {}, x), x);
    ReadingsCount(F0, cfg, x, n);
    SpeedsLength(h);
  }

  /** The accumulators never shrink: entries that existed keep existing, totals
      only have distances added, and old samples stay a prefix of the new ones. */
  lemma TalliesGrow(T0: Totals, S0: Samples,
                    T: Totals, S: Samples,
                    c: string, F0: seq<Frame>, cfg: Config, k: nat)
    requires ValidConfig(cfg) && Consistent(T0, S0)
    requires TalliesAfter(T0, S0, T, S, c, F0, cfg, k, {})
    ensures c in T0 ==> c in T && c in S && T0[c].Keys <= T[c].Keys
    ensures c in T0 ==> forall x :: x in T0[c] ==> T[c][x] == T0[c][x] + Distances(Readings(F0, cfg, x, k))
    ensures c in T0 ==> forall x :: x in S0[c] ==> x in S[c] && S0[c][x] <= S[c][x]
  {
    if c in T0 {
      var t0, s0 := Lookup(T0, c, map[]), Lookup(S0, c, map[]);
      var t, s := Lookup(T, c, map[]), Lookup(S, c, map[]);
      assert c in T && t0 == T0[c] && t == T[c];
      forall x | x in t0
        ensures x in t
      {
        assert TrackTallies(t0, s0, t, s, F0, cfg, Count(k, {}, x), x);
      }
      forall x | x in t0
        ensures t[x] == t0[x] + Distances(Readings(F0, cfg, x, k))
      {
        assert TrackTallies(t0, s0, t, s, F0, cfg, Count(k, {}, x), x);
        assert Count(k, {}, x) == k;
      }
      forall x | x in s0
        ensures x in s && s0[x] <= s[x]
      {
        assert TrackTallies(t0, s0, t, s, F0, cfg, Count(k, {}, x), x);
        assert x in t0;
      }
    }
  }

  /** The state after a pass is determined by the state before it and the frames:
      two runs from equal accumulators over the same frames agree (a fresh
      estimator run twice on the same store produces the same accumulators). */
  lemma TalliesDetermined(T0: Totals, S0: Samples,
                          T1: Totals, S1: Samples,
                          T2: Totals, S2: Samples,
                          c: string, F0: seq<Frame>, cfg: Config, k: nat)
    requires ValidConfig(cfg)
    requires TalliesAfter(T0, S0, T1, S1, c, F0, cfg, k, {})
    requires TalliesAfter(T0, S0, T2, S2, c, F0, cfg, k, {})
    ensures (c in T1 <==> c in T2) && (c in S1 <==> c in S2)
    ensures c in T1 ==> T1[c] == T2[c] && S1[c] == S2[c]
  {
    var t0, s0 := Lookup(T0, c, map[]), Lookup(S0, c, map[]);
    var t1, t2 := Lookup(T1, c, map[]), Lookup(T2, c, map[]);
    var s1, s2 := Lookup(S1, c, map[]), Lookup(S2, c, map[]);
    forall x
      ensures (x in t1 <==> x in t2) && (x in t1 ==> t1[x] == t2[x])
      ensures (x in s1 <==> x in s2) && (x in s1 ==> s1[x] == s2[x])
    {
      assert TrackTallies(t0, s0, t1, s1, F0, cfg, Count(k, {}, x), x);
      assert TrackTallies(t0, s0, t2, s2, F0, cfg, Count(k, {}, x), x);
    }
    assert t1 == t2 && s1 == s2;
  }
}
