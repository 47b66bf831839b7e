/** Index arithmetic of the sliding windows: for a class with `n` frames, window
    `w` starts at frame `w * fw` and ends at `min(w * fw + fw, n - 1)`. */
module Windows {

  /** Python's `range(from, to, step)` for a positive step. */
  function Range(from: nat, to: nat, step: nat): seq<nat>
    requires step > 0
    decreases if from < to then to - from else 0
  {
    if from >= to then [] else [from] + Range(from + step, to, step)
  }

  /** The number of windows of a class with `n` frames: the length of `range(0, n, fw)`. */
  function NumWindows(n: nat, fw: nat): nat
    requires fw > 0
  {
    (n + fw - 1) / fw
  }

  /** `last_frame = min(frame_num + frame_window, number_of_frames - 1)` */
  function WindowEnd(start: nat, n: nat, fw: nat): nat
    requires start < n
  {
    if start + fw < n - 1 then start + fw else n - 1
  }

  lemma MultipleOf(i: nat, fw: nat)
    requires fw > 0
    ensures (i * fw) % fw == 0 && (i * fw) / fw == i
  {
    var q, r := (i * fw) / fw, (i * fw) % fw;
    assert i * fw == q * fw + r;
    if q < i {
      MulLeft(q + 1, i, fw);
    } else if q > i {
      MulLeft(i + 1, q, fw);
    }
  }

  /** The start of the next window is one window length further on. */
  lemma NextStart(k: nat, fw: nat)
    ensures (k + 1) * fw == k * fw + fw
  {
  }

  lemma MulLeft(a: nat, b: nat, c: nat)
    requires a <= b
    ensures a * c <= b * c
  {
  }

  /** Window `w` exists exactly when its start lies before the end of the class. */
  lemma WindowExists(w: nat, n: nat, fw: nat)
    requires fw > 0
    ensures w * fw < n <==> w < NumWindows(n, fw)
  {
    var q := (n + fw - 1) / fw;
    var r := (n + fw - 1) % fw;
    assert n + fw - 1 == q * fw + r;
    if w < q {
      MulLeft(w + 1, q, fw);
      assert w * fw + fw <= q * fw;
    } else {
      MulLeft(q, w, fw);
    }
  }

  /** After the last window the next start is at or past the end. */
  lemma WindowCount(k: nat, n: nat, fw: nat)
    requires fw > 0
    requires k * fw >= n && (k == 0 || (k - 1) * fw < n)
    ensures k == NumWindows(n, fw)
  {
    WindowExists(k, n, fw);
    if k > 0 {
      WindowExists(k - 1, n, fw);
    } else {
      assert n == 0;
    }
  }

  lemma {:induction false} RangeShape(from: nat, to: nat, step: nat)
    requires step > 0
    ensures forall i :: 0 <= i < |Range(from, to, step)| ==> Range(from, to, step)[i] == from + i * step
    ensures forall i: nat :: i < |Range(from, to, step)| <==> from + i * step < to
    decreases if from < to then to - from else 0
  {
    if from < to {
      var r := Range(from, to, step);
      var tail := Range(from + step, to, step);
      RangeShape(from + step, to, step);
      assert r == [from] + tail;
      forall i | 0 <= i < |r|
        ensures r[i] == from + i * step
      {
        if i > 0 {
          assert r[i] == tail[i - 1];
          assert from + step + (i - 1) * step == from + i * step;
        }
      }
      forall i: nat
        ensures i < |r| <==> from + i * step < to
      {
        if i > 0 {
          assert from + step + (i - 1) * step == from + i * step;
          assert i < |r| <==> i - 1 < |tail|;
        }
      }
    }
  }

  /** The window starts visited by `range(0, n, fw)` are exactly `0, fw, 2 fw, ...`
      below `n`: there are `NumWindows(n, fw)` of them and the `w`-th is `w * fw`. */
  lemma WindowStarts(n: nat, fw: nat)
    requires fw > 0
    ensures |Range(0, n, fw)| == NumWindows(n, fw)
    ensures forall w :: 0 <= w < NumWindows(n, fw) ==> Range(0, n, fw)[w] == w * fw
    ensures forall s: nat :: s in Range(0, n, fw) <==> s < n && s % fw == 0
  {
    var r := Range(0, n, fw);
    RangeShape(0, n, fw);
    var k := |r|;
    assert k * fw >= n;
    assert k == 0 || (k - 1) * fw < n;
    WindowCount(k, n, fw);
    forall s: nat
      ensures s in r <==> s < n && s % fw == 0
    {
      if s in r {
        var i :| 0 <= i < |r| && r[i] == s;
        MultipleOf(i, fw);
      }
      if s < n && s % fw == 0 {
        var i: nat := s / fw;
        assert s == i * fw;
        assert 0 + i * fw < n;
        assert 0 <= i < |r|;
        assert r[i] == 0 + i * fw;
      }
    }
  }

  /** The two endpoints of window `w`: the end is never before the start, at most
      one window length after it, and never past the last frame; it is the last
      frame exactly when the window is clamped. */
  lemma WindowBounds(w: nat, n: nat, fw: nat)
    requires fw > 0 && w * fw < n
    ensures var e := WindowEnd(w * fw, n, fw);
      w * fw <= e <= w * fw + fw && e <= n - 1 && (e == w * fw + fw || e == n - 1)
  {
  }

  /** A frame written by window `w` (in `[start, end)`) is never the last frame. */
  lemma LastFrameNeverWritten(w: nat, n: nat, fw: nat, g: nat)
    requires fw > 0 && w * fw < n
    requires w * fw <= g < WindowEnd(w * fw, n, fw)
    ensures g != n - 1
  {
  }

  /** Frame `g` lies in the write-back range of window `g / fw` and of no other. */
  lemma WindowOfFrame(g: nat, fw: nat)
    requires fw > 0
    ensures (g / fw) * fw <= g < (g / fw) * fw + fw
    ensures forall w: nat :: w * fw <= g < w * fw + fw ==> w == g / fw
  {
    var q := g / fw;
    assert g == q * fw + g % fw;
    forall w: nat | w * fw <= g < w * fw + fw
      ensures w == q
    {
      if w < q {
        MulLeft(w + 1, q, fw);
      } else if w > q {
        MulLeft(q + 1, w, fw);
      }
    }
  }

  /** The write-back ranges `[start, end)` of two different windows do not overlap:
      an earlier window ends at or before the next one starts. */
  lemma WindowsDisjoint(w1: nat, w2: nat, n: nat, fw: nat)
    requires fw > 0 && w1 < w2 && w2 * fw < n
    ensures WindowEnd(w1 * fw, n, fw) <= w2 * fw
  {
    MulLeft(w1 + 1, w2, fw);
    assert w1 * fw < n;
  }

  /** A window is empty (`end == start`) exactly when it starts on the last frame,
      which happens exactly when `n - 1` is a multiple of `fw`, and then it is the
      last window. */
  lemma EmptyWindow(w: nat, n: nat, fw: nat)
    requires fw > 0 && w * fw < n
    ensures WindowEnd(w * fw, n, fw) == w * fw <==> w * fw == n - 1
    ensures w * fw == n - 1 ==> (n - 1) % fw == 0 && w == NumWindows(n, fw) - 1
    ensures (n - 1) % fw == 0 ==> ((n - 1) / fw) * fw == n - 1 && (n - 1) / fw < NumWindows(n, fw)
  {
    if w * fw == n - 1 {
      MultipleOf(w, fw);
      WindowExists(w, n, fw);
      WindowExists(w + 1, n, fw);
    }
    if (n - 1) % fw == 0 {
      var q := (n - 1) / fw;
      assert n - 1 == q * fw + (n - 1) % fw;
      WindowExists(q, n, fw);
    }
  }
}
