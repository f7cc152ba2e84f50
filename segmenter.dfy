/** What one call of the step segmenter produces, stated as functions of its
    inputs: which interior step positions yield a window, the raw rows each
    window is cut from, and the normalised six-column window. */
module Segmenter {
  import opened Signal
  import opened Transitions
  import opened Normalization

  /** Raw step windows with fewer rows than this are dropped as pulse artifacts. */
  const MinStepRows: nat := 50

  /** A step window, the array np.concatenate((acc, gyro), axis=1): rows of
      six columns, accelerometer 0-2 then gyroscope 3-5. */
  datatype Window = Window(rows: seq<seq<real>>)

  /** The window has T rows of six columns. */
  predicate Shaped(w: Window, T: nat)
  {
    |w.rows| == T && forall k :: 0 <= k < |w.rows| ==> |w.rows[k]| == 6
  }

  /** int(buf / 2): half the buffer, truncated toward zero. */
  function Half(buf: int): (h: int)
    ensures buf >= 0 ==> 0 <= buf - 2 * h <= 1
    ensures buf < 0 ==> 0 <= 2 * h - buf <= 1
  {
    if buf >= 0 then buf / 2 else -((-buf) / 2)
  }

  /** The loop np.arange(1, len(seg) - 1) visits exactly the positions that
      are neither the first nor the last. */
  predicate Interior(seg: seq<nat>, i: int)
  {
    1 <= i < |seg| - 1
  }

  /** Every interior step has an onset and an offset (otherwise indexing
      diff_up or diff_down raises IndexError). */
  predicate Segmentable(ind: seq<int>, seg: seq<nat>): (b: bool)
    ensures |seg| <= 2 ==> b
  {
    forall i :: 1 <= i < |seg| - 1 ==> seg[i] < |Onsets(ind)| && seg[i] < |Offsets(ind)|
  }

  /** The rows [a, b) that the slice
      data[onset - int(buf/2) : offset + int(buf/2)] selects. */
  function StepBounds(ind: seq<int>, seg: seq<nat>, buf: int, i: int): (r: (nat, nat))
    requires Segmentable(ind, seg) && Interior(seg, i)
    ensures r.0 <= r.1 <= |ind|
  {
    SliceBounds(|ind|, Onsets(ind)[seg[i]] - Half(buf), Offsets(ind)[seg[i]] + Half(buf))
  }

  /** len(acc) for step position i. */
  function StepRowCount(ind: seq<int>, seg: seq<nat>, buf: int, i: int): (n: nat)
    requires Segmentable(ind, seg) && Interior(seg, i)
    ensures n <= |ind|
  {
    StepBounds(ind, seg, buf, i).1 - StepBounds(ind, seg, buf, i).0
  }

  /** When the requested bounds lie inside the signal, the raw window is exactly
      rows onset - int(buf/2) up to, not including, offset + int(buf/2). */
  lemma StepBoundsInside(ind: seq<int>, seg: seq<nat>, buf: int, i: int)
    requires Segmentable(ind, seg) && Interior(seg, i)
    requires 0 <= Onsets(ind)[seg[i]] - Half(buf) <= Offsets(ind)[seg[i]] + Half(buf) <= |ind|
    ensures StepBounds(ind, seg, buf, i) ==
      (Onsets(ind)[seg[i]] - Half(buf), Offsets(ind)[seg[i]] + Half(buf))
    ensures StepRowCount(ind, seg, buf, i) ==
      Offsets(ind)[seg[i]] - Onsets(ind)[seg[i]] + 2 * Half(buf)
  {
  }

  /** Step position i yields a window: it is interior and its raw window has
      at least MinStepRows rows. */
  predicate Kept(ind: seq<int>, seg: seq<nat>, buf: int, i: int): (b: bool)
    requires Segmentable(ind, seg)
    ensures b ==> 1 <= i <= |seg| - 2 && MinStepRows <= |ind|
  {
    Interior(seg, i) && StepRowCount(ind, seg, buf, i) >= MinStepRows
  }

  /** The kept positions among 1 .. n - 1, in increasing order. */
  function KeptBelow(ind: seq<int>, seg: seq<nat>, buf: int, n: nat): (r: seq<nat>)
    requires Segmentable(ind, seg)
    requires 1 <= n && (n == 1 || n <= |seg| - 1)
    ensures |r| <= n - 1
  {
    if n == 1 then []
    else KeptBelow(ind, seg, buf, n - 1) + (if Kept(ind, seg, buf, n - 1) then [n - 1] else [])
  }

  /** KeptBelow(n) lists exactly the kept positions below n, in increasing order. */
  lemma KeptBelowSpec(ind: seq<int>, seg: seq<nat>, buf: int, n: nat)
    requires Segmentable(ind, seg)
    requires 1 <= n && (n == 1 || n <= |seg| - 1)
    ensures Increasing(KeptBelow(ind, seg, buf, n))
    ensures forall i: nat :: i in KeptBelow(ind, seg, buf, n) <==> i < n && Kept(ind, seg, buf, i)
  {
    KeptBelowIncreasing(ind, seg, buf, n);
    KeptBelowMembers(ind, seg, buf, n);
  }

  /** Every position KeptBelow(n) lists lies in 1 .. n - 1. */
  lemma {:induction false} KeptBelowRange(ind: seq<int>, seg: seq<nat>, buf: int, n: nat)
    requires Segmentable(ind, seg)
    requires 1 <= n && (n == 1 || n <= |seg| - 1)
    ensures forall j :: 0 <= j < |KeptBelow(ind, seg, buf, n)| ==> 1 <= KeptBelow(ind, seg, buf, n)[j] < n
  {
    if n > 1 {
      KeptBelowRange(ind, seg, buf, n - 1);
    }
  }

  /** KeptBelow(n) is strictly increasing. */
  lemma {:induction false} KeptBelowIncreasing(ind: seq<int>, seg: seq<nat>, buf: int, n: nat)
    requires Segmentable(ind, seg)
    requires 1 <= n && (n == 1 || n <= |seg| - 1)
    ensures Increasing(KeptBelow(ind, seg, buf, n))
  {
    if n > 1 {
      KeptBelowIncreasing(ind, seg, buf, n - 1);
      KeptBelowRange(ind, seg, buf, n - 1);
      AppendIf(KeptBelow(ind, seg, buf, n - 1), n - 1, Kept(ind, seg, buf, n - 1));
    }
  }

  /** KeptBelow(n) holds exactly the kept positions below n. */
  lemma {:induction false} KeptBelowMembers(ind: seq<int>, seg: seq<nat>, buf: int, n: nat)
    requires Segmentable(ind, seg)
    requires 1 <= n && (n == 1 || n <= |seg| - 1)
    ensures forall i: nat :: i in KeptBelow(ind, seg, buf, n) <==> i < n && Kept(ind, seg, buf, i)
  {
    if n > 1 {
      var prev := KeptBelow(ind, seg, buf, n - 1);
      var last := Kept(ind, seg, buf, n - 1);
      KeptBelowMembers(ind, seg, buf, n - 1);
      assert KeptBelow(ind, seg, buf, n) == prev + (if last then [n - 1] else []);
      forall i: nat
        ensures i in KeptBelow(ind, seg, buf, n) <==> i < n && Kept(ind, seg, buf, i)
      {
        InAppendIf(prev, n - 1, last, i, Kept(ind, seg, buf, i));
      }
    }
  }

  /** If prev holds exactly the positions below m that have property p, and
      m is appended exactly when m has it, the result holds exactly the
      positions up to m that have it (seen from one position i, whose p is
      given). */
  lemma InAppendIf(prev: seq<nat>, m: nat, c: bool, i: nat, p: bool)
    requires i in prev <==> i < m && p
    requires i == m ==> (c <==> p)
    ensures i in prev + (if c then [m] else []) <==> i <= m && p
  {
  }

  /** Appending a larger position, or nothing, keeps a sequence increasing
      and adds exactly that position. */
  lemma AppendIf(prev: seq<nat>, m: nat, c: bool)
    requires Increasing(prev) && forall j :: 0 <= j < |prev| ==> prev[j] < m
    ensures Increasing(prev + (if c then [m] else []))
    ensures forall i: nat :: i in prev + (if c then [m] else []) <==> i in prev || (c && i == m)
  {
  }

  /** The end of np.arange(1, len(seg) - 1), never below its start. */
  function LoopEnd(seg: seq<nat>): nat
  {
    if |seg| >= 2 then |seg| - 1 else 1
  }

  /** The step positions that append a window, in the order they are appended:
      at most len(seg) - 2 of them, and none when len(seg) <= 2. */
  function KeptSteps(ind: seq<int>, seg: seq<nat>, buf: int): (r: seq<nat>)
    requires Segmentable(ind, seg)
    ensures |r| <= if |seg| >= 2 then |seg| - 2 else 0
  {
    KeptBelow(ind, seg, buf, LoopEnd(seg))
  }

  /** The step positions that append a window are exactly the interior
      positions whose raw window has at least MinStepRows rows, in increasing
      order. */
  lemma KeptStepsSpec(ind: seq<int>, seg: seq<nat>, buf: int)
    requires Segmentable(ind, seg)
    ensures Increasing(KeptSteps(ind, seg, buf))
    ensures forall i: nat :: i in KeptSteps(ind, seg, buf) <==> Kept(ind, seg, buf, i)
  {
    KeptBelowSpec(ind, seg, buf, LoopEnd(seg));
  }

  /** When no interior raw window is short, every interior position is kept:
      KeptBelow(n) is 1, 2, .., n - 1. */
  lemma {:induction false} KeptBelowAll(ind: seq<int>, seg: seq<nat>, buf: int, n: nat)
    requires Segmentable(ind, seg)
    requires 1 <= n && (n == 1 || n <= |seg| - 1)
    requires forall i :: Interior(seg, i) ==> StepRowCount(ind, seg, buf, i) >= MinStepRows
    ensures |KeptBelow(ind, seg, buf, n)| == n - 1
    ensures forall j :: 0 <= j < n - 1 ==> KeptBelow(ind, seg, buf, n)[j] == j + 1
  {
    if n > 1 {
      KeptBelowAll(ind, seg, buf, n - 1);
      assert Kept(ind, seg, buf, n - 1);
    }
  }

  /** When no interior raw window is short, the loop appends a window for
      every interior position: positions 1 .. len(seg) - 2, in order. */
  lemma AllStepsKept(ind: seq<int>, seg: seq<nat>, buf: int)
    requires Segmentable(ind, seg) && |seg| >= 2
    requires forall i :: Interior(seg, i) ==> StepRowCount(ind, seg, buf, i) >= MinStepRows
    ensures |KeptSteps(ind, seg, buf)| == |seg| - 2
    ensures forall j :: 0 <= j < |seg| - 2 ==> KeptSteps(ind, seg, buf)[j] == j + 1
  {
    KeptBelowAll(ind, seg, buf, LoopEnd(seg));
  }

  /** np.concatenate((acc, gyro), axis=1): row k is the accelerometer row
      followed by the gyroscope row. */
  function Concat(acc: seq<Vec3>, gyro: seq<Vec3>): (w: seq<seq<real>>)
    requires |acc| == |gyro|
    ensures |w| == |acc|
    ensures forall k :: 0 <= k < |w| ==> |w[k]| == 6
  {
    seq(|acc|, k requires 0 <= k < |acc| => acc[k].Channels() + gyro[k].Channels())
  }

  /** Row k of the concatenation: columns 0-2 are acc[k], columns 3-5 gyro[k]. */
  lemma ConcatRows(acc: seq<Vec3>, gyro: seq<Vec3>, k: nat)
    requires |acc| == |gyro| && k < |acc|
    ensures Concat(acc, gyro)[k][..3] == acc[k].Channels()
    ensures Concat(acc, gyro)[k][3..] == gyro[k].Channels()
  {
    var w := Concat(acc, gyro);
    assert w[k] == acc[k].Channels() + gyro[k].Channels();
  }

  function AccRows(raw: seq<Sample>): (a: seq<Vec3>)
    ensures |a| == |raw| && forall k :: 0 <= k < |raw| ==> a[k] == raw[k].acc
  {
    seq(|raw|, k requires 0 <= k < |raw| => raw[k].acc)
  }

  function GyroRows(raw: seq<Sample>): (g: seq<Vec3>)
    ensures |g| == |raw| && forall k :: 0 <= k < |raw| ==> g[k] == raw[k].gyro
  {
    seq(|raw|, k requires 0 <= k < |raw| => raw[k].gyro)
  }

  /** The raw rows of step position i in the (converted) signal y. */
  function RawStep(y: seq<Sample>, seg: seq<nat>, buf: int, i: int): (raw: seq<Sample>)
    requires Segmentable(Stances(y), seg) && Interior(seg, i)
    ensures |raw| == StepRowCount(Stances(y), seg, buf, i)
  {
    var (a, b) := StepBounds(Stances(y), seg, buf, i);
    y[a..b]
  }

  /** The window appended for kept step position i: the accelerometer and
      gyroscope parts of the raw rows, each normalised to T rows, side by side. */
  function StepWindow(y: seq<Sample>, seg: seq<nat>, buf: int, T: nat, i: int): (w: Window)
    requires Segmentable(Stances(y), seg) && Kept(Stances(y), seg, buf, i)
    ensures Shaped(w, T)
  {
    var raw := RawStep(y, seg, buf, i);
    Window(Concat(Normalize(AccRows(raw), T), Normalize(GyroRows(raw), T)))
  }

  /** The accelerometer and gyroscope parts are cut with the same bounds and
      normalised the same way, so each window row is one raw row: columns 0-2
      its accelerometer and columns 3-5 its gyroscope channels. */
  lemma StepWindowRows(y: seq<Sample>, seg: seq<nat>, buf: int, T: nat, i: int, k: nat)
    requires Segmentable(Stances(y), seg) && Kept(Stances(y), seg, buf, i)
    requires k < T
    ensures var raw := RawStep(y, seg, buf, i);
      StepWindow(y, seg, buf, T, i).rows[k] ==
        raw[SourceRow(|raw|, T, k)].acc.Channels() + raw[SourceRow(|raw|, T, k)].gyro.Channels()
  {
    var raw := RawStep(y, seg, buf, i);
    var acc := Normalize(AccRows(raw), T);
    var gyro := Normalize(GyroRows(raw), T);
    NormalizeRows(AccRows(raw), T);
    NormalizeRows(GyroRows(raw), T);
    ConcatRows(acc, gyro, k);
    var w := StepWindow(y, seg, buf, T, i).rows;
    assert w[k] == w[k][..3] + w[k][3..];
  }

  /** The windows appended by the loop iterations for positions 1 .. n - 1:
      one for each kept position, in order. */
  function WindowsBelow(y: seq<Sample>, seg: seq<nat>, buf: int, T: nat, n: nat): (ws: seq<Window>)
    requires Segmentable(Stances(y), seg)
    requires 1 <= n && (n == 1 || n <= |seg| - 1)
    ensures |ws| == |KeptBelow(Stances(y), seg, buf, n)|
    ensures forall j :: 0 <= j < |ws| ==> Shaped(ws[j], T)
  {
    if n == 1 then []
    else
      WindowsBelow(y, seg, buf, T, n - 1) +
      (if Kept(Stances(y), seg, buf, n - 1) then [StepWindow(y, seg, buf, T, n - 1)] else [])
  }

  /** labels[i] exists for every kept position (it is only read for those). */
  predicate LabelsCover(ind: seq<int>, seg: seq<nat>, buf: int, labels: seq<real>): (b: bool)
    requires Segmentable(ind, seg)
    ensures |labels| >= |seg| - 1 ==> b
  {
    forall i :: 1 <= i < |seg| - 1 && StepRowCount(ind, seg, buf, i) >= MinStepRows ==> i < |labels|
  }

  /** The labels appended by the loop iterations for positions 1 .. n - 1:
      labels[i] for each kept position i, in order. */
  function LabelsBelow(ind: seq<int>, seg: seq<nat>, buf: int, labels: seq<real>, n: nat): (ls: seq<real>)
    requires Segmentable(ind, seg) && LabelsCover(ind, seg, buf, labels)
    requires 1 <= n && (n == 1 || n <= |seg| - 1)
    ensures |ls| == |KeptBelow(ind, seg, buf, n)|
  {
    if n == 1 then []
    else
      LabelsBelow(ind, seg, buf, labels, n - 1) +
      (if Kept(ind, seg, buf, n - 1) then [labels[n - 1]] else [])
  }

  /** One more iteration appends the window and the label of position n, if kept. */
  lemma BelowStep(y: seq<Sample>, seg: seq<nat>, buf: int, T: nat, labels: seq<real>, n: nat)
    requires Segmentable(Stances(y), seg) && LabelsCover(Stances(y), seg, buf, labels)
    requires 1 <= n < |seg| - 1
    ensures WindowsBelow(y, seg, buf, T, n + 1) == WindowsBelow(y, seg, buf, T, n) +
      if Kept(Stances(y), seg, buf, n) then [StepWindow(y, seg, buf, T, n)] else []
    ensures LabelsBelow(Stances(y), seg, buf, labels, n + 1) == LabelsBelow(Stances(y), seg, buf, labels, n) +
      if Kept(Stances(y), seg, buf, n) then [labels[n]] else []
  {
  }

  /** Window j and label j appended by the first iterations both come from
      the j-th kept position. */
  lemma {:induction false} BelowRows(y: seq<Sample>, seg: seq<nat>, buf: int, T: nat, labels: seq<real>, n: nat)
    requires Segmentable(Stances(y), seg) && LabelsCover(Stances(y), seg, buf, labels)
    requires 1 <= n && (n == 1 || n <= |seg| - 1)
    ensures forall j :: 0 <= j < |KeptBelow(Stances(y), seg, buf, n)| ==>
      var i := KeptBelow(Stances(y), seg, buf, n)[j];
      Kept(Stances(y), seg, buf, i) &&
      WindowsBelow(y, seg, buf, T, n)[j] == StepWindow(y, seg, buf, T, i) &&
      LabelsBelow(Stances(y), seg, buf, labels, n)[j] == labels[i]
  {
    if n > 1 {
      var ind := Stances(y);
      BelowRows(y, seg, buf, T, labels, n - 1);
      var prev := KeptBelow(ind, seg, buf, n - 1);
      var ks := KeptBelow(ind, seg, buf, n);
      var ws := WindowsBelow(y, seg, buf, T, n);
      var ls := LabelsBelow(ind, seg, buf, labels, n);
      assert forall j :: 0 <= j < |prev| ==>
        ks[j] == prev[j] && ws[j] == WindowsBelow(y, seg, buf, T, n - 1)[j] &&
        ls[j] == LabelsBelow(ind, seg, buf, labels, n - 1)[j];
    }
  }

  /** All windows one segmenter call appends, for the converted signal y. */
  function Windows(y: seq<Sample>, seg: seq<nat>, buf: int, T: nat): (ws: seq<Window>)
    requires Segmentable(Stances(y), seg)
    ensures |ws| == |KeptSteps(Stances(y), seg, buf)|
    ensures forall j :: 0 <= j < |ws| ==> Shaped(ws[j], T)
  {
    WindowsBelow(y, seg, buf, T, LoopEnd(seg))
  }

  /** All labels one segmenter call appends. */
  function StepLabels(ind: seq<int>, seg: seq<nat>, buf: int, labels: seq<real>): (ls: seq<real>)
    requires Segmentable(ind, seg) && LabelsCover(ind, seg, buf, labels)
    ensures |ls| == |KeptSteps(ind, seg, buf)|
  {
    LabelsBelow(ind, seg, buf, labels, LoopEnd(seg))
  }

  /** Where the loop over np.arange(1, len(seg) - 1) stops, the iterations
      have appended all the windows and labels of the call. */
  lemma BelowAtEnd(y: seq<Sample>, seg: seq<nat>, buf: int, T: nat, labels: seq<real>, i: nat)
    requires Segmentable(Stances(y), seg) && LabelsCover(Stances(y), seg, buf, labels)
    requires 1 <= i <= LoopEnd(seg) && !(i < |seg| - 1)
    ensures WindowsBelow(y, seg, buf, T, i) == Windows(y, seg, buf, T)
    ensures LabelsBelow(Stances(y), seg, buf, labels, i) == StepLabels(Stances(y), seg, buf, labels)
  {
  }

  /** Window j and label j come from the same step position: the j-th kept
      one; a skipped step shifts neither sequence against the other. */
  lemma WindowsMatchLabels(y: seq<Sample>, seg: seq<nat>, buf: int, T: nat, labels: seq<real>, j: nat)
    requires Segmentable(Stances(y), seg) && LabelsCover(Stances(y), seg, buf, labels)
    requires j < |KeptSteps(Stances(y), seg, buf)|
    ensures |Windows(y, seg, buf, T)| == |StepLabels(Stances(y), seg, buf, labels)|
    ensures var i := KeptSteps(Stances(y), seg, buf)[j];
      Kept(Stances(y), seg, buf, i) &&
      Windows(y, seg, buf, T)[j] == StepWindow(y, seg, buf, T, i) &&
      StepLabels(Stances(y), seg, buf, labels)[j] == labels[i]
  {
    BelowRows(y, seg, buf, T, labels, LoopEnd(seg));
  }
}
