/** Length normalisation of one raw step window to the target length T:
    a symmetric crop when the window is longer, numpy 'reflect' padding split
    symmetrically when it is not longer. Generic in the row type, because the
    loader applies the same operation to the accelerometer and the gyroscope
    parts separately. */
module Normalization {

  /** Rows cut from the front and from the back when L rows are cropped to T:
      together the excess, split as evenly as possible, the odd row at the back. */
  function CropSizes(L: nat, T: nat): (r: (nat, nat))
    requires L > T
    ensures r.0 + r.1 == L - T
    ensures r.0 <= r.1 <= r.0 + 1
  {
    var cut := L - T;
    (cut / 2, cut - cut / 2)
  }

  /** Rows added in front and at the back when L rows are padded to T:
      together the deficit, split as evenly as possible, the odd row at the back. */
  function PadSizes(L: nat, T: nat): (r: (nat, nat))
    requires L <= T
    ensures r.0 + r.1 == T - L
    ensures r.0 <= r.1 <= r.0 + 1
  {
    var pad := T - L;
    (pad / 2, pad - pad / 2)
  }

  /** The symmetric crop s[left : len(s) - right]: what is left once the
      front and back rows of CropSizes are removed. */
  function Crop<X>(s: seq<X>, T: nat): (r: seq<X>)
    requires |s| > T
    ensures |r| == T
  {
    var (left, right) := CropSizes(|s|, T);
    s[left..|s| - right]
  }

  /** The row of an L-row sequence that numpy's 'reflect' padding shows at the
      virtual position p (p < 0 before the first row, p >= L after the last):
      the sequence is mirrored about its first row and about its last row,
      neither of which is repeated, as often as p requires. */
  function Mirror(L: nat, p: int): (m: nat)
    requires L >= 1
    ensures m < L
    ensures 0 <= p < L ==> m == p
    decreases if p < 0 then -p else p, if p < 0 then 1 else 0
  {
    if 0 <= p < L then p
    else if L == 1 then 0
    else if p < 0 then Mirror(L, -p)
    else Mirror(L, 2 * (L - 1) - p)
  }

  /** np.pad(s, (left, right), 'reflect'): left mirrored rows, s itself, and
      right mirrored rows. */
  function ReflectPad<X>(s: seq<X>, left: nat, right: nat): (r: seq<X>)
    requires |s| >= 1
    ensures |r| == left + |s| + right
  {
    var front := seq(left, j requires 0 <= j < left => s[Mirror(|s|, j - left)]);
    var back := seq(right, j requires 0 <= j < right => s[Mirror(|s|, |s| + j)]);
    front + s + back
  }

  /** Row j of the padded sequence is the row Mirror shows at position
      j - left: the pad rows reflect s, and the middle rows are s itself. */
  lemma ReflectPadRows<X>(s: seq<X>, left: nat, right: nat)
    requires |s| >= 1
    ensures forall j :: 0 <= j < left + |s| + right ==>
      ReflectPad(s, left, right)[j] == s[Mirror(|s|, j - left)]
  {
    var front := seq(left, j requires 0 <= j < left => s[Mirror(|s|, j - left)]);
    var back := seq(right, j requires 0 <= j < right => s[Mirror(|s|, |s| + j)]);
    var r := front + s + back;
    assert r == ReflectPad(s, left, right);
    assert forall j :: left <= j < left + |s| ==> r[j] == s[j - left];
    assert forall j :: left + |s| <= j < |r| ==> r[j] == back[j - left - |s|];
  }

  /** Padding narrower than the window is a single reflection: front row j is
      s[left - j] and back row t (output row left + |s| + t) is s[|s| - 2 - t],
      so the edge rows s[0] and s[|s| - 1] are not repeated. */
  lemma {:induction false} ReflectPadSingle<X>(s: seq<X>, left: nat, right: nat)
    requires 1 <= |s|
    requires left < |s| && right < |s|
    ensures forall j :: 0 <= j < left ==> ReflectPad(s, left, right)[j] == s[left - j]
    ensures forall j :: left + |s| <= j < left + |s| + right ==>
      ReflectPad(s, left, right)[j] == s[2 * |s| + left - 2 - j]
  {
    var r := ReflectPad(s, left, right);
    ReflectPadRows(s, left, right);
    forall j | 0 <= j < left
      ensures r[j] == s[left - j]
    {
      assert Mirror(|s|, j - left) == Mirror(|s|, left - j);
    }
    forall j | left + |s| <= j < left + |s| + right
      ensures r[j] == s[2 * |s| + left - 2 - j]
    {
      assert Mirror(|s|, j - left) == Mirror(|s|, 2 * |s| + left - 2 - j);
    }
  }

  /** The input row that output row k of Normalize(s, T) comes from, when s
      has L rows. */
  function SourceRow(L: nat, T: nat, k: nat): (i: nat)
    requires L >= 1 && k < T
    ensures i < L
  {
    if L > T then CropSizes(L, T).0 + k
    else Mirror(L, k - PadSizes(L, T).0)
  }

  /** Crop when longer than T, reflect-pad otherwise. */
  function Normalize<X>(s: seq<X>, T: nat): (r: seq<X>)
    requires |s| >= 1
    ensures |r| == T
  {
    if |s| > T then Crop(s, T)
    else
      var (left, right) := PadSizes(|s|, T);
      ReflectPad(s, left, right)
  }

  /** Output row k of Normalize(s, T) is input row SourceRow(|s|, T, k). */
  lemma NormalizeRows<X>(s: seq<X>, T: nat)
    requires |s| >= 1
    ensures forall k :: 0 <= k < T ==> Normalize(s, T)[k] == s[SourceRow(|s|, T, k)]
  {
    if |s| <= T {
      var (left, right) := PadSizes(|s|, T);
      ReflectPadRows(s, left, right);
    }
  }

  /** Normalize is the source's two branches: the slice s[left : len(s) - right]
      when s is longer than T, np.pad with PadSizes otherwise. */
  lemma NormalizeBranches<X>(s: seq<X>, T: nat)
    requires |s| >= 1
    ensures |s| > T ==> Normalize(s, T) == s[CropSizes(|s|, T).0..|s| - CropSizes(|s|, T).1]
    ensures |s| <= T ==> Normalize(s, T) == ReflectPad(s, PadSizes(|s|, T).0, PadSizes(|s|, T).1)
  {
  }

  /** A cropped window is the input with CropSizes(L, T).0 rows removed in
      front and CropSizes(L, T).1 rows at the back. */
  lemma CropRows<X>(s: seq<X>, T: nat)
    requires |s| > T
    ensures var (left, right) := CropSizes(|s|, T);
      s == s[..left] + Normalize(s, T) + s[|s| - right..]
  {
    var (left, right) := CropSizes(|s|, T);
    assert Normalize(s, T) == s[left..|s| - right];
    assert s == s[..left] + s[left..|s| - right] + s[|s| - right..];
  }

  /** A padded window holds the raw rows unchanged in its middle, starting at
      row PadSizes(L, T).0. */
  lemma PadKeepsRaw<X>(s: seq<X>, T: nat)
    requires 1 <= |s| <= T
    ensures Normalize(s, T)[PadSizes(|s|, T).0..PadSizes(|s|, T).0 + |s|] == s
  {
    var left := PadSizes(|s|, T).0;
    var r := Normalize(s, T);
    NormalizeRows(s, T);
    forall j | 0 <= j < |s|
      ensures r[left..left + |s|][j] == s[j]
    {
      assert r[left + j] == s[SourceRow(|s|, T, left + j)];
    }
  }

  /** A window that already has T rows is left as it is. */
  lemma NormalizeExact<X>(s: seq<X>)
    requires |s| >= 1
    ensures Normalize(s, |s|) == s
  {
    PadKeepsRaw(s, |s|);
  }

  /** The crop-or-pad step of the segmenter, applied with the same sizes to
      the accelerometer rows and to the gyroscope rows of one raw window. */
  method CropOrPad<X>(acc: seq<X>, gyro: seq<X>, T: nat) returns (a: seq<X>, g: seq<X>)
    requires 1 <= |acc| == |gyro|
    ensures a == Normalize(acc, T) && g == Normalize(gyro, T)
  {
    NormalizeBranches(acc, T);
    NormalizeBranches(gyro, T);
    if |acc| > T {
      var cuttingSize := |acc| - T;
      var cutLeft := cuttingSize / 2;
      var cutRight := cuttingSize - cutLeft;
      a := acc[cutLeft..|acc| - cutRight];
      g := gyro[cutLeft..|gyro| - cutRight];
    } else {
      var padRight := T - |acc|;
      var padLeft := padRight / 2;
      padRight := padRight - padLeft;
      a := ReflectPad(acc, padLeft, padRight);
      g := ReflectPad(gyro, padLeft, padRight);
    }
  }
}
