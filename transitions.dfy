/** Stance transitions of the indicator column: np.where(np.diff(ind) == d). */
module Transitions {

  /** The indicator changes by exactly d between samples k and k + 1. */
  predicate IsEdge(ind: seq<int>, d: int, k: int)
  {
    0 <= k < |ind| - 1 && ind[k + 1] - ind[k] == d
  }

  predicate Increasing(s: seq<nat>)
  {
    forall j, k :: 0 <= j < k < |s| ==> s[j] < s[k]
  }

  /** np.where(np.diff(ind) == d)[0]: the positions k, scanned in order, at
      which the indicator changes by exactly d from sample k to sample k + 1. */
  function Edges(ind: seq<int>, d: int): (r: seq<nat>)
    ensures |r| <= if |ind| < 2 then 0 else |ind| - 1
    decreases |ind|
  {
    if |ind| < 2 then []
    else
      var n := |ind|;
      Edges(ind[..n - 1], d) + (if ind[n - 1] - ind[n - 2] == d then [n - 2] else [])
  }

  /** Edges lists every k with ind[k + 1] - ind[k] == d, and nothing else, in
      increasing order. */
  lemma EdgesSpec(ind: seq<int>, d: int)
    ensures Increasing(Edges(ind, d))
    ensures forall k: nat :: k in Edges(ind, d) <==> IsEdge(ind, d, k)
  {
    EdgesIncreasing(ind, d);
    EdgesMembers(ind, d);
  }

  /** Every listed position is a difference position: below |ind| - 1. */
  lemma {:induction false} EdgesRange(ind: seq<int>, d: int)
    ensures forall j :: 0 <= j < |Edges(ind, d)| ==> Edges(ind, d)[j] < |ind| - 1
    decreases |ind|
  {
    if |ind| >= 2 {
      EdgesRange(ind[..|ind| - 1], d);
    }
  }

  /** The positions are listed in strictly increasing order. */
  lemma {:induction false} EdgesIncreasing(ind: seq<int>, d: int)
    ensures Increasing(Edges(ind, d))
    decreases |ind|
  {
    if |ind| >= 2 {
      var n := |ind|;
      EdgesIncreasing(ind[..n - 1], d);
      EdgesRange(ind[..n - 1], d);
    }
  }

  /** The listed positions are exactly the positions of a change by d. */
  lemma {:induction false} EdgesMembers(ind: seq<int>, d: int)
    ensures forall k: nat :: k in Edges(ind, d) <==> IsEdge(ind, d, k)
    decreases |ind|
  {
    if |ind| >= 2 {
      var n := |ind|;
      EdgesMembers(ind[..n - 1], d);
      assert forall k: nat :: IsEdge(ind[..n - 1], d, k) <==> k < n - 2 && IsEdge(ind, d, k);
    }
  }

  /** diff_up: the rising edges, where the stance flag goes 0 -> 1. */
  function Onsets(ind: seq<int>): (r: seq<nat>)
    ensures |r| <= if |ind| < 2 then 0 else |ind| - 1
  {
    Edges(ind, 1)
  }

  /** diff_down: the falling edges, where the flag goes 1 -> 0, without the
      first one (an artifact of the ground-truth annotation). Offset j is
      the (j + 1)-th falling edge. */
  function Offsets(ind: seq<int>): (r: seq<nat>)
    ensures |r| == if |Edges(ind, -1)| == 0 then 0 else |Edges(ind, -1)| - 1
    ensures forall j :: 0 <= j < |r| ==> r[j] == Edges(ind, -1)[j + 1]
  {
    var falls := Edges(ind, -1);
    if |falls| == 0 then [] else falls[1..]
  }

  /** The onsets are exactly the rising edges, in increasing order. */
  lemma OnsetsSpec(ind: seq<int>)
    ensures Increasing(Onsets(ind))
    ensures forall k: nat :: k in Onsets(ind) <==> IsEdge(ind, 1, k)
  {
    EdgesSpec(ind, 1);
  }

  /** The offsets are exactly the falling edges that have an earlier falling
      edge, in increasing order. */
  lemma OffsetsSpec(ind: seq<int>)
    ensures Increasing(Offsets(ind))
    ensures forall k: nat :: k in Offsets(ind) <==>
      IsEdge(ind, -1, k) && exists e: nat :: e < k && IsEdge(ind, -1, e)
  {
    var falls := Edges(ind, -1);
    var r := Offsets(ind);
    EdgesSpec(ind, -1);
    forall k: nat
      ensures k in r <==> IsEdge(ind, -1, k) && exists e: nat :: e < k && IsEdge(ind, -1, e)
    {
      if k in r {
        var j :| 0 <= j < |r| && r[j] == k;
        assert falls[0] in falls && falls[j + 1] in falls;
      }
      if IsEdge(ind, -1, k) && exists e: nat :: e < k && IsEdge(ind, -1, e) {
        var e: nat :| e < k && IsEdge(ind, -1, e);
        assert e in falls;
        assert k in falls;
        var j :| 0 <= j < |falls| && falls[j] == k;
        var i :| 0 <= i < |falls| && falls[i] == e;
        assert j != 0;
        assert r[j - 1] == k;
      }
    }
  }

  /** A strictly increasing sequence is determined by the set of its elements;
      so Edges is the only increasing enumeration of the edges. */
  lemma {:induction false} IncreasingUnique(a: seq<nat>, b: seq<nat>)
    requires Increasing(a) && Increasing(b)
    requires forall k: nat :: k in a <==> k in b
    ensures a == b
    decreases |a|
  {
    if a == [] || b == [] {
      HeadIsMember(a);
      HeadIsMember(b);
    } else {
      assert a[0] in b;
      assert b[0] in a;
      assert a[0] == b[0] by {
        var i :| 0 <= i < |b| && b[i] == a[0];
        var j :| 0 <= j < |a| && a[j] == b[0];
        assert b[0] <= a[0] && a[0] <= b[0];
      }
      forall k: nat
        ensures k in a[1..] <==> k in b[1..]
      {
        if k in a[1..] {
          var i :| 1 <= i < |a| && a[i] == k;
          assert k in b;
          assert k != b[0];
        }
        if k in b[1..] {
          var i :| 1 <= i < |b| && b[i] == k;
          assert k in a;
          assert k != a[0];
        }
      }
      IncreasingUnique(a[1..], b[1..]);
    }
  }

  lemma HeadIsMember(s: seq<nat>)
    ensures s != [] ==> s[0] in s
  {
  }

  lemma EdgesUnique(ind: seq<int>, d: int, r: seq<nat>)
    requires Increasing(r)
    requires forall k: nat :: k in r <==> IsEdge(ind, d, k)
    ensures r == Edges(ind, d)
  {
    EdgesSpec(ind, d);
    IncreasingUnique(r, Edges(ind, d));
  }

  /** The indicator [0,1,1,0,0,1,1,1,0,0,1,1,0]: np.diff is +1 at 0, 4 and 9
      and -1 at 2, 7 and 11; the first falling edge is dropped. */
  lemma ThreeStepExample()
    ensures Onsets([0, 1, 1, 0, 0, 1, 1, 1, 0, 0, 1, 1, 0]) == [0, 4, 9]
    ensures Offsets([0, 1, 1, 0, 0, 1, 1, 1, 0, 0, 1, 1, 0]) == [7, 11]
  {
    var ind := [0, 1, 1, 0, 0, 1, 1, 1, 0, 0, 1, 1, 0];
    EdgesUnique(ind, 1, [0, 4, 9]);
    EdgesUnique(ind, -1, [2, 7, 11]);
  }
}
