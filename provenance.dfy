/** The bookkeeping that locates each recording's steps in the dataset: the
    running step counter init_step, the provenance table that add_extra_info
    grows by one row per recording, and the dataset as the concatenation of
    the per-recording parts. */
module Provenance {

  /** What the file path says about a recording: the subject and trial numbers
      of the file name, the walking type of its directory and the side letter. */
  datatype FileInfo = FileInfo(subjectID: string, walkingType: string, trial: string, side: char)

  /** One row of the provenance table subject_dict. */
  datatype ProvenanceRow = ProvenanceRow(
    subjectID: string, walkingType: string, startSteps: int, endSteps: int, trial: string, side: char)

  predicate Describes(row: ProvenanceRow, info: FileInfo)
  {
    row.subjectID == info.subjectID && row.walkingType == info.walkingType &&
    row.trial == info.trial && row.side == info.side
  }

  /** add_extra_info: the table with one more row at its end, for this file,
      numbered from initStep to endSteps; earlier rows are untouched. */
  function AddExtraInfo(info: FileInfo, initStep: int, endSteps: int, rows: seq<ProvenanceRow>)
    : (r: seq<ProvenanceRow>)
    ensures |r| == |rows| + 1 && r[..|rows|] == rows
    ensures Describes(r[|rows|], info)
    ensures r[|rows|].startSteps == initStep && r[|rows|].endSteps == endSteps
  {
    rows + [ProvenanceRow(info.subjectID, info.walkingType, initStep, endSteps, info.trial, info.side)]
  }

  /** end_steps of the row of a recording with step positions seg that
      starts at initStep: seg_index[-1] + init_step, minus 2 when the first
      and last steps are discarded. */
  function EndStep(seg: seq<nat>, initStep: int, discard: bool): (e: int)
    requires |seg| >= 1
    ensures e >= initStep - (if discard then 2 else 0)
  {
    seg[|seg| - 1] + initStep - (if discard then 2 else 0)
  }

  /** How far init_step advances for a recording with step positions seg:
      len(seg) - 2 when the first and last steps are discarded, else len(seg). */
  function Advance(seg: seq<nat>, discard: bool): (a: int)
    ensures a <= |seg| && (!discard ==> a >= 0)
  {
    if discard then |seg| - 2 else |seg|
  }

  /** The value of init_step once the first n recordings, with the given
      step positions, are processed. */
  function InitStep(segs: seq<seq<nat>>, n: nat, discard: bool): (s: int)
    requires n <= |segs|
    ensures !discard ==> s >= 0
  {
    if n == 0 then 0
    else InitStep(segs, n - 1, discard) + Advance(segs[n - 1], discard)
  }

  /** Every recording has a step position, so seg_index[-1] exists. */
  predicate NonEmpty(segs: seq<seq<nat>>)
  {
    forall k :: 0 <= k < |segs| ==> |segs[k]| >= 1
  }

  /** The provenance table after the first n recordings with the given path
      information and step positions: row k describes recording k, starts at
      the init_step reached before it, and ends at seg_index[-1] + init_step
      (minus 2 when the first and last steps are discarded). */
  function ProvenanceRows(infos: seq<FileInfo>, segs: seq<seq<nat>>, n: nat, discard: bool)
    : (rows: seq<ProvenanceRow>)
    requires |infos| == |segs| && NonEmpty(segs) && n <= |segs|
    ensures |rows| == n
    ensures forall k :: 0 <= k < n ==>
      Describes(rows[k], infos[k]) &&
      rows[k].startSteps == InitStep(segs, k, discard) &&
      rows[k].endSteps == EndStep(segs[k], rows[k].startSteps, discard)
  {
    if n == 0 then []
    else
      var prev := ProvenanceRows(infos, segs, n - 1, discard);
      var start := InitStep(segs, n - 1, discard);
      var rows := AddExtraInfo(infos[n - 1], start, EndStep(segs[n - 1], start, discard), prev);
      RowsExtend(infos, segs, n - 1, discard, prev, rows);
      rows
  }

  /** The rows of the first n recordings, plus the row add_extra_info adds
      for recording n, are the rows of the first n + 1. */
  lemma RowsExtend(infos: seq<FileInfo>, segs: seq<seq<nat>>, n: nat, discard: bool,
                   prev: seq<ProvenanceRow>, rows: seq<ProvenanceRow>)
    requires |infos| == |segs| && NonEmpty(segs) && n < |segs|
    requires |prev| == n
    requires forall k :: 0 <= k < n ==>
      Describes(prev[k], infos[k]) &&
      prev[k].startSteps == InitStep(segs, k, discard) &&
      prev[k].endSteps == EndStep(segs[k], prev[k].startSteps, discard)
    requires rows == AddExtraInfo(infos[n], InitStep(segs, n, discard),
                                  EndStep(segs[n], InitStep(segs, n, discard), discard), prev)
    ensures |rows| == n + 1
    ensures forall k :: 0 <= k < n + 1 ==>
      Describes(rows[k], infos[k]) &&
      rows[k].startSteps == InitStep(segs, k, discard) &&
      rows[k].endSteps == EndStep(segs[k], rows[k].startSteps, discard)
  {
    forall k | 0 <= k < n + 1
      ensures Describes(rows[k], infos[k]) &&
        rows[k].startSteps == InitStep(segs, k, discard) &&
        rows[k].endSteps == EndStep(segs[k], rows[k].startSteps, discard)
    {
      if k < n {
        assert rows[k] == rows[..n][k] == prev[k];
      }
    }
  }

  /** One more recording adds its row at the end of the table and advances
      init_step by Advance. */
  lemma {:induction false} ProvenanceRowsStep(infos: seq<FileInfo>, segs: seq<seq<nat>>, n: nat, discard: bool)
    requires |infos| == |segs| && NonEmpty(segs) && n < |segs|
    ensures InitStep(segs, n + 1, discard) == InitStep(segs, n, discard) + Advance(segs[n], discard)
    ensures ProvenanceRows(infos, segs, n + 1, discard) ==
      AddExtraInfo(infos[n], InitStep(segs, n, discard), EndStep(segs[n], InitStep(segs, n, discard), discard),
        ProvenanceRows(infos, segs, n, discard))
  {
  }

  /** The step positions np.arange(c) end at position c - 1. */
  predicate EndsAtLast(segs: seq<seq<nat>>)
  {
    forall k :: 0 <= k < |segs| ==> |segs[k]| >= 1 && segs[k][|segs[k]| - 1] == |segs[k]| - 1
  }

  /** With step positions 0 .. c - 1 the rows tile the step numbering: each
      row ends just before the next one starts, at the init_step reached
      after its recording. */
  lemma {:induction false} ProvenanceTiles(infos: seq<FileInfo>, segs: seq<seq<nat>>, n: nat, discard: bool, k: nat)
    requires |infos| == |segs| && EndsAtLast(segs)
    requires k < n <= |segs|
    ensures NonEmpty(segs)
    ensures ProvenanceRows(infos, segs, n, discard)[k].endSteps + 1 == InitStep(segs, k + 1, discard)
  {
  }

  /** Discarding the first and last steps lowers init_step by two for every
      recording. */
  lemma {:induction false} InitStepDiscard(segs: seq<seq<nat>>, n: nat)
    requires n <= |segs|
    ensures InitStep(segs, n, true) == InitStep(segs, n, false) - 2 * n
  {
    if n > 0 {
      InitStepDiscard(segs, n - 1);
    }
  }

  /** The elements lo .. hi - 1 of whole are exactly part. */
  ghost predicate Occupies<X>(whole: seq<X>, lo: int, hi: int, part: seq<X>)
  {
    0 <= lo <= hi <= |whole| && whole[lo..hi] == part
  }

  /** Occupies is about values, not the terms that compute them. */
  lemma OccupiesAt<X>(whole: seq<X>, lo: int, hi: int, part: seq<X>,
                      whole': seq<X>, lo': int, hi': int, part': seq<X>)
    requires Occupies(whole, lo, hi, part)
    requires whole == whole' && lo == lo' && hi == hi' && part == part'
    ensures Occupies(whole', lo', hi', part')
  {
  }

  /** The first n parts one after the other. */
  function Flatten<X>(parts: seq<seq<X>>, n: nat): seq<X>
    requires n <= |parts|
  {
    if n == 0 then [] else Flatten(parts, n - 1) + parts[n - 1]
  }

  /** One more part goes at the end. */
  lemma {:induction false} FlattenStep<X>(parts: seq<seq<X>>, n: nat)
    requires n < |parts|
    ensures Flatten(parts, n + 1) == Flatten(parts, n) + parts[n]
  {
  }

  /** The first m parts make up the front of the first n. */
  lemma {:induction false} FlattenPrefix<X>(parts: seq<seq<X>>, m: nat, n: nat)
    requires m <= n <= |parts|
    ensures |Flatten(parts, m)| <= |Flatten(parts, n)|
    ensures Flatten(parts, n)[..|Flatten(parts, m)|] == Flatten(parts, m)
    decreases n
  {
    if m < n {
      FlattenPrefix(parts, m, n - 1);
      var a := Flatten(parts, m);
      var b := Flatten(parts, n - 1);
      assert (b + parts[n - 1])[..|a|] == b[..|a|];
    }
  }

  /** Part k sits in the whole right after the parts before it. */
  lemma {:induction false} FlattenLocates<X>(parts: seq<seq<X>>, k: nat, n: nat)
    requires k < n <= |parts|
    ensures var s := |Flatten(parts, k)|;
      s + |parts[k]| <= |Flatten(parts, n)| && Flatten(parts, n)[s..s + |parts[k]|] == parts[k]
  {
    var s := |Flatten(parts, k)|;
    var front := Flatten(parts, k + 1);
    assert front[s..] == parts[k];
    FlattenPrefix(parts, k + 1, n);
    assert Flatten(parts, n)[s..|front|] == Flatten(parts, n)[..|front|][s..];
  }

  /** Parts of equal lengths make wholes of equal length. */
  lemma {:induction false} FlattenSameLength<X, Y>(a: seq<seq<X>>, b: seq<seq<Y>>, n: nat)
    requires n <= |a| == |b|
    requires forall k :: 0 <= k < |a| ==> |a[k]| == |b[k]|
    ensures |Flatten(a, n)| == |Flatten(b, n)|
  {
    if n > 0 {
      FlattenSameLength(a, b, n - 1);
    }
  }

  /** When every recording contributes len(seg) - 2 elements, init_step (with
      discard) counts the elements of all recordings so far. */
  lemma {:induction false} InitStepCounts<X>(segs: seq<seq<nat>>, parts: seq<seq<X>>, n: nat)
    requires n <= |segs| == |parts|
    requires forall k :: 0 <= k < |parts| ==> |parts[k]| == |segs[k]| - 2
    ensures InitStep(segs, n, true) == |Flatten(parts, n)|
  {
    if n > 0 {
      InitStepCounts(segs, parts, n - 1);
    }
  }

  /** When every recording contributes at most len(seg) - 2 elements, init_step
      (with discard) is at least the number of elements so far. */
  lemma {:induction false} InitStepBounds<X>(segs: seq<seq<nat>>, parts: seq<seq<X>>, n: nat)
    requires n <= |segs| == |parts|
    requires forall k :: 0 <= k < |parts| ==> |parts[k]| <= |segs[k]| - 2
    ensures InitStep(segs, n, true) >= |Flatten(parts, n)|
  {
    if n > 0 {
      InitStepBounds(segs, parts, n - 1);
    }
  }

  /** With discard and len(seg) - 2 elements per recording, recording k's
      elements occupy the positions from the init_step reached before it up
      to the one reached after it. */
  lemma {:induction false} InitStepLocates<X>(segs: seq<seq<nat>>, parts: seq<seq<X>>, n: nat, k: nat)
    requires |segs| == |parts|
    requires forall j :: 0 <= j < |parts| ==> |parts[j]| == |segs[j]| - 2
    requires k < n <= |segs|
    ensures Occupies(Flatten(parts, n), InitStep(segs, k, true), InitStep(segs, k + 1, true), parts[k])
  {
    InitStepCounts(segs, parts, k);
    FlattenLocates(parts, k, n);
  }

  /** With discard, step positions 0 .. c - 1 and len(seg) - 2 elements per
      recording, row k of the table names exactly the positions of recording
      k's elements in the whole: startSteps up to and including endSteps. */
  lemma {:induction false} ProvenanceLocates<X>(infos: seq<FileInfo>, segs: seq<seq<nat>>, parts: seq<seq<X>>, n: nat, k: nat)
    requires |infos| == |segs| == |parts| && EndsAtLast(segs)
    requires forall j :: 0 <= j < |parts| ==> |parts[j]| == |segs[j]| - 2
    requires k < n <= |segs|
    ensures NonEmpty(segs)
    ensures var row := ProvenanceRows(infos, segs, n, true)[k];
      Occupies(Flatten(parts, n), row.startSteps, row.endSteps + 1, parts[k])
  {
    InitStepLocates(segs, parts, n, k);
    ProvenanceTiles(infos, segs, n, true, k);
    var row := ProvenanceRows(infos, segs, n, true)[k];
    OccupiesAt(Flatten(parts, n), InitStep(segs, k, true), InitStep(segs, k + 1, true), parts[k],
               Flatten(parts, n), row.startSteps, row.endSteps + 1, parts[k]);
  }
}
