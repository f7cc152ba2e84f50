/** The knee-sensor dataset: for every recording, in order, drop the warm-up
    rows, derive the step positions and the stride-length labels, run the
    step segmenter, and (when testing) record one provenance row per file.
    Afterwards the dataset is read by position. */
module Dataset {
  import opened Signal
  import opened Transitions
  import opened Normalization
  import opened Segmenter
  import opened Provenance

  datatype Option<T> = None | Some(value: T)

  /** Rows dropped from the front of every (filtered) recording. */
  const WarmUpRows: nat := 200

  /** One recording as loaded: the low-pass filtered sensor matrix, the
      Stride_length column of its label table, and its path information. */
  datatype Record = Record(x: seq<Sample>, strideLength: seq<real>, info: FileInfo)

  /** x[200:]: the recording without its first WarmUpRows rows. */
  function DropWarmUp(x: seq<Sample>): (r: seq<Sample>)
    ensures |r| == if |x| > WarmUpRows then |x| - WarmUpRows else 0
  {
    if |x| <= WarmUpRows then [] else x[WarmUpRows..]
  }

  /** Row k of the trimmed recording is row k + 200 of the recording. */
  lemma DropWarmUpRows(x: seq<Sample>)
    ensures forall k :: 0 <= k < |DropWarmUp(x)| ==> DropWarmUp(x)[k] == x[k + WarmUpRows]
  {
  }

  /** np.arange(rising - 1): the positions 0 .. rising - 2 (none when
      rising <= 1). */
  function SegIndex(rising: nat): (seg: seq<nat>)
    ensures |seg| == if rising >= 1 then rising - 1 else 0
  {
    seq(if rising >= 1 then rising - 1 else 0, k requires k >= 0 => k)
  }

  /** Position k of np.arange is k itself. */
  lemma SegIndexRows(rising: nat)
    ensures forall k :: 0 <= k < |SegIndex(rising)| ==> SegIndex(rising)[k] == k
  {
  }

  /** y['Stride_length'][1:].values / 100: the stride lengths without the first
      one, from centimetres to metres. */
  function StrideLabels(strideLength: seq<real>): (labels: seq<real>)
    ensures |labels| == if |strideLength| >= 1 then |strideLength| - 1 else 0
  {
    if |strideLength| == 0 then []
    else seq(|strideLength| - 1, k requires 0 <= k < |strideLength| - 1 => strideLength[k + 1] / 100.0)
  }

  /** Label k is stride k + 1, in metres. */
  lemma StrideLabelsRows(strideLength: seq<real>)
    ensures forall k :: 0 <= k < |StrideLabels(strideLength)| ==>
      StrideLabels(strideLength)[k] * 100.0 == strideLength[k + 1]
  {
  }

  /** A stride of 150 cm is labelled 1.5 m. */
  lemma StrideLabelExample()
    ensures StrideLabels([120.0, 150.0]) == [1.5]
  {
  }

  /** The recording after the warm-up drop. */
  function Trimmed(f: Record): seq<Sample>
  {
    DropWarmUp(f.x)
  }

  /** The step positions the loader derives for a recording from the number of
      rising stance transitions after the warm-up drop. */
  function FileSeg(f: Record): (seg: seq<nat>)
    ensures |seg| == if |Onsets(Stances(Trimmed(f)))| >= 1 then |Onsets(Stances(Trimmed(f)))| - 1 else 0
  {
    SegIndex(|Onsets(Stances(Trimmed(f)))|)
  }

  /** With the derived step positions, indexing diff_up never fails, and
      indexing diff_down fails exactly when some interior step position has
      no offset: with r rising transitions that takes at least four of them
      and fewer than r - 2 offsets. */
  lemma {:induction false} FileSegSegmentable(ind: seq<int>)
    ensures var r := |Onsets(ind)|;
      Segmentable(ind, SegIndex(r)) <==> r < 4 || |Offsets(ind)| >= r - 2
    ensures forall i :: Interior(SegIndex(|Onsets(ind)|), i) ==> SegIndex(|Onsets(ind)|)[i] < |Onsets(ind)|
  {
    var r := |Onsets(ind)|;
    var seg := SegIndex(r);
    SegIndexRows(r);
    if r >= 4 && |Offsets(ind)| < r - 2 {
      assert 1 <= r - 3 < |seg| - 1 && seg[r - 3] == r - 3;
    }
  }

  /** The source's callers never make it raise: every interior step has an
      onset and an offset and every kept step a label. */
  predicate Loadable(f: Record, buf: int)
  {
    var ind := Stances(Trimmed(f));
    Segmentable(ind, FileSeg(f)) &&
    LabelsCover(ind, FileSeg(f), buf, StrideLabels(f.strideLength))
  }

  predicate AllLoadable(files: seq<Record>, buf: int)
  {
    forall k :: 0 <= k < |files| ==> Loadable(files[k], buf)
  }

  /** The windows the segmenter appends for one recording. */
  function FileWindows(f: Record, buf: int, T: nat): seq<Window>
    requires Loadable(f, buf)
  {
    Windows(ToRadians(Trimmed(f)), FileSeg(f), buf, T)
  }

  /** The labels the segmenter appends for one recording. */
  function FileLabels(f: Record, buf: int): seq<real>
    requires Loadable(f, buf)
  {
    StepLabels(Stances(Trimmed(f)), FileSeg(f), buf, StrideLabels(f.strideLength))
  }

  /** The windows of every recording, one part per recording. */
  function WindowParts(files: seq<Record>, buf: int, T: nat): (parts: seq<seq<Window>>)
    requires AllLoadable(files, buf)
    ensures |parts| == |files|
    ensures forall k :: 0 <= k < |files| ==> parts[k] == FileWindows(files[k], buf, T)
  {
    seq(|files|, k requires 0 <= k < |files| => FileWindows(files[k], buf, T))
  }

  /** The labels of every recording, one part per recording. */
  function LabelParts(files: seq<Record>, buf: int): (parts: seq<seq<real>>)
    requires AllLoadable(files, buf)
    ensures |parts| == |files|
    ensures forall k :: 0 <= k < |files| ==> parts[k] == FileLabels(files[k], buf)
  {
    seq(|files|, k requires 0 <= k < |files| => FileLabels(files[k], buf))
  }

  /** The step positions of every recording. */
  function SegsOf(files: seq<Record>): (segs: seq<seq<nat>>)
    ensures |segs| == |files|
    ensures forall k :: 0 <= k < |files| ==> segs[k] == FileSeg(files[k])
  {
    seq(|files|, k requires 0 <= k < |files| => FileSeg(files[k]))
  }

  /** The path information of every recording. */
  function InfosOf(files: seq<Record>): (infos: seq<FileInfo>)
    ensures |infos| == |files|
    ensures forall k :: 0 <= k < |files| ==> infos[k] == files[k].info
  {
    seq(|files|, k requires 0 <= k < |files| => files[k].info)
  }

  /** The windows of all recordings, file after file. */
  function AllWindows(files: seq<Record>, buf: int, T: nat): seq<Window>
    requires AllLoadable(files, buf)
  {
    Flatten(WindowParts(files, buf, T), |files|)
  }

  /** The labels of all recordings, file after file. */
  function AllLabels(files: seq<Record>, buf: int): seq<real>
    requires AllLoadable(files, buf)
  {
    Flatten(LabelParts(files, buf), |files|)
  }

  /** Each recording appends as many labels as windows, so the dataset's
      labels line up with its windows. */
  lemma AllLabelsMatch(files: seq<Record>, buf: int, T: nat)
    requires AllLoadable(files, buf)
    ensures |AllLabels(files, buf)| == |AllWindows(files, buf, T)|
  {
    var ws := WindowParts(files, buf, T);
    var ls := LabelParts(files, buf);
    FlattenSameLength(ls, ws, |files|);
  }

  /** Every recording has at least one step position (seg_index[-1] exists). */
  predicate HasSteps(files: seq<Record>)
  {
    NonEmpty(SegsOf(files))
  }

  /** The derived step positions are 0 .. c - 1. */
  lemma SegsEndAtLast(files: seq<Record>)
    requires HasSteps(files)
    ensures EndsAtLast(SegsOf(files))
  {
    forall k | 0 <= k < |files|
      ensures SegsOf(files)[k][|SegsOf(files)[k]| - 1] == |SegsOf(files)[k]| - 1
    {
      SegIndexRows(|Onsets(Stances(Trimmed(files[k])))|);
    }
  }

  /** Recordings in which no interior step is skipped for being short. */
  ghost predicate NoShortSteps(files: seq<Record>, buf: int)
    requires AllLoadable(files, buf)
  {
    forall k :: 0 <= k < |files| ==>
      |FileSeg(files[k])| >= 2 &&
      forall i :: Interior(FileSeg(files[k]), i) ==>
        StepRowCount(Stances(Trimmed(files[k])), FileSeg(files[k]), buf, i) >= MinStepRows
  }

  /** Recordings without short steps have step positions 0 .. c - 1, c >= 2. */
  lemma {:induction false} NoShortStepsSegs(files: seq<Record>, buf: int)
    requires AllLoadable(files, buf) && NoShortSteps(files, buf)
    ensures HasSteps(files) && EndsAtLast(SegsOf(files))
  {
    SegsEndAtLast(files);
  }

  /** Without short steps, every recording appends len(seg_index) - 2 windows. */
  lemma {:induction false} FullParts(files: seq<Record>, buf: int, T: nat)
    requires AllLoadable(files, buf) && NoShortSteps(files, buf)
    ensures forall k :: 0 <= k < |files| ==>
      |WindowParts(files, buf, T)[k]| == |SegsOf(files)[k]| - 2
  {
    forall k | 0 <= k < |files|
      ensures |WindowParts(files, buf, T)[k]| == |SegsOf(files)[k]| - 2
    {
      var f := files[k];
      AllStepsKept(Stances(Trimmed(f)), FileSeg(f), buf);
    }
  }

  /** With the first and last steps discarded and no short step skipped,
      init_step counts exactly the windows appended. */
  lemma {:induction false} InitStepCountsWindows(files: seq<Record>, buf: int, T: nat)
    requires AllLoadable(files, buf) && NoShortSteps(files, buf)
    ensures InitStep(SegsOf(files), |files|, true) == |AllWindows(files, buf, T)|
  {
    FullParts(files, buf, T);
    InitStepCounts(SegsOf(files), WindowParts(files, buf, T), |files|);
  }

  /** Short steps are skipped but still advance init_step, so with the first
      and last steps discarded init_step never falls below the number of
      windows appended (given two step positions per recording). */
  lemma {:induction false} InitStepBoundsWindows(files: seq<Record>, buf: int, T: nat)
    requires AllLoadable(files, buf)
    requires forall k :: 0 <= k < |files| ==> |FileSeg(files[k])| >= 2
    ensures InitStep(SegsOf(files), |files|, true) >= |AllWindows(files, buf, T)|
  {
    var ws := WindowParts(files, buf, T);
    forall k | 0 <= k < |files|
      ensures |ws[k]| <= |SegsOf(files)[k]| - 2
    {
    }
    InitStepBounds(SegsOf(files), ws, |files|);
  }

  /** With the first and last steps discarded and no short step skipped, the
      provenance row of file k names exactly the dataset positions of that
      file's windows: its startSteps and endSteps + 1 are the init_step values
      reached before and after the file, and the windows in between are the
      file's own. */
  lemma {:induction false} ProvenanceLocatesWindows(files: seq<Record>, buf: int, T: nat, k: nat)
    requires AllLoadable(files, buf) && NoShortSteps(files, buf)
    requires k < |files|
    ensures HasSteps(files)
    ensures var row := ProvenanceRows(InfosOf(files), SegsOf(files), |files|, true)[k];
      row.startSteps == InitStep(SegsOf(files), k, true) &&
      row.endSteps + 1 == InitStep(SegsOf(files), k + 1, true)
    ensures Occupies(AllWindows(files, buf, T), InitStep(SegsOf(files), k, true),
                     InitStep(SegsOf(files), k + 1, true), FileWindows(files[k], buf, T))
  {
    NoShortStepsSegs(files, buf);
    ProvenanceTiles(InfosOf(files), SegsOf(files), |files|, true, k);
    WindowsLocate(files, buf, T, k);
  }

  /** With the first and last steps discarded and no short step skipped, the
      windows of file k sit in the dataset from the init_step reached before
      it up to the one reached after it. */
  lemma {:induction false} WindowsLocate(files: seq<Record>, buf: int, T: nat, k: nat)
    requires AllLoadable(files, buf) && NoShortSteps(files, buf)
    requires k < |files|
    ensures Occupies(AllWindows(files, buf, T), InitStep(SegsOf(files), k, true),
                     InitStep(SegsOf(files), k + 1, true), FileWindows(files[k], buf, T))
  {
    FullParts(files, buf, T);
    InitStepLocates(SegsOf(files), WindowParts(files, buf, T), |files|, k);
  }

  /** The dataset: windows and labels in matching positions, and the
      provenance table. */
  class KneeDataset {
    const seqLength: nat
    const seqBuffer: int
    var data: seq<Window>
    var labels: seq<real>
    var subjectRows: seq<ProvenanceRow>

    /** Window k and label k belong to the same step, and every window has
        seqLength rows of six columns. */
    ghost predicate Valid()
      reads this
    {
      |data| == |labels| && forall k :: 0 <= k < |data| ==> Shaped(data[k], seqLength)
    }

    /** Step_seg_zero_step: appends a window and its label for every kept
        interior step position of the recording x, in order. */
    method StepSegZeroStep(buf: int, x: seq<Sample>, seg: seq<nat>, stepLabels: seq<real>)
      requires Valid()
      requires Segmentable(Stances(x), seg) && LabelsCover(Stances(x), seg, buf, stepLabels)
      modifies this
      ensures Valid()
      ensures data == old(data) + Windows(ToRadians(x), seg, buf, seqLength)
      ensures labels == old(labels) + StepLabels(Stances(x), seg, buf, stepLabels)
      ensures subjectRows == old(subjectRows)
    {
      var diffUp := Onsets(Stances(x));
      var diffDown := Offsets(Stances(x));
      var y := ToRadians(x);
      ghost var data0, labels0 := data, labels;
      var i := 1;
      while i < |seg| - 1
        invariant 1 <= i <= LoopEnd(seg)
        invariant Valid() && Segmented(data0, labels0, y, seg, buf, stepLabels, i)
        invariant subjectRows == old(subjectRows)
      {
        SegmentNext(buf, y, seg, stepLabels, diffUp, diffDown, i, data0, labels0);
        i := i + 1;
      }
      BelowAtEnd(y, seg, buf, seqLength, stepLabels, i);
    }

    /** The state of Step_seg_zero_step once the positions below i are
        visited: the windows and labels of the kept ones appended, in order. */
    ghost predicate Segmented(data0: seq<Window>, labels0: seq<real>, y: seq<Sample>, seg: seq<nat>,
                              buf: int, stepLabels: seq<real>, i: nat)
      reads this
      requires Segmentable(Stances(y), seg) && LabelsCover(Stances(y), seg, buf, stepLabels)
      requires 1 <= i <= LoopEnd(seg)
    {
      data == data0 + WindowsBelow(y, seg, buf, seqLength, i) &&
      labels == labels0 + LabelsBelow(Stances(y), seg, buf, stepLabels, i)
    }

    /** Step position i is visited after the positions below it. */
    method SegmentNext(buf: int, y: seq<Sample>, seg: seq<nat>, stepLabels: seq<real>,
                       diffUp: seq<nat>, diffDown: seq<nat>, i: nat, ghost data0: seq<Window>, ghost labels0: seq<real>)
      requires Segmentable(Stances(y), seg) && LabelsCover(Stances(y), seg, buf, stepLabels)
      requires diffUp == Onsets(Stances(y)) && diffDown == Offsets(Stances(y))
      requires 1 <= i < |seg| - 1
      requires Valid() && Segmented(data0, labels0, y, seg, buf, stepLabels, i)
      modifies this
      ensures Valid() && Segmented(data0, labels0, y, seg, buf, stepLabels, i + 1)
      ensures subjectRows == old(subjectRows)
    {
      BelowStep(y, seg, buf, seqLength, stepLabels, i);
      SegmentOneStep(buf, y, seg, stepLabels, diffUp, diffDown, i);
    }

    /** One iteration of the loop of Step_seg_zero_step, for step position i:
        cut the raw rows around the step; skip the step if it has fewer than
        MinStepRows rows; otherwise crop or pad the accelerometer and gyroscope
        rows to seqLength and append the window and labels[i]. */
    method SegmentOneStep(buf: int, y: seq<Sample>, seg: seq<nat>, stepLabels: seq<real>,
                          diffUp: seq<nat>, diffDown: seq<nat>, i: int)
      requires Valid()
      requires Segmentable(Stances(y), seg) && LabelsCover(Stances(y), seg, buf, stepLabels)
      requires diffUp == Onsets(Stances(y)) && diffDown == Offsets(Stances(y))
      requires Interior(seg, i)
      modifies this
      ensures Valid()
      ensures data == old(data) +
        if Kept(Stances(y), seg, buf, i) then [StepWindow(y, seg, buf, seqLength, i)] else []
      ensures labels == old(labels) + if Kept(Stances(y), seg, buf, i) then [stepLabels[i]] else []
      ensures subjectRows == old(subjectRows)
    {
      var half := Half(buf);
      var raw := PySlice(y, diffUp[seg[i]] - half, diffDown[seg[i]] + half);
      assert raw == RawStep(y, seg, buf, i);
      var acc := AccRows(raw);
      var gyro := GyroRows(raw);
      if |acc| < MinStepRows {
        assert !Kept(Stances(y), seg, buf, i);
        return;
      }
      assert Kept(Stances(y), seg, buf, i);
      acc, gyro := CropOrPad(acc, gyro, seqLength);
      var window := Window(Concat(acc, gyro));
      assert window == StepWindow(y, seg, buf, seqLength, i);
      labels := labels + [stepLabels[i]];
      data := data + [window];
    }

    /** KneeDataset.__init__: the recordings are processed in order; the
        dataset holds all their windows and labels, and when testing one
        provenance row per recording. */
    constructor (files: seq<Record>, seqLength: nat, seqBuffer: int, testing: bool, testingWithDiscard: bool)
      requires AllLoadable(files, seqBuffer)
      requires testing ==> HasSteps(files)
      ensures Valid()
      ensures this.seqLength == seqLength && this.seqBuffer == seqBuffer
      ensures data == AllWindows(files, seqBuffer, seqLength)
      ensures labels == AllLabels(files, seqBuffer)
      ensures subjectRows ==
        if testing then ProvenanceRows(InfosOf(files), SegsOf(files), |files|, testingWithDiscard) else []
    {
      this.seqLength := seqLength;
      this.seqBuffer := seqBuffer;
      data := [];
      labels := [];
      subjectRows := [];
      new;
      var initStep := 0;
      for n := 0 to |files|
        invariant Valid()
        invariant Loaded(files, n, initStep, testing, testingWithDiscard)
      {
        initStep := LoadNext(files, n, initStep, testing, testingWithDiscard);
      }
    }

    /** The state of __init__ once the first n recordings are processed: the
        windows and labels of those recordings, in order, and (when testing)
        their provenance rows and the init_step reached. */
    ghost predicate Loaded(files: seq<Record>, n: nat, initStep: int, testing: bool, discard: bool)
      reads this
      requires AllLoadable(files, seqBuffer) && n <= |files|
      requires testing ==> HasSteps(files)
    {
      data == Flatten(WindowParts(files, seqBuffer, seqLength), n) &&
      labels == Flatten(LabelParts(files, seqBuffer), n) &&
      (testing ==> initStep == InitStep(SegsOf(files), n, discard)) &&
      subjectRows == if testing then ProvenanceRows(InfosOf(files), SegsOf(files), n, discard) else []
    }

    /** Recording n is loaded after the first n. */
    method LoadNext(files: seq<Record>, n: nat, initStep: int, testing: bool, discard: bool) returns (next: int)
      requires AllLoadable(files, seqBuffer) && n < |files|
      requires testing ==> HasSteps(files)
      requires Valid() && Loaded(files, n, initStep, testing, discard)
      modifies this
      ensures Valid() && Loaded(files, n + 1, next, testing, discard)
    {
      var f := files[n];
      ghost var segs, infos := SegsOf(files), InfosOf(files);
      FlattenStep(WindowParts(files, seqBuffer, seqLength), n);
      FlattenStep(LabelParts(files, seqBuffer), n);
      if testing {
        ProvenanceRowsStep(infos, segs, n, discard);
      }
      next := LoadRecording(f, infos[n], segs[n], initStep, testing, discard);
    }

    /** One pass of the loop of __init__ over the recording f: drop the
        warm-up rows, derive seg_index and the labels, segment the steps and,
        when testing, add the recording's provenance row and advance
        init_step. */
    method LoadRecording(f: Record, ghost info: FileInfo, ghost seg: seq<nat>, initStep: int, testing: bool, discard: bool)
      returns (next: int)
      requires Valid() && Loadable(f, seqBuffer)
      requires info == f.info && seg == FileSeg(f)
      requires testing ==> |seg| >= 1
      modifies this
      ensures Valid()
      ensures data == old(data) + FileWindows(f, seqBuffer, seqLength)
      ensures labels == old(labels) + FileLabels(f, seqBuffer)
      ensures testing ==>
        subjectRows == AddExtraInfo(info, initStep, EndStep(seg, initStep, discard), old(subjectRows)) &&
        next == initStep + Advance(seg, discard)
      ensures !testing ==> subjectRows == old(subjectRows) && next == initStep
    {
      var x := DropWarmUp(f.x);
      var segIndex := SegIndex(|Onsets(Stances(x))|);
      var stepLabels := StrideLabels(f.strideLength);
      assert x == Trimmed(f) && segIndex == FileSeg(f);
      StepSegZeroStep(seqBuffer, x, segIndex, stepLabels);
      next := initStep;
      if testing {
        if discard {
          var endSteps := segIndex[|segIndex| - 1] + initStep - 2;
          assert endSteps == EndStep(seg, initStep, discard);
          subjectRows := AddExtraInfo(f.info, initStep, endSteps, subjectRows);
          next := initStep + |segIndex| - 2;
        } else {
          var endSteps := segIndex[|segIndex| - 1] + initStep;
          assert endSteps == EndStep(seg, initStep, discard);
          subjectRows := AddExtraInfo(f.info, initStep, endSteps, subjectRows);
          next := initStep + |segIndex|;
        }
      }
    }

    /** __len__: the number of (window, label) pairs, which is exactly the
        range of positions GetItem accepts. */
    function Length(): (n: nat)
      reads this
      requires Valid()
      ensures n == |labels|
      ensures forall k :: GetItem(k).Some? <==> -(n as int) <= k < n
    {
      |data|
    }

    /** __getitem__: the window and its label as a one-by-one column; a
        negative position counts from the end, and a position outside the
        dataset is an IndexError (None). */
    function GetItem(index: int): (r: Option<(Window, seq<seq<real>>)>)
      reads this
      requires Valid()
      ensures r.Some? <==> -|data| <= index < |data|
      ensures r.Some? ==>
        var k := if index < 0 then index + |data| else index;
        r.value == (data[k], [[labels[k]]]) && Shaped(r.value.0, seqLength)
    {
      if index < -|data| || index >= |data| then None
      else
        var k := if index < 0 then index + |data| else index;
        Some((data[k], [[labels[k]]]))
    }
  }
}
