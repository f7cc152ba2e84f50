# GaitMotion step segmentation, in Dafny

This project models the data loader of the GaitMotion stride-length
estimator (`LoadData.py`). The loader reads knee-sensor recordings. Each
recording is a matrix whose rows hold three accelerometer channels, three
gyroscope channels, a stance/swing flag and an auxiliary flag. The loader
cuts every recording into one fixed-length window per gait step and
labels each window with the stride length measured for that step.

The model covers:

- **Transitions** (`transitions.dfy`): `np.where(np.diff(flag) == ±1)`.
  The onsets are the rising edges of the stance flag. The offsets are the
  falling edges without the first one.
- **Signal** (`signal.dfy`): the sample rows, the degree-to-radian
  conversion of the gyroscope columns, and Python slicing with its
  clamping of out-of-range bounds.
- **Normalization** (`normalization.dfy`): the symmetric crop of a long
  raw window and numpy's `'reflect'` padding of a short one, split evenly
  with the odd row at the back.
- **Segmenter** (`segmenter.dfy`): what one call of `Step_seg_zero_step`
  appends, stated as functions of its inputs. It covers which interior
  step positions are kept, the raw rows each window is cut from, and the
  six-column window itself.
- **Provenance** (`provenance.dfy`): the running counter `init_step`, the
  table rows that `add_extra_info` appends, and the dataset as the
  concatenation of per-recording parts.
- **Dataset** (`dataset.dfy`): the class `KneeDataset`. Its constructor
  loop drops the 200 warm-up rows, derives `seg_index` and the labels,
  runs the segmenter (a method with a `while` loop that appends to the
  `data` and `labels` fields), and, when testing, records the provenance
  rows. `Length` and `GetItem` are the accessors.

What is proved, in short:

- The onsets and offsets are exactly the ±1 differences, in increasing
  order, with the first falling edge dropped.
- Only interior step positions are visited, and a raw window with fewer
  than 50 rows is skipped. So at most `len(seg) - 2` windows are
  appended, and exactly that many when no step is short.
- Every window has `seq_length` rows of six columns.
- Each window row is one raw row: columns 0-2 are its accelerometer
  channels and columns 3-5 its gyroscope channels.
- Crop and pad sizes differ by at most one, with the larger share at the
  back.
- Padding keeps the raw rows in the middle and mirrors them without
  repeating the edge rows.
- Window `j` and label `j` come from the same step position.
- The constructor's fields equal the concatenation, file after file, of
  what each recording contributes.
- With the first and last steps discarded and no short step, the
  provenance row of a recording names exactly the dataset positions of
  that recording's windows.
- A skipped short step still advances `init_step`, so in general
  `init_step` only bounds the number of windows from above
  (`InitStepBoundsWindows`).

Three details of the code that the model follows as written:

- On the flag `[0,1,1,0,0,1,1,1,0,0,1,1,0]`, read by eye, the flag rises
  at 1, 5 and 10 and falls at 3, 8 and 12. `np.diff` reports the index
  before each change, so the code gives onsets [0,4,9] and falling edges
  [2,7,11]. After the first falling edge is dropped the offsets are
  [7,11] (`ThreeStepExample`).
- The buffer half is `int(seq_buffer / 2)`, which truncates toward zero
  (`Half`). A floor division would differ only for a negative buffer.
- Nothing checks that the onset and offset counts match: the loop simply
  indexes `diff_down[seg[i]]`. The model requires what that indexing
  needs (`Segmentable`). `FileSegSegmentable` states exactly when that
  requirement holds for the derived step positions.

## Model

| member | source | states |
|---|---|---|
| Transitions.Edges | LoadData.py:20-21 | np.where(np.diff(flag) == d) has at most len(flag) - 1 entries, and none for fewer than two samples |
| Transitions.EdgesRange | LoadData.py:20-21 | every reported edge k names an existing difference flag[k+1] - flag[k], so k < len(flag) - 1 |
| Transitions.EdgesIncreasing | LoadData.py:20-21 | the edges come in strictly increasing order |
| Transitions.EdgesMembers | LoadData.py:20-21 | k is listed exactly when flag[k+1] - flag[k] == d |
| Transitions.EdgesSpec | LoadData.py:20-21 | np.where(np.diff(flag) == d) lists every k with flag[k+1] - flag[k] == d and nothing else, in strictly increasing order |
| Transitions.Onsets | LoadData.py:20-24 | diff_up has at most len(flag) - 1 entries |
| Transitions.OnsetsSpec | LoadData.py:20-24 | diff_up holds exactly the rising edges of the stance flag, increasing |
| Transitions.Offsets | LoadData.py:21-22 | diff_down has one fewer element than the falling edges (none when there are none), and element j is falling edge j + 1 |
| Transitions.OffsetsSpec | LoadData.py:21-22 | diff_down holds exactly the falling edges that have an earlier falling edge, increasing |
| Transitions.EdgesUnique | LoadData.py:20-21 | any strictly increasing sequence holding exactly the edges is the edge list |
| Transitions.ThreeStepExample | LoadData.py:20-24 | on the flag [0,1,1,0,0,1,1,1,0,0,1,1,0] the onsets are [0,4,9] and the offsets [7,11] |
| Signal.Stances | LoadData.py:20-21 | data[:, -2] has one entry per row, the row's stance flag |
| Signal.Radians | LoadData.py:27 | rad * 180 == deg * pi |
| Signal.ToRadians | LoadData.py:27 | only the gyroscope columns are converted; the accelerometer, stance and auxiliary columns and the row count are unchanged |
| Signal.SliceIndex | LoadData.py:38-39 | a normalised slice bound lies within [0, n] |
| Signal.SliceBounds | LoadData.py:38-39 | the selected rows lie within the signal; in-range bounds select exactly [lo, hi); a start past the stop selects nothing |
| Signal.PySlice | LoadData.py:38-39 | a slice is never longer than the signal, and with in-range bounds it is s[lo..hi] |
| Normalization.CropSizes | LoadData.py:44-46 | the front and back cuts add up to the excess and differ by at most one, the back one being larger |
| Normalization.PadSizes | LoadData.py:50-53 | the front and back pads add up to the deficit and differ by at most one, the back one being larger |
| Normalization.Crop | LoadData.py:47-48 | the cropped window has exactly T rows |
| Normalization.Mirror | LoadData.py:54-55 | a reflected position always names an existing row, and a position inside the window names itself |
| Normalization.ReflectPad | LoadData.py:54-55 | the padded window has left + L + right rows |
| Normalization.ReflectPadRows | LoadData.py:54-55 | padded row j is the raw row that the reflection shows at position j - left |
| Normalization.ReflectPadSingle | LoadData.py:54-55 | with pads shorter than the window, front row j is s[left - j] and the back rows mirror s without repeating the last row |
| Normalization.SourceRow | LoadData.py:43-55 | the raw row an output row comes from exists |
| Normalization.Normalize | LoadData.py:43-55 | crop-or-pad yields exactly T rows |
| Normalization.NormalizeRows | LoadData.py:43-55 | output row k is raw row SourceRow(L, T, k) |
| Normalization.NormalizeBranches | LoadData.py:43-55 | a longer window is the slice [cut_l : len - cut_r]; otherwise it is the reflect pad with PadSizes |
| Normalization.CropRows | LoadData.py:47-48 | the raw window is the front cut, the cropped window and the back cut, in order |
| Normalization.PadKeepsRaw | LoadData.py:54-55 | a padded window holds the raw rows unchanged from row pad_l on |
| Normalization.NormalizeExact | LoadData.py:49-55 | a window that already has T rows is unchanged |
| Normalization.CropOrPad | LoadData.py:43-55 | the method's accelerometer and gyroscope results are both the normalisation of their inputs with the same sizes |
| Segmenter.Segmentable | LoadData.py:29-39 | with at most two step positions the loop runs no iteration, so no diff_up[seg[i]] or diff_down[seg[i]] can fail |
| Segmenter.LabelsCover | LoadData.py:57 | labels[i] cannot fail when there are at least len(seg) - 1 labels |
| Segmenter.Half | LoadData.py:38-39 | int(buf / 2) truncates toward zero: buf - 2h is 0 or 1 for buf >= 0, and 2h - buf is 0 or 1 otherwise |
| Segmenter.StepBounds | LoadData.py:38-39 | the raw rows of a step lie within the signal |
| Segmenter.StepBoundsInside | LoadData.py:38-39 | with in-range bounds the raw window spans onset - int(buf/2) up to offset + int(buf/2), and its length is their difference |
| Segmenter.StepRowCount | LoadData.py:38-40 | len(acc) never exceeds the number of rows of the signal |
| Segmenter.Kept | LoadData.py:29-42 | a position survives the len(acc) < 50 skip only if it is a loop position 1 .. len(seg) - 2, and then the signal has at least 50 rows |
| Segmenter.KeptBelow | LoadData.py:29-42 | the first n - 1 loop iterations keep at most n - 1 steps |
| Segmenter.KeptBelowSpec | LoadData.py:29-42 | the steps kept by the first iterations are exactly the interior positions below n whose raw window has at least 50 rows, increasing |
| Segmenter.KeptBelowRange | LoadData.py:29 | every kept position lies in 1 .. n - 1 |
| Segmenter.KeptBelowIncreasing | LoadData.py:29 | the kept positions come in increasing order |
| Segmenter.KeptBelowMembers | LoadData.py:29-42 | the kept positions below n are exactly the interior, not-short ones |
| Segmenter.KeptSteps | LoadData.py:29 | at most len(seg) - 2 steps are kept, and none when len(seg) <= 2 |
| Segmenter.KeptStepsSpec | LoadData.py:29-42 | the kept steps are exactly the interior positions with at least 50 raw rows, in increasing order |
| Segmenter.KeptBelowAll | LoadData.py:29-42 | with no short step, the first iterations keep positions 1 .. n - 1 |
| Segmenter.AllStepsKept | LoadData.py:29-42 | with no short step, exactly len(seg) - 2 windows are kept: positions 1 .. len(seg) - 2 |
| Segmenter.Concat | LoadData.py:58 | the concatenation has one row per input row, each of six columns |
| Segmenter.ConcatRows | LoadData.py:58 | columns 0-2 of row k are the accelerometer row and columns 3-5 the gyroscope row |
| Segmenter.AccRows | LoadData.py:38 | the accelerometer part keeps the rows and takes columns 0:3 |
| Segmenter.GyroRows | LoadData.py:39 | the gyroscope part keeps the rows and takes columns 3:6 |
| Segmenter.RawStep | LoadData.py:38-40 | the raw window has len(acc) == StepRowCount rows |
| Segmenter.StepWindow | LoadData.py:43-58 | every appended window has T rows of six columns |
| Segmenter.StepWindowRows | LoadData.py:38-58 | row k of a window is the accelerometer and then the gyroscope channels of the same raw row, SourceRow(L, T, k) |
| Segmenter.WindowsBelow | LoadData.py:29-58 | the first iterations append one window per kept step, each of T rows by six |
| Segmenter.LabelsBelow | LoadData.py:29-57 | the first iterations append one label per kept step |
| Segmenter.BelowStep | LoadData.py:29-58 | one iteration appends the window and label of its position exactly when it is kept |
| Segmenter.BelowRows | LoadData.py:29-58 | window j and label j of the first iterations both come from the j-th kept position |
| Segmenter.Windows | LoadData.py:17-58 | one call appends one T-by-six window per kept step |
| Segmenter.StepLabels | LoadData.py:17-57 | one call appends one label per kept step |
| Segmenter.BelowAtEnd | LoadData.py:29 | where the loop stops, everything the call appends has been appended |
| Segmenter.WindowsMatchLabels | LoadData.py:57-58 | windows and labels have equal counts; window j and label j come from the j-th kept step, labels[i] being that step's label |
| Provenance.EndStep | LoadData.py:96-99 | end_steps is at least start_steps, less 2 with discard |
| Provenance.Advance | LoadData.py:97-100 | init_step advances by at most len(seg_index), and never backwards without discard |
| Provenance.InitStep | LoadData.py:76-100 | without discard init_step never goes negative |
| Provenance.AddExtraInfo | LoadData.py:8-15 | one row is added at the end for this file, with start_steps and end_steps as given; earlier rows are untouched |
| Provenance.ProvenanceRows | LoadData.py:94-100 | row k describes recording k, starts at the init_step reached before it and ends at seg_index[-1] + init_step, minus 2 with discard |
| Provenance.RowsExtend | LoadData.py:94-100 | appending the next recording's row keeps every row describing its recording, starting at the init_step before it and ending at its end_steps |
| Provenance.ProvenanceRowsStep | LoadData.py:94-100 | one more recording adds its row at the end and advances init_step by len(seg_index), or by len(seg_index) - 2 with discard |
| Provenance.ProvenanceTiles | LoadData.py:94-100 | with seg_index = 0 .. c - 1, each row ends just before the init_step reached after its recording |
| Provenance.InitStepDiscard | LoadData.py:95-100 | discarding the first and last steps lowers init_step by 2 per recording |
| Provenance.FlattenStep | LoadData.py:77-91 | one more recording's part goes at the end of the dataset |
| Provenance.FlattenPrefix | LoadData.py:77-91 | the parts of earlier recordings make up the front of the dataset |
| Provenance.FlattenLocates | LoadData.py:77-91 | recording k's part sits in the dataset right after the parts before it |
| Provenance.FlattenSameLength | LoadData.py:77-91 | parts of equal lengths make wholes of equal length |
| Provenance.InitStepCounts | LoadData.py:76-100 | with len(seg) - 2 elements per recording, init_step with discard counts all elements so far |
| Provenance.InitStepBounds | LoadData.py:76-100 | with at most len(seg) - 2 elements per recording, init_step with discard is at least the number of elements so far |
| Provenance.InitStepLocates | LoadData.py:76-100 | recording k's elements occupy the positions from the init_step before it up to the one after it |
| Provenance.ProvenanceLocates | LoadData.py:76-100 | row k names exactly the positions of recording k's elements: start_steps through end_steps |
| Dataset.DropWarmUp | LoadData.py:83 | x[200:] has 200 rows fewer, or none |
| Dataset.DropWarmUpRows | LoadData.py:83 | row k of the trimmed recording is row k + 200 |
| Dataset.SegIndex | LoadData.py:86 | np.arange(r - 1) has r - 1 positions, or none |
| Dataset.SegIndexRows | LoadData.py:86 | position k of seg_index is k |
| Dataset.FileSeg | LoadData.py:86 | seg_index has one position fewer than diff_up has onsets, or none |
| Dataset.StrideLabels | LoadData.py:88 | there is one label fewer than stride lengths, or none |
| Dataset.StrideLabelsRows | LoadData.py:88 | label k is stride length k + 1 converted from centimetres to metres |
| Dataset.StrideLabelExample | LoadData.py:88 | strides [120, 150] give the labels [1.5] |
| Dataset.FileSegSegmentable | LoadData.py:86 | with the derived seg_index, indexing diff_up never fails, and indexing diff_down fails exactly when there are at least four onsets and fewer than r - 2 offsets |
| Dataset.AllLabelsMatch | LoadData.py:77-91 | the dataset holds as many labels as windows |
| Dataset.SegsEndAtLast | LoadData.py:86 | the derived seg_index of each recording ends at len(seg_index) - 1 |
| Dataset.NoShortStepsSegs | LoadData.py:86 | recordings without short steps have a last step position, equal to len(seg_index) - 1 |
| Dataset.FullParts | LoadData.py:29-42 | without short steps every recording appends len(seg_index) - 2 windows |
| Dataset.InitStepCountsWindows | LoadData.py:94-97 | with discard and no short step, the final init_step is the number of windows |
| Dataset.InitStepBoundsWindows | LoadData.py:94-97 | with discard, skipped short steps still advance init_step, so init_step is at least the number of windows |
| Dataset.WindowsLocate | LoadData.py:94-97 | with discard and no short step, recording k's windows sit between the init_step before it and the one after it |
| Dataset.ProvenanceLocatesWindows | LoadData.py:94-97 | with discard and no short step, start_steps and end_steps + 1 of row k are the init_step before and after recording k, and the dataset positions between them hold exactly recording k's windows |
| Dataset.KneeDataset.StepSegZeroStep | LoadData.py:17-58 | the loop appends Windows(radians(x)) to data and StepLabels to labels, leaves the provenance table alone and keeps windows and labels paired |
| Dataset.KneeDataset.SegmentNext | LoadData.py:29-58 | one loop iteration takes data and labels from what the first i iterations append to what the first i + 1 append, keeping them paired and the provenance table unchanged |
| Dataset.KneeDataset.SegmentOneStep | LoadData.py:38-58 | one iteration appends the step's window and labels[i] exactly when the step is kept, and nothing otherwise |
| Dataset.KneeDataset.constructor | LoadData.py:61-101 | data and labels are the windows and labels of all recordings, file after file; when testing, subject_dict is ProvenanceRows, otherwise empty |
| Dataset.KneeDataset.LoadNext | LoadData.py:77-100 | after recording n the dataset holds the parts of the first n + 1 recordings and the matching init_step and provenance rows |
| Dataset.KneeDataset.LoadRecording | LoadData.py:77-100 | one recording appends its windows and labels; when testing it appends its provenance row and advances init_step, otherwise both are unchanged |
| Dataset.KneeDataset.Length | LoadData.py:103-104 | the length is the number of labels, and GetItem succeeds exactly for positions -n .. n - 1 |
| Dataset.KneeDataset.GetItem | LoadData.py:106-109 | a position in range (negative ones from the end) gives that window and its label as a 1-by-1 column; the window is seq_length by six; other positions are an IndexError |

## Left out

- Reading the pickled recordings (`open`, `pickle.load`) is left out. A recording is given as a `Record`: its sensor matrix, its `Stride_length` column and its path information.
- The third pickled value, the stored `seg_index`, is left out. The loader overwrites it before use.
- The Butterworth low-pass filter (`utils.butter_lowpass_filter`) is not part of this model. The `Record`'s matrix is taken as already filtered.
- Filename parsing in `add_extra_info` (`os.path.split`, the regular expression, `sub_name[-5]`, `walking_type[2:]`) is left out. Its results are the `FileInfo` input.
- Plotting (`plt`) and the console messages are left out. They affect no value.
- pandas DataFrames, numpy arrays and torch types are modelled as sequences.
- The constructor parameters `batch_size`, `transform`, `rate` and `mtype` are left out. The modelled code stores or ignores them, and `rate` only feeds the filter.
- Floating-point rounding is left out. Samples, radians and labels use exact real arithmetic, with pi as the double constant. `.astype(float)` in `__getitem__` is the identity.
- The in-place conversion `data[:, 3:6] = np.radians(...)` is modelled on values. The model cannot see that the caller's array is modified.
- Dataset.KneeDataset.StepSegZeroStep: requires every interior step to have an onset and an offset and every kept step a label. The source raises IndexError otherwise and the model does not model the exception.
- Dataset.KneeDataset.constructor: requires every recording to meet the StepSegZeroStep conditions (`AllLoadable`). When testing, it also requires a non-empty `seg_index` (`HasSteps`), which `seg_index[-1]` needs. Both exceptions in the source abort the whole constructor.
