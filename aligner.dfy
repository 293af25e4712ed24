/** The merge loop of `load_data_with_labels_optimized`: the results of
    the reads, in submission order, become one list of signals, a parallel
    list of labels, and the length of the longest signal. */
module Aligner {
  import opened Common
  import opened Reader

  function RowsOf<V>(fr: FileResult<V>): seq<seq<V>>
  {
    fr.rows
  }

  /** `[label] * len(file_data)`. */
  function LabelsOf<V>(fr: FileResult<V>): seq<int>
  {
    Repeat(fr.fileLabel, |fr.rows|)
  }

  /** `all_signals`: every file's rows, file after file. */
  function Signals<V>(results: seq<FileResult<V>>): seq<seq<V>>
  {
    FlatMap(results, RowsOf)
  }

  /** `all_labels`: every file's label, once per row of that file. */
  function Labels<V>(results: seq<FileResult<V>>): seq<int>
  {
    FlatMap(results, LabelsOf)
  }

  /** The length of the longest row, 0 when there is none. */
  function MaxLength<V>(rows: seq<seq<V>>): (m: nat)
    ensures forall i :: 0 <= i < |rows| ==> |rows[i]| <= m
    ensures rows == [] ==> m == 0
    ensures rows != [] ==> exists i :: 0 <= i < |rows| && |rows[i]| == m
  {
    if rows == [] then 0
    else
      var rest := MaxLength(rows[1..]);
      assert forall i :: 0 < i < |rows| ==> rows[i] == rows[1..][i - 1];
      if |rows[0]| >= rest then |rows[0]| else rest
  }

  lemma MaxLengthAppend<V>(a: seq<seq<V>>, b: seq<seq<V>>)
    ensures MaxLength(a + b) == if MaxLength(a) >= MaxLength(b) then MaxLength(a) else MaxLength(b)
  {
    var m := MaxLength(a + b);
    forall i | 0 <= i < |a| ensures |a[i]| <= m { assert a[i] == (a + b)[i]; }
    forall i | 0 <= i < |b| ensures |b[i]| <= m { assert b[i] == (a + b)[|a| + i]; }
    if a + b != [] {
      var k :| 0 <= k < |a + b| && |(a + b)[k]| == m;
      if k < |a| { assert (a + b)[k] == a[k]; } else { assert (a + b)[k] == b[k - |a|]; }
    }
  }

  /** The merge loop: the signals are the files' rows in file order, each
      file's label repeated once per row, and the running maximum is the
      length of the longest signal. Files with no rows are skipped, as
      `if file_data:` does, which changes none of the three. */
  method Merge<V>(results: seq<FileResult<V>>) returns (allSignals: seq<seq<V>>, allLabels: seq<int>, maxLength: nat)
    ensures allSignals == Signals(results)
    ensures allLabels == Labels(results)
    ensures maxLength == MaxLength(allSignals)
  {
    allSignals, allLabels, maxLength := [], [], 0;
    for j := 0 to |results|
      invariant allSignals == Signals(results[..j])
      invariant allLabels == Labels(results[..j])
      invariant maxLength == MaxLength(allSignals)
    {
      var fileData := results[j].rows;
      FlatMapTake(results, j, RowsOf);
      FlatMapTake(results, j, LabelsOf);
      if fileData != [] {
        MaxLengthAppend(allSignals, fileData);
        allSignals := allSignals + fileData;
        allLabels := allLabels + Repeat(results[j].fileLabel, |fileData|);
        var fileMax := MaxLength(fileData);
        maxLength := if maxLength >= fileMax then maxLength else fileMax;
      } else {
        assert allSignals + fileData == allSignals;
        assert allLabels + Repeat(results[j].fileLabel, 0) == allLabels;
      }
    }
    FlatMapTakeAll(results, RowsOf);
    FlatMapTakeAll(results, LabelsOf);
  }

  /** Where the rows of file `j` start among the signals. */
  function Offset<V>(results: seq<FileResult<V>>, j: nat): nat
    requires j <= |results|
  {
    |Signals(results[..j])|
  }

  /** One label per signal. */
  lemma {:induction false} SameLength<V>(results: seq<FileResult<V>>)
    ensures |Signals(results)| == |Labels(results)|
  {
    if results != [] {
      SameLength(results[1..]);
    }
  }

  /** The blocks follow one another: file `j + 1`'s starts where file
      `j`'s ends. */
  lemma OffsetStep<V>(results: seq<FileResult<V>>, j: nat)
    requires j < |results|
    ensures Offset(results, j + 1) == Offset(results, j) + |results[j].rows|
  {
    assert results[..j + 1] == results[..j] + [results[j]];
    FlatMapSnoc(results[..j], results[j], RowsOf<V>);
  }

  /** The signals and labels stay aligned, block by block: the signals
      from `Offset(results, j)` on are the rows of file `j`, in order, and
      the labels there are file `j`'s label, one per row. The first block
      starts at 0 and the last ends at the end of both lists. */
  lemma Aligned<V>(results: seq<FileResult<V>>)
    ensures |Signals(results)| == |Labels(results)|
    ensures Offset(results, 0) == 0 && Offset(results, |results|) == |Signals(results)|
    ensures forall j :: 0 <= j < |results| ==>
      Offset(results, j) + |results[j].rows| <= |Signals(results)| &&
      Signals(results)[Offset(results, j)..Offset(results, j) + |results[j].rows|] == results[j].rows &&
      Labels(results)[Offset(results, j)..Offset(results, j) + |results[j].rows|]
        == Repeat(results[j].fileLabel, |results[j].rows|)
  {
    SameLength(results);
    assert results[..0] == [];
    FlatMapTakeAll(results, RowsOf<V>);
    forall j | 0 <= j < |results|
      ensures Offset(results, j) + |results[j].rows| <= |Signals(results)|
      ensures Signals(results)[Offset(results, j)..Offset(results, j) + |results[j].rows|] == results[j].rows
      ensures Labels(results)[Offset(results, j)..Offset(results, j) + |results[j].rows|]
        == Repeat(results[j].fileLabel, |results[j].rows|)
    {
      AlignedBlock(results, j);
    }
  }

  lemma AlignedBlock<V>(results: seq<FileResult<V>>, j: nat)
    requires j < |results|
    ensures |Signals(results)| == |Labels(results)| &&
      Offset(results, j) + |results[j].rows| <= |Signals(results)|
    ensures Signals(results)[Offset(results, j)..Offset(results, j) + |results[j].rows|] == results[j].rows
    ensures |Signals(results)| == |Labels(results)| &&
      Labels(results)[Offset(results, j)..Offset(results, j) + |results[j].rows|]
        == Repeat(results[j].fileLabel, |results[j].rows|)
  {
    var before, after := results[..j], results[j + 1..];
    assert results == before + [results[j]] + after;
    FlatMapSnoc(before, results[j], RowsOf<V>);
    FlatMapSnoc(before, results[j], LabelsOf<V>);
    FlatMapAppend(before + [results[j]], after, RowsOf<V>);
    FlatMapAppend(before + [results[j]], after, LabelsOf<V>);
    SameLength(before);
    SameLength(results);
    var sb, lb := Signals(before), Labels(before);
    assert Signals(results) == sb + results[j].rows + Signals(after);
    assert Labels(results) == lb + LabelsOf(results[j]) + Labels(after);
    assert Signals(results)[|sb|..|sb| + |results[j].rows|] == results[j].rows;
    assert Labels(results)[|lb|..|lb| + |results[j].rows|] == LabelsOf(results[j]);
  }
}
