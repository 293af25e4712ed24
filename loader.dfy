/** `load_data_with_labels_optimized` end to end: enumerate and label the
    files, read them all (`executor.map`, results in submission order),
    merge, pad. The file system's `open` is the parameter `fs`, giving the
    lines of the file at a path; `float` is `parse`; the zero that pads is
    `zero`. */
module Loader {
  import opened Common
  import opened DirTree
  import opened Scanner
  import opened Reader
  import opened Aligner
  import opened Padder

  /** The two arrays the loader returns: the padded signals and, aligned
      with them, the labels. */
  datatype Dataset<V> = Dataset(signals: seq<seq<V>>, labels: seq<int>)

  /** `list(executor.map(read_file_with_label, file_paths))`: every file
      read, results in submission order; if any read raised, the first
      failing one in that order is what `list` re-raises. */
  function ReadAll<V>(fps: seq<LabeledFile>, fs: Path -> seq<string>, parse: string -> Option<V>)
    : (r: Result<seq<FileResult<V>>, ParseError>)
    ensures r.Success? <==> forall j :: 0 <= j < |fps| ==> ReadLines(fs(fps[j].path), parse).Success?
    ensures r.Success? ==> (|r.value| == |fps| &&
      forall j :: 0 <= j < |fps| ==>
        Success(r.value[j]) == ReadFileWithLabel(fs(fps[j].path), fps[j].fileLabel, parse))
  {
    if fps == [] then Success([])
    else
      var rest := fps[1..];
      assert forall j :: 0 < j < |fps| ==> fps[j] == rest[j - 1];
      match ReadFileWithLabel(fs(fps[0].path), fps[0].fileLabel, parse)
      case Failure(e) => Failure(e)
      case Success(fr) =>
        match ReadAll(rest, fs, parse)
        case Failure(e) => Failure(e)
        case Success(frs) => Success([fr] + frs)
  }

  /** When a read raises, the error is that of the first file, in
      submission order, whose read raised. */
  lemma {:induction false} ReadAllFirstFailure<V>(fps: seq<LabeledFile>, fs: Path -> seq<string>, parse: string -> Option<V>)
    requires ReadAll(fps, fs, parse).Failure?
    ensures exists j ::
      0 <= j < |fps| &&
      ReadLines(fs(fps[j].path), parse) == Failure(ReadAll(fps, fs, parse).error) &&
      (forall i :: 0 <= i < j ==> ReadLines(fs(fps[i].path), parse).Success?)
  {
    var e := ReadAll(fps, fs, parse).error;
    var first := ReadLines(fs(fps[0].path), parse);
    if first.Success? {
      var tail := fps[1..];
      assert ReadAll(fps, fs, parse) == ReadAll(tail, fs, parse);
      ReadAllFirstFailure(tail, fs, parse);
      var j :| 0 <= j < |tail| &&
        ReadLines(fs(tail[j].path), parse) == Failure(e) &&
        (forall i :: 0 <= i < j ==> ReadLines(fs(tail[i].path), parse).Success?);
      assert fps[j + 1] == tail[j];
      forall i | 0 <= i <= j ensures ReadLines(fs(fps[i].path), parse).Success? {
        if i > 0 {
          assert fps[i] == tail[i - 1];
        }
      }
    } else {
      assert first == Failure(e);
    }
  }

  /** The whole pipeline as one function of the tree and the files. */
  function Loaded<V>(root: Dir, fs: Path -> seq<string>, parse: string -> Option<V>, zero: V)
    : Result<Dataset<V>, ParseError>
  {
    match ReadAll(Labelled(EnumPaths(root)), fs, parse)
    case Failure(e) => Failure(e)
    case Success(results) => Success(Assemble(results, zero))
  }

  /** The merge and the padding, applied to what the reads returned. */
  function Assemble<V>(results: seq<FileResult<V>>, zero: V): Dataset<V>
  {
    var signals := Signals(results);
    Dataset(Pad(signals, MaxLength(signals), zero), Labels(results))
  }

  /** File `j`'s rows, padded, sit at `Offset(results, j)` of the
      assembled signals, and its label once per row at the same place of
      the labels. */
  lemma AssembledBlock<V>(results: seq<FileResult<V>>, zero: V, j: nat)
    requires j < |results|
    ensures var ds := Assemble(results, zero);
      var o, n := Offset(results, j), |results[j].rows|;
      |ds.labels| == |ds.signals| && o + n <= |ds.signals| &&
      ds.labels[o..o + n] == Repeat(results[j].fileLabel, n) &&
      ds.signals[o..o + n] == Pad(results[j].rows, MaxLength(Signals(results)), zero)
  {
    var signals := Signals(results);
    AlignedBlock(results, j);
    var o := Offset(results, j);
    PadSlice(signals, MaxLength(signals), zero, o, o + |results[j].rows|);
  }

  /** `load_data_with_labels_optimized(directory)`. */
  method LoadDataWithLabels<V>(root: Dir, fs: Path -> seq<string>, parse: string -> Option<V>, zero: V)
    returns (r: Result<Dataset<V>, ParseError>)
    ensures r == Loaded(root, fs, parse, zero)
    ensures r.Success? <==>
      forall i :: 0 <= i < |EnumPaths(root)| ==> ReadLines(fs(EnumPaths(root)[i]), parse).Success?
    ensures r.Success? ==> |r.value.signals| == |r.value.labels|
    ensures r.Failure? ==> exists j ::
      0 <= j < |EnumPaths(root)| &&
      ReadLines(fs(EnumPaths(root)[j]), parse) == Failure(r.error) &&
      (forall i :: 0 <= i < j ==> ReadLines(fs(EnumPaths(root)[i]), parse).Success?)
  {
    var filePaths := Enumerate(root);
    var results := ReadAll(filePaths, fs, parse);
    if results.Failure? {
      ReadAllFirstFailure(filePaths, fs, parse);
      return Failure(results.error);
    }
    var allSignals, allLabels, maxLength := Merge(results.value);
    var paddedSignals := Pad(allSignals, maxLength, zero);
    r := Success(Dataset(paddedSignals, allLabels));
    Aligned(results.value);
  }

  /** On success the result is rectangular: as many labels as rows, and
      every row exactly as long as the longest signal read. */
  lemma LoadedShape<V>(root: Dir, fs: Path -> seq<string>, parse: string -> Option<V>, zero: V)
    requires Loaded(root, fs, parse, zero).Success?
    ensures ReadAll(Labelled(EnumPaths(root)), fs, parse).Success? &&
      var ds := Loaded(root, fs, parse, zero).value;
      var results := ReadAll(Labelled(EnumPaths(root)), fs, parse).value;
      |ds.signals| == |ds.labels| == |Signals(results)| &&
      forall i :: 0 <= i < |ds.signals| ==> |ds.signals[i]| == MaxLength(Signals(results))
  {
    var results := ReadAll(Labelled(EnumPaths(root)), fs, parse).value;
    Aligned(results);
  }

  /** On success the output is the reads' results merged and padded
      (`Assemble`), and the `j`-th result is the rows of the `j`-th
      enumerated file under label `j`; `AssembledBlock` then places those
      rows, padded, and `j` once per row at the same positions of the two
      outputs. */
  lemma LoadedLabels<V>(root: Dir, fs: Path -> seq<string>, parse: string -> Option<V>, zero: V,
                        results: seq<FileResult<V>>, j: nat)
    requires ReadAll(Labelled(EnumPaths(root)), fs, parse) == Success(results)
    requires j < |EnumPaths(root)|
    ensures Loaded(root, fs, parse, zero) == Success(Assemble(results, zero))
    ensures j < |results| && results[j].fileLabel == j &&
      ReadLines(fs(EnumPaths(root)[j]), parse) == Success(results[j].rows)
  {
    var fps := Labelled(EnumPaths(root));
    assert fps[j] == LabeledFile(EnumPaths(root)[j], j);
    ReadAllEntry(fps, fs, parse, j);
  }

  /** The `j`-th result of the reads is file `j`'s rows with its label. */
  lemma ReadAllEntry<V>(fps: seq<LabeledFile>, fs: Path -> seq<string>, parse: string -> Option<V>, j: nat)
    requires ReadAll(fps, fs, parse).Success? && j < |fps|
    ensures ReadLines(fs(fps[j].path), parse).Success? && j < |ReadAll(fps, fs, parse).value| &&
      ReadAll(fps, fs, parse).value[j] == FileResult(ReadLines(fs(fps[j].path), parse).value, fps[j].fileLabel)
  {
    var r := ReadAll(fps, fs, parse).value;
    assert Success(r[j]) == ReadFileWithLabel(fs(fps[j].path), fps[j].fileLabel, parse);
  }

  /** A tree with no `.txt` file below its first level loads as two empty
      arrays, without error. */
  lemma LoadedEmpty<V>(root: Dir, fs: Path -> seq<string>, parse: string -> Option<V>, zero: V)
    requires EnumPaths(root) == []
    ensures Loaded(root, fs, parse, zero) == Success(Dataset([], []))
  {
    assert Labelled(EnumPaths(root)) == [];
    assert Signals<V>([]) == [];
    assert Labels<V>([]) == [];
  }
}
