# data_loader: a verified model of the signal loader

`data_loader.py` builds a training set from a tree of text recordings in
four steps:

1. It walks the directory tree and collects `.txt` files. Each collected
   entry gets the next integer label, counting from 0.
2. It reads every file. Each non-blank line becomes one row of numbers.
3. It merges the rows of all files in submission order. Each file's label
   is repeated once per row, and the length of the longest row is tracked.
4. It right-pads every row with zeros to that length.

This project models those four steps in Dafny and proves what they
guarantee.

The modules follow the program's structure:

- `Common` holds `Option`, `Result`, `FlatMap` and `Repeat` (Python's
  `[x] * n`).
- `Text` holds Python's `str.isspace`, `str.strip` (as the blank-line
  test) and `str.split()` with no argument.
- `Names` holds Python's string order (code-point lexicographic order),
  `sorted` on a list of names, and `endswith('.txt')`.
- `DirTree` holds the directory tree and `os.walk` (top-down, pre-order).
- `Scanner` holds the enumeration and labelling loops of
  `load_data_with_labels_optimized` (`Enumerate`) and the sequence they
  produce (`EnumPaths`).
- `Reader` holds `read_file_with_label`.
- `Aligner` holds the merge loop (`Merge`).
- `Padder` holds the padding comprehension.
- `Loader` holds `load_data_with_labels_optimized` end to end.

The values are generic. `float(token)` is a partial function
`parse: string -> Option<V>`, where `None` stands for the `ValueError`
Python raises. The `0` that pads is a parameter `zero: V`. The file
system is a `Dir` tree plus a function `fs` that gives the lines of the
file at a path. A path is the sequence of names followed from the scanned
root, which stands for the strings `os.path.join` builds.

The enumeration is modelled as the code is written:

- The outer `os.walk` visits every directory.
- For each subdirectory of a visited directory, an inner `os.walk`
  collects every `.txt` file of that subdirectory's whole subtree.
- Files directly in the root are therefore never collected
  (`Scanner.RootFilesNeverEnumerated`).
- In a tree without symbolic links, a file `k` levels below the root is
  collected `k` times, with `k` different labels
  (`Scanner.EnumeratedExactly`).

The loops are easy to misread as collecting only the files two levels
down, once each. They do not, and the model follows what they do.

## Model

| member | source | states |
|---|---|---|
| `Common.Repeat` | data_loader.py:40 | `[label] * n` has length `n` and every element is `label` |
| `Text.TokensAreTokens` | data_loader.py:13 | every token of `line.split()` is non-empty and contains no whitespace |
| `Text.TokensConcat` | data_loader.py:13 | the tokens, concatenated, are the line with all whitespace removed: nothing but whitespace is dropped, and the order is kept |
| `Text.TokensEmptyIffBlank` | data_loader.py:13 | `line.split()` is empty exactly when `line.strip()` is empty, i.e. when the line is whitespace only |
| `Text.TokensOfJoin` | data_loader.py:13 | splitting whitespace-free tokens joined by single spaces gives back those tokens (a round trip) |
| `Text.TokensOfInterleave` | data_loader.py:13 | the general round trip: tokens separated by non-empty runs of any whitespace, with any whitespace or none before the first and after the last (such as the line's `'\n'`), split back into exactly those tokens |
| `Names.LexLeTotal` | data_loader.py:27 | any two names are comparable in Python's string order |
| `Names.LexLeTrans` | data_loader.py:27 | the string order is transitive |
| `Names.LexLeAntisym` | data_loader.py:27 | the string order is antisymmetric, so `sorted` is determined |
| `Names.SortNamesPermutes` | data_loader.py:27 | `sorted(files)` is a permutation of `files` |
| `Names.SortNamesSorted` | data_loader.py:27 | `sorted(files)` is in ascending string order |
| `Names.SortedUnique` | data_loader.py:27 | two sorted permutations of the same names are equal, so the sorted listing does not depend on the order the OS lists files in |
| `DirTree.WalkBelow` | data_loader.py:23 | `os.walk(p)` yields `p` first, then only paths strictly below `p` |
| `DirTree.WalkDistinct` | data_loader.py:23 | in a well-formed tree (at every level, no two files and no two subdirectories of one directory share a name), `os.walk` yields each directory once |
| `Scanner.CollectListing` | data_loader.py:27-32 | the loop over `sorted(files)` appends each `.txt` file of the directory, in name order, numbered on from the current counter |
| `Scanner.CollectSubtree` | data_loader.py:26-32 | the inner walk appends, numbered on from the current counter, the sorted `.txt` files of each directory of the subtree in walk order |
| `Scanner.CollectChildren` | data_loader.py:24-32 | for one outer walk entry, appends the subtree files of each of its subdirectories, numbered on |
| `Scanner.Enumerate` | data_loader.py:20-32 | `file_paths` is `EnumPaths(root)` with entry `i` labelled `i`, so labels are consecutive from 0 and pairwise distinct, even for a path collected twice |
| `Scanner.ListingOrdered` | data_loader.py:27-29 | one directory's listing contains only that directory's `.txt` files, in ascending name order, and all of them |
| `Scanner.EnumeratedShape` | data_loader.py:23-29 | every collected path names a `.txt` file at least one directory below the root |
| `Scanner.SubtreeShape` | data_loader.py:26-29 | what the inner walk from a subdirectory collects lies below that subdirectory, at least one level down, and is a `.txt` file |
| `Scanner.ChildShape` | data_loader.py:24-29 | what the inner walks under one directory collect lies below that directory, at least two levels down, and is a `.txt` file |
| `Scanner.RootFilesNeverEnumerated` | data_loader.py:23-26 | a file directly in the root is never collected |
| `Scanner.EnumeratedByDepth` | data_loader.py:23-29 | as a multiset, the collected paths are every directory's listing counted once per level of that directory's depth |
| `Scanner.EnumeratedExactly` | data_loader.py:23-32 | in a well-formed tree, a `.txt` file `k` levels below the root is collected exactly `k` times |
| `Reader.ParseTokens` | data_loader.py:13 | `list(map(float, tokens))` succeeds exactly when every token converts, with one value per token in order; otherwise the error names a token that does not convert |
| `Reader.ParseRows` | data_loader.py:13 | converting the kept lines succeeds exactly when every token of every line converts, giving one row per line in order; otherwise the failing token comes from one of the lines |
| `Reader.ReadLines` | data_loader.py:13 | succeeds exactly when every token of every non-blank line converts; gives one row per non-blank line, in file order, each row that line's converted tokens; otherwise the failing token comes from a non-blank line |
| `Reader.RowsMatchLines` | data_loader.py:13 | each row has one value per token of its line, so no row is empty |
| `Reader.NonBlankKept` | data_loader.py:13 | the kept lines are lines of the file that are not whitespace only |
| `Reader.NonBlankAppend` | data_loader.py:13 | the filter `if line.strip()` works line by line: filtering a file in two parts is filtering each part, in order |
| `Reader.NonBlankLine` | data_loader.py:13 | a single line is kept exactly when it is not whitespace only; with `Reader.NonBlankAppend` this fixes the filter completely, keeping every non-blank line once, in file order |
| `Reader.NonBlankComplete` | data_loader.py:13 | every line that is not whitespace only is kept |
| `Reader.ReadFileWithLabel` | data_loader.py:10-14 | the read fails exactly when the line parse fails; otherwise it returns the rows with the label it was given |
| `Aligner.MaxLength` | data_loader.py:19-41 | the maximum length bounds every row, is 0 with no rows, and is the length of some row otherwise |
| `Aligner.MaxLengthAppend` | data_loader.py:41 | the maximum over two lists of rows is the larger of the two maxima |
| `Aligner.Merge` | data_loader.py:17-41 | the loop's `all_signals` are the files' rows in file order, `all_labels` each file's label once per row, and `max_length` the longest signal; skipping empty files changes none of them |
| `Aligner.SameLength` | data_loader.py:39-40 | there are as many labels as signals |
| `Aligner.OffsetStep` | data_loader.py:39 | file `j + 1`'s block of signals starts where file `j`'s ends |
| `Aligner.Aligned` | data_loader.py:37-40 | block by block, the signals of file `j` sit at its offset and the labels at the same positions are file `j`'s label; the blocks cover both lists from start to end |
| `Aligner.AlignedBlock` | data_loader.py:37-40 | the same alignment for one file's block |
| `Padder.Pad` | data_loader.py:43 | row count and order are kept; each padded row starts with its signal, continues with zeros only, and is `max_length` long (or its own length if that is longer) |
| `Padder.PadToLongest` | data_loader.py:41-43 | when no signal is longer than `max_length`, every padded row has exactly that length |
| `Padder.PadIdempotent` | data_loader.py:43 | padding padded rows changes nothing |
| `Padder.PadSlice` | data_loader.py:43 | padding a block of rows is the same block of the padded rows |
| `Loader.ReadAll` | data_loader.py:34-35 | `list(executor.map(...))` succeeds exactly when every file's read succeeds, and gives the results in submission order, each with its own label |
| `Loader.ReadAllFirstFailure` | data_loader.py:34-35 | when a read fails, the error raised is the one of the first failing file in submission order |
| `Loader.ReadAllEntry` | data_loader.py:34-35 | on success, the `j`-th result holds file `j`'s rows and its label |
| `Loader.AssembledBlock` | data_loader.py:37-43 | after merge and padding, file `j`'s padded rows and `j`'s label once per row share the same positions of the two outputs |
| `Loader.LoadDataWithLabels` | data_loader.py:16-44 | the method computes `Loaded`; it succeeds exactly when every collected file parses; on success it returns as many labels as rows; on failure the error is that of the first failing collected file |
| `Loader.LoadedShape` | data_loader.py:37-44 | on success the signals are rectangular: one label per row, and every row exactly as long as the longest signal read |
| `Loader.LoadedLabels` | data_loader.py:30-44 | on success the output is the read results merged and padded, and the `j`-th result is the rows of the `j`-th collected file under label `j`; with `Loader.AssembledBlock`, those rows, padded and in file order, form one block of the output labelled `j` throughout |
| `Loader.LoadedEmpty` | data_loader.py:17-44 | a tree with nothing to collect loads as two empty arrays, without error |

## Left out

- File system access is left out. `os.walk`, `os.path.join` and `open`
  are not modelled as I/O: the tree is a `Dir` value, a path is a list of
  names, and a file's lines are given by `fs`. So are unreadable
  directories, which `os.walk` ignores, and unreadable files, which
  `open` raises on.
- Symbolic links are not modelled: a `Dir` cannot express them. The outer
  `os.walk` lists a link to a directory in `dirs` without descending into
  it, while the inner `os.walk` started at that link does descend. A
  `.txt` file under a linked directory can therefore be collected fewer
  than `k` times. `Scanner.EnumeratedExactly` and
  `Scanner.EnumeratedByDepth` describe trees without symbolic links.
- The order in which the operating system lists subdirectories is taken
  as given in the tree, as `os.walk` does not sort it. The order of
  `files` is also taken as given, but it does not matter, because the
  code sorts it (`Names.SortedUnique`).
- The `ThreadPoolExecutor` at data_loader.py:34-35 is modelled as a
  sequential map. Only its result order is observable, and `map` keeps
  submission order.
- `float()` is left abstract as `parse`, so the values are generic.
  Floating-point conversion is not modelled.
- `np.array` at data_loader.py:44 is the identity on the padded rows and
  the labels.
- `Scanner.Enumerate`: the loop nest of data_loader.py:23-32 is split
  into four methods, one per loop (`Enumerate`, `CollectChildren`,
  `CollectSubtree`, `CollectListing`). The loops and their order are
  unchanged. The counter `current_label` always equals the number of
  pairs appended so far, so each method takes it as the length of the
  list it is given.
- `preprocess_data` (data_loader.py:46-50) is not part of this model. It
  is the `StandardScaler` normalisation and the torch reshape, which are
  floating-point work inside foreign libraries.
- The plots and printing of `check_empty_labels` and
  `count_spikes_per_label` (data_loader.py:52-73) are not part of this
  model.
- The script entry point and `torch.save` (data_loader.py:75-86) are not
  part of this model.
- `Scanner.EnumeratedExactly` assumes two things about the tree:
  - sibling directories have distinct names, which every real directory
    has;
  - the directory's file names are distinct.
  Without them, the count is the number of times the name occurs times
  the depth (`Scanner.EnumeratedByDepth`).
