/** Enumeration of the files to load and their labels, as
    `load_data_with_labels_optimized` does it before any file is read:
    for every directory the outer walk visits, and for every subdirectory
    of it, a second walk of that subdirectory collects its `.txt` files,
    each with the next value of a counter that starts at 0. */
module Scanner {
  import opened Common
  import opened Names
  import opened DirTree

  /** One pair appended to `file_paths`. */
  datatype LabeledFile = LabeledFile(path: Path, fileLabel: int)

  /** The `.txt` file `f` of the directory at `p`, if it is one. */
  function TxtOf(p: Path): string -> seq<Path>
  {
    (f: string) => if IsTxt(f) then [p + [f]] else []
  }

  /** What one triple of the inner walk contributes: the directory's
      `.txt` files in sorted order. */
  function Listing(e: WalkEntry): seq<Path>
  {
    FlatMap(SortNames(e.dir.files), TxtOf(e.path))
  }

  /** What the inner walk of the subdirectory `s` of `p` contributes. */
  function SubtreeOf(p: Path): Sub -> seq<Path>
  {
    (s: Sub) => FlatMap(Walk(p + [s.name], s.dir), Listing)
  }

  /** What one triple of the outer walk contributes: the inner walks of its
      subdirectories, one after the other. */
  function ChildPaths(e: WalkEntry): seq<Path>
  {
    FlatMap(e.dir.subdirs, SubtreeOf(e.path))
  }

  /** The paths in `file_paths`, in order. */
  function EnumPaths(root: Dir): seq<Path>
  {
    FlatMap(Walk([], root), ChildPaths)
  }

  /** `fps` pairs the paths `ps`, in order, with the labels 0, 1, 2, ... */
  predicate IsLabelled(fps: seq<LabeledFile>, ps: seq<Path>)
  {
    |fps| == |ps| && forall i :: 0 <= i < |fps| ==> fps[i] == LabeledFile(ps[i], i)
  }

  /** The paths `ps` numbered from 0. */
  function Labelled(ps: seq<Path>): (fps: seq<LabeledFile>)
    ensures IsLabelled(fps, ps)
  {
    seq(|ps|, i requires 0 <= i < |ps| => LabeledFile(ps[i], i))
  }

  lemma LabelledSnoc(fps: seq<LabeledFile>, ps: seq<Path>, x: Path)
    requires IsLabelled(fps, ps)
    ensures IsLabelled(fps + [LabeledFile(x, |fps|)], ps + [x])
  {
  }

  /** `for file in sorted(files)` over one triple of an inner walk:
      appends each `.txt` file, with the next label, to the pairs collected
      so far. */
  method CollectListing(e: WalkEntry, filePaths: seq<LabeledFile>, ghost paths: seq<Path>)
    returns (filePaths': seq<LabeledFile>)
    requires IsLabelled(filePaths, paths)
    ensures IsLabelled(filePaths', paths + Listing(e))
  {
    filePaths' := filePaths;
    var currentLabel := |filePaths|;
    ghost var done := paths;
    var subdirRoot := e.path;
    var files := SortNames(e.dir.files);
    var k := 0;
    while k < |files|
      invariant 0 <= k <= |files|
      invariant currentLabel == |filePaths'|
      invariant IsLabelled(filePaths', done)
      invariant done == paths + FlatMap(files[..k], TxtOf(subdirRoot))
    {
      FlatMapTake(files, k, TxtOf(subdirRoot));
      if IsTxt(files[k]) {
        var filePath := subdirRoot + [files[k]];
        LabelledSnoc(filePaths', done, filePath);
        filePaths' := filePaths' + [LabeledFile(filePath, currentLabel)];
        currentLabel := currentLabel + 1;
        done := done + [filePath];
      }
      k := k + 1;
    }
    FlatMapTakeAll(files, TxtOf(subdirRoot));
  }

  /** The inner walk of one subdirectory (`for subdir_root, subdirs, files
      in os.walk(dir_path)`): appends its `.txt` files, each with the next
      label, to the pairs collected so far. */
  method CollectSubtree(dirPath: Path, d: Dir, filePaths: seq<LabeledFile>, ghost paths: seq<Path>)
    returns (filePaths': seq<LabeledFile>)
    requires IsLabelled(filePaths, paths)
    ensures IsLabelled(filePaths', paths + FlatMap(Walk(dirPath, d), Listing))
  {
    filePaths' := filePaths;
    ghost var done := paths;
    var inner := Walk(dirPath, d);
    var c := 0;
    while c < |inner|
      invariant 0 <= c <= |inner|
      invariant IsLabelled(filePaths', done)
      invariant done == paths + FlatMap(inner[..c], Listing)
    {
      filePaths' := CollectListing(inner[c], filePaths', done);
      FlatMapTake(inner, c, Listing);
      done := done + Listing(inner[c]);
      c := c + 1;
    }
    FlatMapTakeAll(inner, Listing);
  }

  /** The loop `for dir_name in dirs` over the subdirectories of one
      directory of the outer walk: appends what the inner walk of each
      collects. */
  method CollectChildren(e: WalkEntry, filePaths: seq<LabeledFile>, ghost paths: seq<Path>)
    returns (filePaths': seq<LabeledFile>)
    requires IsLabelled(filePaths, paths)
    ensures IsLabelled(filePaths', paths + ChildPaths(e))
  {
    filePaths' := filePaths;
    ghost var done := paths;
    var subs := e.dir.subdirs;
    var b := 0;
    while b < |subs|
      invariant 0 <= b <= |subs|
      invariant IsLabelled(filePaths', done)
      invariant done == paths + FlatMap(subs[..b], SubtreeOf(e.path))
    {
      var dirPath := e.path + [subs[b].name];
      filePaths' := CollectSubtree(dirPath, subs[b].dir, filePaths', done);
      FlatMapTake(subs, b, SubtreeOf(e.path));
      done := done + FlatMap(Walk(dirPath, subs[b].dir), Listing);
      b := b + 1;
    }
    FlatMapTakeAll(subs, SubtreeOf(e.path));
  }

  /** The enumeration loop of `load_data_with_labels_optimized`: the i-th
      pair it appends is the i-th enumerated path with label i. */
  method Enumerate(root: Dir) returns (filePaths: seq<LabeledFile>)
    ensures |filePaths| == |EnumPaths(root)|
    ensures forall i :: 0 <= i < |filePaths| ==> filePaths[i] == LabeledFile(EnumPaths(root)[i], i)
    ensures filePaths == Labelled(EnumPaths(root))
  {
    filePaths := [];
    ghost var done: seq<Path> := [];
    var outer := Walk([], root);
    var a := 0;
    while a < |outer|
      invariant 0 <= a <= |outer|
      invariant IsLabelled(filePaths, done)
      invariant done == FlatMap(outer[..a], ChildPaths)
    {
      filePaths := CollectChildren(outer[a], filePaths, done);
      FlatMapTake(outer, a, ChildPaths);
      done := done + ChildPaths(outer[a]);
      a := a + 1;
    }
    FlatMapTakeAll(outer, ChildPaths);
  }

  /** `x` is the path of a `.txt` file named in `names`, in the directory
      at `p`. */
  predicate TxtFileOf(p: Path, names: seq<string>, x: Path)
  {
    |x| == |p| + 1 && x[..|p|] == p && IsTxt(FileName(x)) && FileName(x) in names
  }

  lemma {:induction false} TxtListingShape(p: Path, names: seq<string>)
    ensures forall k :: 0 <= k < |FlatMap(names, TxtOf(p))| ==>
      TxtFileOf(p, names, FlatMap(names, TxtOf(p))[k])
  {
    if names != [] {
      var L := FlatMap(names, TxtOf(p));
      var head := TxtOf(p)(names[0]);
      var tail := FlatMap(names[1..], TxtOf(p));
      TxtListingShape(p, names[1..]);
      assert L == head + tail;
      assert (p + [names[0]])[..|p|] == p;
      forall k | 0 <= k < |L| ensures TxtFileOf(p, names, L[k]) {
        if k >= |head| {
          assert L[k] == tail[k - |head|];
          assert TxtFileOf(p, names[1..], tail[k - |head|]);
        }
      }
    }
  }

  lemma {:induction false} TxtListingSorted(p: Path, names: seq<string>)
    requires Sorted(names)
    ensures forall i, j :: 0 <= i < j < |FlatMap(names, TxtOf(p))| ==>
      LexLe(FileName(FlatMap(names, TxtOf(p))[i]), FileName(FlatMap(names, TxtOf(p))[j]))
  {
    if names != [] {
      var L := FlatMap(names, TxtOf(p));
      var head := TxtOf(p)(names[0]);
      var tail := FlatMap(names[1..], TxtOf(p));
      SortedTail(names);
      TxtListingSorted(p, names[1..]);
      TxtListingShape(p, names[1..]);
      assert L == head + tail;
      forall i, j | 0 <= i < j < |L| ensures LexLe(FileName(L[i]), FileName(L[j])) {
        if i < |head| {
          assert L[i] == p + [names[0]];
          assert L[j] == tail[j - |head|];
          assert TxtFileOf(p, names[1..], tail[j - |head|]);
          var m :| 0 <= m < |names[1..]| && names[1..][m] == FileName(L[j]);
          assert names[m + 1] == FileName(L[j]);
        } else {
          assert L[i] == tail[i - |head|] && L[j] == tail[j - |head|];
        }
      }
    }
  }

  lemma {:induction false} TxtListingComplete(p: Path, names: seq<string>)
    ensures forall f :: f in names && IsTxt(f) ==> p + [f] in FlatMap(names, TxtOf(p))
  {
    if names != [] {
      var L := FlatMap(names, TxtOf(p));
      TxtListingComplete(p, names[1..]);
      assert L == TxtOf(p)(names[0]) + FlatMap(names[1..], TxtOf(p));
      forall f | f in names && IsTxt(f) ensures p + [f] in L {
        if f == names[0] {
          assert L[0] == p + [f];
        } else {
          assert f in names[1..];
        }
      }
    }
  }

  /** One directory listing contributes exactly the `.txt` files it names,
      each as a path in that directory, in ascending order of file name. */
  lemma ListingOrdered(e: WalkEntry)
    ensures forall k :: 0 <= k < |Listing(e)| ==> TxtFileOf(e.path, e.dir.files, Listing(e)[k])
    ensures forall i, j :: 0 <= i < j < |Listing(e)| ==>
      LexLe(FileName(Listing(e)[i]), FileName(Listing(e)[j]))
    ensures forall f :: f in e.dir.files && IsTxt(f) ==> e.path + [f] in Listing(e)
  {
    var sorted := SortNames(e.dir.files);
    SortNamesSorted(e.dir.files);
    SortNamesPermutes(e.dir.files);
    TxtListingShape(e.path, sorted);
    TxtListingSorted(e.path, sorted);
    TxtListingComplete(e.path, sorted);
    forall f ensures f in sorted <==> f in e.dir.files {
      assert f in sorted <==> f in multiset(sorted);
      assert f in e.dir.files <==> f in multiset(e.dir.files);
    }
  }

  /** Every enumerated path is that of a `.txt` file at least one level
      below the root: the inner walks start in subdirectories. */
  lemma EnumeratedShape(root: Dir, x: Path)
    requires x in EnumPaths(root)
    ensures |x| >= 2 && IsTxt(FileName(x))
  {
    var outer := Walk([], root);
    FlatMapMember(outer, ChildPaths, x);
    var i :| 0 <= i < |outer| && x in ChildPaths(outer[i]);
    ChildShape(outer[i], x);
  }

  /** What the inner walks started below one directory collect lies two
      or more levels below it. */
  lemma ChildShape(e: WalkEntry, x: Path)
    requires x in ChildPaths(e)
    ensures Below(e.path, x) && |x| >= |e.path| + 2 && IsTxt(FileName(x))
  {
    FlatMapMember(e.dir.subdirs, SubtreeOf(e.path), x);
    var j :| 0 <= j < |e.dir.subdirs| && x in SubtreeOf(e.path)(e.dir.subdirs[j]);
    var sub := e.dir.subdirs[j];
    var q := e.path + [sub.name];
    SubtreeShape(q, sub.dir, x);
    assert x[..|e.path|] == x[..|q|][..|e.path|] == q[..|e.path|] == e.path;
  }

  /** What the inner walk from `q` collects lies below `q`, one level or
      more, and is a `.txt` file. */
  lemma SubtreeShape(q: Path, d: Dir, x: Path)
    requires x in FlatMap(Walk(q, d), Listing)
    ensures Below(q, x) && |x| >= |q| + 1 && IsTxt(FileName(x))
  {
    var inner := Walk(q, d);
    FlatMapMember(inner, Listing, x);
    var k :| 0 <= k < |inner| && x in Listing(inner[k]);
    WalkBelow(q, d);
    var r := inner[k].path;
    assert Below(q, r);
    ListingOrdered(inner[k]);
    ListingOnlyOwn(inner[k], x);
    assert x[..|q|] == x[..|x| - 1][..|q|] == r[..|q|] == q;
    var m :| 0 <= m < |Listing(inner[k])| && Listing(inner[k])[m] == x;
  }

  /** A file directly in the scanned directory is never loaded. */
  lemma RootFilesNeverEnumerated(root: Dir, f: string)
    ensures [f] !in EnumPaths(root)
  {
    if [f] in EnumPaths(root) {
      EnumeratedShape(root, [f]);
    }
  }

  /** `k` copies of `m`. */
  function Times<T>(m: multiset<T>, k: nat): multiset<T>
  {
    if k == 0 then multiset{} else m + Times(m, k - 1)
  }

  /** How many directory levels `q` lies below depth `base`. */
  function Depth(q: Path, base: nat): nat
  {
    if |q| >= base then |q| - base else 0
  }

  /** The listings of the triples `ws`, each counted once per level its
      directory lies below depth `base`. */
  function Weighted(ws: seq<WalkEntry>, base: nat): multiset<Path>
  {
    if ws == [] then multiset{}
    else Times(multiset(Listing(ws[0])), Depth(ws[0].path, base)) + Weighted(ws[1..], base)
  }

  lemma {:induction false} WeightedAppend(ws: seq<WalkEntry>, vs: seq<WalkEntry>, base: nat)
    ensures Weighted(ws + vs, base) == Weighted(ws, base) + Weighted(vs, base)
  {
    if ws == [] {
      assert ws + vs == vs;
    } else {
      assert (ws + vs)[1..] == ws[1..] + vs;
      WeightedAppend(ws[1..], vs, base);
    }
  }

  /** Counting from one level higher up adds each listing once more. */
  lemma {:induction false} WeightedShift(ws: seq<WalkEntry>, base: nat)
    requires forall k :: 0 <= k < |ws| ==> |ws[k].path| > base
    ensures Weighted(ws, base) == Weighted(ws, base + 1) + multiset(FlatMap(ws, Listing))
  {
    if ws != [] {
      var rest := ws[1..];
      assert forall k :: 0 <= k < |rest| ==> rest[k] == ws[k + 1];
      WeightedShift(rest, base);
      var m := multiset(Listing(ws[0]));
      var d := Depth(ws[0].path, base + 1);
      var t := Times(m, d);
      var w1, l := Weighted(rest, base + 1), multiset(FlatMap(rest, Listing));
      assert Depth(ws[0].path, base) == d + 1;
      assert Times(m, d + 1) == m + t;
      assert Weighted(ws, base) == m + t + (w1 + l);
      assert Weighted(ws, base + 1) == t + w1;
      assert multiset(FlatMap(ws, Listing)) == m + l;
      Shuffle(m, t, w1, l);
    }
  }

  lemma Shuffle<T>(a: multiset<T>, b: multiset<T>, c: multiset<T>, d: multiset<T>)
    ensures a + b + (c + d) == (b + c) + (a + d)
  {
  }

  lemma {:induction false} EnumWeightedWalk(p: Path, d: Dir)
    ensures multiset(FlatMap(Walk(p, d), ChildPaths)) == Weighted(Walk(p, d), |p|)
    decreases d, 1
  {
    var w := Walk(p, d);
    var rest := WalkSubs(p, d.subdirs);
    assert w[0] == WalkEntry(p, d) && w[1..] == rest;
    EnumWeightedSubs(p, d.subdirs);
  }

  lemma {:induction false} EnumWeightedSubs(p: Path, subs: seq<Sub>)
    ensures multiset(FlatMap(WalkSubs(p, subs), ChildPaths)) + multiset(FlatMap(subs, SubtreeOf(p)))
         == Weighted(WalkSubs(p, subs), |p|)
    decreases subs, 0
  {
    if subs != [] {
      var q := p + [subs[0].name];
      var w := Walk(q, subs[0].dir);
      var r := WalkSubs(p, subs[1..]);
      EnumWeightedWalk(q, subs[0].dir);
      EnumWeightedSubs(p, subs[1..]);
      WalkBelow(q, subs[0].dir);
      WeightedShift(w, |p|);
      WeightedAppend(w, r, |p|);
      FlatMapAppend(w, r, ChildPaths);
    }
  }

  /** How often `load_data_with_labels_optimized` enumerates each file: a
      directory `k` levels below the root has its `.txt` files collected
      `k` times, once by the inner walk started from each directory between
      the root and it; the root's own files (k = 0) not at all. */
  lemma EnumeratedByDepth(root: Dir)
    ensures multiset(EnumPaths(root)) == Weighted(Walk([], root), 0)
  {
    EnumWeightedWalk([], root);
  }

  lemma {:induction false} TimesCount<T>(m: multiset<T>, k: nat, x: T)
    ensures Times(m, k)[x] == k * m[x]
  {
    if k > 0 {
      TimesCount(m, k - 1, x);
      assert Times(m, k)[x] == m[x] + Times(m, k - 1)[x];
      assert k * m[x] == m[x] + (k - 1) * m[x];
    }
  }

  /** The `.txt` file `f` appears in a listing as often as it is named. */
  lemma {:induction false} TxtListingCount(p: Path, names: seq<string>, f: string)
    requires IsTxt(f)
    ensures multiset(FlatMap(names, TxtOf(p)))[p + [f]] == multiset(names)[f]
  {
    if names != [] {
      var g, rest := names[0], names[1..];
      var x := p + [f];
      TxtListingCount(p, rest, f);
      var piece := TxtOf(p)(g);
      assert names == [g] + rest;
      assert multiset(names)[f] == multiset{g}[f] + multiset(rest)[f];
      assert FlatMap(names, TxtOf(p)) == piece + FlatMap(rest, TxtOf(p));
      assert multiset(FlatMap(names, TxtOf(p)))[x] == multiset(piece)[x] + multiset(FlatMap(rest, TxtOf(p)))[x];
      TxtPieceCount(p, g, f);
    }
  }

  lemma TxtPieceCount(p: Path, g: string, f: string)
    requires IsTxt(f)
    ensures multiset(TxtOf(p)(g))[p + [f]] == multiset{g}[f]
  {
    if g != f {
      assert (p + [g])[|p|] != (p + [f])[|p|];
    }
  }

  lemma DistinctCount<T>(s: seq<T>, x: T)
    requires Distinct(s) && x in s
    ensures multiset(s)[x] == 1
  {
    var i :| 0 <= i < |s| && s[i] == x;
    assert s == s[..i] + [x] + s[i + 1..];
    assert x !in s[..i] by {
      forall k | 0 <= k < i ensures s[..i][k] != x { assert s[..i][k] == s[k]; }
    }
    var t := s[i + 1..];
    assert x !in t by {
      forall k | 0 <= k < |t| ensures t[k] != x { assert t[k] == s[i + 1 + k]; }
    }
  }

  /** No path outside a directory's own files is in its listing. */
  lemma ListingOnlyOwn(e: WalkEntry, x: Path)
    requires x in Listing(e)
    ensures |x| == |e.path| + 1 && x[..|x| - 1] == e.path
  {
    ListingOrdered(e);
    var k :| 0 <= k < |Listing(e)| && Listing(e)[k] == x;
  }

  /** A listing names each of its distinct `.txt` files once. */
  lemma ListingCount(e: WalkEntry, f: string)
    requires Distinct(e.dir.files) && f in e.dir.files && IsTxt(f)
    ensures multiset(Listing(e))[e.path + [f]] == 1
  {
    SortNamesPermutes(e.dir.files);
    TxtListingCount(e.path, SortNames(e.dir.files), f);
    DistinctCount(e.dir.files, f);
  }

  lemma PathsDistinctTail(ws: seq<WalkEntry>)
    requires PathsDistinct(ws) && ws != []
    ensures PathsDistinct(ws[1..])
    ensures forall k :: 0 <= k < |ws[1..]| ==> ws[1..][k].path != ws[0].path
  {
    forall a, b | 0 <= a < b < |ws[1..]| ensures ws[1..][a].path != ws[1..][b].path {
      assert ws[1..][a] == ws[a + 1] && ws[1..][b] == ws[b + 1];
    }
    forall k | 0 <= k < |ws[1..]| ensures ws[1..][k].path != ws[0].path {
      assert ws[1..][k] == ws[k + 1];
    }
  }

  lemma {:induction false} WeightedCount(ws: seq<WalkEntry>, base: nat, i: nat, f: string)
    requires PathsDistinct(ws)
    requires i < |ws| && Distinct(ws[i].dir.files) && f in ws[i].dir.files && IsTxt(f)
    ensures Weighted(ws, base)[ws[i].path + [f]] == Depth(ws[i].path, base)
  {
    var x := ws[i].path + [f];
    assert x[..|x| - 1] == ws[i].path;
    var m := multiset(Listing(ws[0]));
    var d0 := Depth(ws[0].path, base);
    assert Weighted(ws, base) == Times(m, d0) + Weighted(ws[1..], base);
    TimesCount(m, d0, x);
    PathsDistinctTail(ws);
    if i == 0 {
      ListingCount(ws[0], f);
      WeightedAbsent(ws[1..], base, x);
      assert Weighted(ws, base)[x] == d0 * 1 + 0;
    } else {
      assert ws[1..][i - 1] == ws[i];
      WeightedCount(ws[1..], base, i - 1, f);
      if x in Listing(ws[0]) {
        ListingOnlyOwn(ws[0], x);
      }
      assert m[x] == 0;
      assert Weighted(ws, base)[x] == d0 * 0 + Weighted(ws[1..], base)[x];
    }
  }

  lemma {:induction false} WeightedAbsent(ws: seq<WalkEntry>, base: nat, x: Path)
    requires x != []
    requires forall k :: 0 <= k < |ws| ==> ws[k].path != x[..|x| - 1]
    ensures Weighted(ws, base)[x] == 0
  {
    if ws != [] {
      var rest := ws[1..];
      assert forall k :: 0 <= k < |rest| ==> rest[k] == ws[k + 1];
      var m := multiset(Listing(ws[0]));
      var d := Depth(ws[0].path, base);
      assert x !in Listing(ws[0]) by {
        if x in Listing(ws[0]) {
          ListingOnlyOwn(ws[0], x);
        }
      }
      assert m[x] == 0;
      TimesCount(m, d, x);
      WeightedAbsent(rest, base, x);
      assert Weighted(ws, base) == Times(m, d) + Weighted(rest, base);
    }
  }

  /** In a well-formed tree, a `.txt` file in a directory `k` levels below
      the root is enumerated exactly `k` times. */
  lemma EnumeratedExactly(root: Dir, i: nat, f: string)
    requires WellFormed(root)
    requires i < |Walk([], root)|
    requires f in Walk([], root)[i].dir.files && IsTxt(f)
    requires Distinct(Walk([], root)[i].dir.files)
    ensures multiset(EnumPaths(root))[Walk([], root)[i].path + [f]] == |Walk([], root)[i].path|
  {
    EnumeratedByDepth(root);
    WalkDistinct([], root);
    WeightedCount(Walk([], root), 0, i, f);
  }
}
