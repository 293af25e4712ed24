/** The directory tree the loader scans, and `os.walk` over it. */
module DirTree {

  /** A location relative to the scanned root: the names of the
      directories followed from the root, then possibly a file name
      (`os.path.join` of those components); `[]` is the root itself. */
  type Path = seq<string>

  /** The last component of a path: for a file, its name. */
  function FileName(x: Path): string
  {
    if x == [] then [] else x[|x| - 1]
  }

  /** One directory: the names of the files it lists directly (in the order
      the operating system lists them) and its subdirectories, in order. */
  datatype Dir = Dir(files: seq<string>, subdirs: seq<Sub>)

  /** A named subdirectory. */
  datatype Sub = Sub(name: string, dir: Dir)

  /** One triple `(root, dirs, files)` yielded by `os.walk`: the directory's
      path and the directory itself, which holds `dirs` and `files`. */
  datatype WalkEntry = WalkEntry(path: Path, dir: Dir)

  /** `os.walk(p)` with the default top-down order: the directory itself,
      then the walk of each subdirectory in turn. */
  function Walk(p: Path, d: Dir): seq<WalkEntry>
    decreases d, 1
  {
    [WalkEntry(p, d)] + WalkSubs(p, d.subdirs)
  }

  /** The walks of the subdirectories `subs` of the directory at `p`, one
      after the other. */
  function WalkSubs(p: Path, subs: seq<Sub>): seq<WalkEntry>
    decreases subs, 0
  {
    if subs == [] then []
    else Walk(p + [subs[0].name], subs[0].dir) + WalkSubs(p, subs[1..])
  }

  /** `q` lies at or below `p`. */
  predicate Below(p: Path, q: Path)
  {
    |p| <= |q| && q[..|p|] == p
  }

  /** Everything `os.walk(p)` yields lies at or below `p`, and only its
      first triple is `p` itself. */
  lemma {:induction false} WalkBelow(p: Path, d: Dir)
    ensures Walk(p, d)[0] == WalkEntry(p, d)
    ensures forall k :: 0 <= k < |Walk(p, d)| ==> Below(p, Walk(p, d)[k].path)
    ensures forall k :: 0 < k < |Walk(p, d)| ==> |Walk(p, d)[k].path| > |p|
    decreases d, 1
  {
    WalkSubsBelow(p, d.subdirs);
    var w := Walk(p, d);
    var rest := WalkSubs(p, d.subdirs);
    forall k | 0 < k < |w| ensures Below(p, w[k].path) && |w[k].path| > |p| {
      assert w[k] == rest[k - 1];
    }
  }

  lemma {:induction false} WalkSubsBelow(p: Path, subs: seq<Sub>)
    ensures forall k :: 0 <= k < |WalkSubs(p, subs)| ==>
      Below(p, WalkSubs(p, subs)[k].path) && |WalkSubs(p, subs)[k].path| > |p|
    decreases subs, 0
  {
    if subs != [] {
      var q := p + [subs[0].name];
      WalkBelow(q, subs[0].dir);
      WalkSubsBelow(p, subs[1..]);
      var head := Walk(q, subs[0].dir);
      var tail := WalkSubs(p, subs[1..]);
      var w: seq<WalkEntry> := head + tail;
      assert w == WalkSubs(p, subs);
      forall k | 0 <= k < |w|
        ensures Below(p, w[k].path) && |w[k].path| > |p|
      {
        if k < |head| {
          assert w[k] == head[k];
          var r := head[k].path;
          assert Below(q, r);
          assert r[..|p|] == r[..|q|][..|p|];
        } else {
          assert w[k] == tail[k - |head|];
        }
      }
    }
  }

  /** No element occurs twice. */
  predicate Distinct<T(==)>(s: seq<T>)
  {
    forall i, j :: 0 <= i < j < |s| ==> s[i] != s[j]
  }

  /** The names of the subdirectories `subs`, in order. */
  function SubNames(subs: seq<Sub>): seq<string>
  {
    if subs == [] then [] else [subs[0].name] + SubNames(subs[1..])
  }

  /** As on a real file system: within one directory, no two files and no
      two subdirectories share a name, at every level of the tree. */
  predicate WellFormed(d: Dir)
    decreases d, 1
  {
    Distinct(d.files) && Distinct(SubNames(d.subdirs)) && AllWellFormed(d.subdirs)
  }

  predicate AllWellFormed(subs: seq<Sub>)
    decreases subs, 0
  {
    subs == [] || (WellFormed(subs[0].dir) && AllWellFormed(subs[1..]))
  }

  /** `os.walk` never yields the same directory path twice. */
  predicate PathsDistinct(ws: seq<WalkEntry>)
  {
    forall i, j :: 0 <= i < j < |ws| ==> ws[i].path != ws[j].path
  }

  /** Below `p`, the walks of the subdirectories `subs` only reach paths
      whose next component is one of their names. */
  lemma {:induction false} WalkSubsBranch(p: Path, subs: seq<Sub>)
    ensures forall k :: 0 <= k < |WalkSubs(p, subs)| ==>
      |WalkSubs(p, subs)[k].path| > |p| && WalkSubs(p, subs)[k].path[|p|] in SubNames(subs)
  {
    if subs != [] {
      var q := p + [subs[0].name];
      WalkBelow(q, subs[0].dir);
      WalkSubsBranch(p, subs[1..]);
      var head := Walk(q, subs[0].dir);
      var tail := WalkSubs(p, subs[1..]);
      var w: seq<WalkEntry> := head + tail;
      assert w == WalkSubs(p, subs);
      forall k | 0 <= k < |w|
        ensures |w[k].path| > |p| && w[k].path[|p|] in SubNames(subs)
      {
        if k < |head| {
          assert w[k] == head[k];
          var r := head[k].path;
          assert Below(q, r);
          assert r[|p|] == r[..|q|][|p|] == q[|p|];
        } else {
          assert w[k] == tail[k - |head|];
        }
      }
    }
  }

  /** In a well-formed tree `os.walk` yields every path once. */
  lemma {:induction false} WalkDistinct(p: Path, d: Dir)
    requires WellFormed(d)
    ensures PathsDistinct(Walk(p, d))
    decreases d, 1
  {
    WalkSubsDistinct(p, d.subdirs);
    WalkSubsBelow(p, d.subdirs);
    var w := Walk(p, d);
    var rest := WalkSubs(p, d.subdirs);
    forall i, j | 0 <= i < j < |w| ensures w[i].path != w[j].path {
      assert w[j] == rest[j - 1];
      if i > 0 {
        assert w[i] == rest[i - 1];
      }
    }
  }

  lemma SubNamesTail(subs: seq<Sub>)
    requires Distinct(SubNames(subs)) && subs != []
    ensures Distinct(SubNames(subs[1..])) && subs[0].name !in SubNames(subs[1..])
  {
    var names := SubNames(subs);
    var rest := SubNames(subs[1..]);
    assert names == [subs[0].name] + rest;
    forall i, j | 0 <= i < j < |rest| ensures rest[i] != rest[j] {
      assert names[i + 1] == rest[i] && names[j + 1] == rest[j];
    }
    forall k | 0 <= k < |rest| ensures rest[k] != subs[0].name {
      assert names[0] == subs[0].name && names[k + 1] == rest[k];
      assert names[0] != names[k + 1];
    }
  }

  lemma {:induction false} WalkSubsDistinct(p: Path, subs: seq<Sub>)
    requires Distinct(SubNames(subs)) && AllWellFormed(subs)
    ensures PathsDistinct(WalkSubs(p, subs))
    decreases subs, 0
  {
    if subs != [] {
      var q := p + [subs[0].name];
      SubNamesTail(subs);
      WalkDistinct(q, subs[0].dir);
      WalkBelow(q, subs[0].dir);
      WalkSubsDistinct(p, subs[1..]);
      WalkSubsBranch(p, subs[1..]);
      var head := Walk(q, subs[0].dir);
      var tail := WalkSubs(p, subs[1..]);
      var w: seq<WalkEntry> := head + tail;
      assert w == WalkSubs(p, subs);
      forall i, j | 0 <= i < j < |w| ensures w[i].path != w[j].path {
        if j < |head| {
          assert w[i] == head[i] && w[j] == head[j];
        } else if i >= |head| {
          assert w[i] == tail[i - |head|] && w[j] == tail[j - |head|];
        } else {
          assert w[i] == head[i] && w[j] == tail[j - |head|];
          var r := head[i].path;
          assert Below(q, r);
          assert r[|p|] == r[..|q|][|p|] == subs[0].name;
        }
      }
    }
  }
}
