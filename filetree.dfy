/** The filesystem as the engine sees it: which paths exist and what they
    are, the order in which `rglob` lists them, and which paths cannot be
    stat-ed or unlinked. */
module FileTree {
  import opened Paths

  /** What `lstat` reports for a path. */
  datatype Node = File(size: nat, mtime: int) | Dir(mtime: int) | Symlink

  /** `nodes`: every existing path. `order`: the order in which a recursive
      listing yields them. `statFails`: the existing paths whose `stat()`
      and `lstat()` raise an `OSError` other than "not found" (Python 3.12's
      `exists`, `is_dir`, `is_file` and `is_symlink` let such an error
      through), with the error's text. `unlinkFails`: the files whose
      `unlink()` raises, with the error's text. An entry of either map for
      a path that does not exist has no effect. */
  datatype FileSystem = FileSystem(nodes: map<Path, Node>, order: seq<Path>,
                                   statFails: map<Path, string>, unlinkFails: map<Path, string>)

  /** Asking anything of `p` raises. */
  predicate StatFails(fs: FileSystem, p: Path)
  {
    p in fs.nodes && p in fs.statFails
  }

  /** The outcome of `Core.get_dir_size`: a byte total, or the error of the
      first `stat()` that raised. */
  datatype SizeResult = Bytes(total: nat) | StatError(message: string)

  /** A directory is listed before anything inside it: no path is a strict
      ancestor of a path listed before it. */
  ghost predicate ParentsFirst(w: seq<Path>)
  {
    forall i, j :: 0 <= i < j < |w| ==> !IsStrictAncestor(w[j], w[i])
  }

  /** No path is listed twice. */
  ghost predicate Distinct(w: seq<Path>)
  {
    forall i, j :: 0 <= i < j < |w| ==> w[i] != w[j]
  }

  /** A well-formed filesystem: the listing holds every existing path once,
      directories come before their contents, and only directories have
      contents (so nothing is ever reached through a symbolic link). */
  ghost predicate Valid(fs: FileSystem)
  {
    && (forall p :: p in fs.nodes <==> p in fs.order)
    && Distinct(fs.order)
    && ParentsFirst(fs.order)
    && (forall p, q :: p in fs.nodes && q in fs.nodes && IsStrictAncestor(p, q) ==> fs.nodes[p].Dir?)
  }

  /** `f.is_file() and not f.is_symlink()`. */
  predicate IsRegularFile(fs: FileSystem, q: Path)
  {
    q in fs.nodes && fs.nodes[q].File?
  }

  /** `p.exists()`. It follows symbolic links, and links are modelled as
      leading nowhere, so a link never exists. */
  predicate Exists(fs: FileSystem, p: Path)
  {
    p in fs.nodes && !fs.nodes[p].Symlink?
  }

  /** The bytes of the regular files in `s`. */
  function FileBytes(fs: FileSystem, s: seq<Path>): nat
  {
    if s == [] then 0
    else (if IsRegularFile(fs, s[0]) then fs.nodes[s[0]].size else 0) + FileBytes(fs, s[1..])
  }

  /** The bytes of the regular files of `s` that lie strictly inside `dir`,
      as if no `stat()` could fail. */
  function BytesBelow(fs: FileSystem, dir: Path, s: seq<Path>): nat
  {
    if s == [] then 0
    else (if IsStrictAncestor(dir, s[0]) && IsRegularFile(fs, s[0]) then fs.nodes[s[0]].size else 0)
         + BytesBelow(fs, dir, s[1..])
  }

  /** Some entry of `s` inside `dir`, of any kind, cannot be stat-ed. */
  predicate SomeEntryFailsBelow(fs: FileSystem, dir: Path, s: seq<Path>)
  {
    exists k :: 0 <= k < |s| && IsStrictAncestor(dir, s[k]) && StatFails(fs, s[k])
  }

  /** The generator sum of `get_dir_size` over the listing `s`: the
      `f.is_file()` test stats every entry, so the sum stops at the first
      entry inside `dir` that cannot be stat-ed. */
  function SizeOver(fs: FileSystem, dir: Path, s: seq<Path>): (r: SizeResult)
    ensures r.StatError? <==> SomeEntryFailsBelow(fs, dir, s)
    ensures r.Bytes? ==> r.total == BytesBelow(fs, dir, s)
  {
    if s == [] then Bytes(0)
    else
      var rest := SizeOver(fs, dir, s[1..]);
      assert SomeEntryFailsBelow(fs, dir, s) <==>
        (IsStrictAncestor(dir, s[0]) && StatFails(fs, s[0])) || SomeEntryFailsBelow(fs, dir, s[1..]) by {
        if SomeEntryFailsBelow(fs, dir, s[1..]) {
          var k :| 0 <= k < |s[1..]| && IsStrictAncestor(dir, s[1..][k]) && StatFails(fs, s[1..][k]);
          assert s[k + 1] == s[1..][k];
        }
        if k :| 1 <= k < |s| && IsStrictAncestor(dir, s[k]) && StatFails(fs, s[k]) {
          assert s[1..][k - 1] == s[k];
        }
      }
      if IsStrictAncestor(dir, s[0]) then
        if StatFails(fs, s[0]) then StatError(fs.statFails[s[0]])
        else if rest.StatError? then rest
        else Bytes((if IsRegularFile(fs, s[0]) then fs.nodes[s[0]].size else 0) + rest.total)
      else rest
  }

  /** `Core.get_dir_size(dir)`: the sum of the sizes of the regular files
      inside `dir`, or the error when some entry inside cannot be
      stat-ed. */
  function DirSize(fs: FileSystem, dir: Path): (r: SizeResult)
    ensures r.StatError? <==> SomeEntryFailsBelow(fs, dir, fs.order)
    ensures r.Bytes? ==> r.total == BytesBelow(fs, dir, fs.order)
  {
    SizeOver(fs, dir, fs.order)
  }

  /** The bytes of all regular files on the filesystem. */
  function TotalBytes(fs: FileSystem): nat
  {
    FileBytes(fs, fs.order)
  }

  /** Whether removing `p` takes `q` away: `unlink` removes `p` alone,
      `rmtree` also everything inside it. */
  predicate Takes(p: Path, tree: bool, q: Path)
  {
    if tree then IsAncestor(p, q) else q == p
  }

  /** The two ways a listing is narrowed: to what lies strictly inside
      `base`, or to what survives removing `p`. */
  datatype Sieve = Inside(base: Path) | Survives(p: Path, tree: bool)

  predicate Keeps(sieve: Sieve, q: Path)
  {
    match sieve
    case Inside(base) => IsStrictAncestor(base, q)
    case Survives(p, tree) => !Takes(p, tree, q)
  }

  /** The paths of `s` that `sieve` keeps, in their order. */
  function Filter(s: seq<Path>, sieve: Sieve): (r: seq<Path>)
    ensures forall q :: q in r <==> q in s && Keeps(sieve, q)
    ensures |r| <= |s|
  {
    if s == [] then []
    else if Keeps(sieve, s[0]) then [s[0]] + Filter(s[1..], sieve)
    else Filter(s[1..], sieve)
  }

  /** A sieve that keeps every path of `s` keeps `s` whole. */
  lemma {:induction false} FilterKeepsAll(s: seq<Path>, sieve: Sieve)
    requires forall k :: 0 <= k < |s| ==> Keeps(sieve, s[k])
    ensures Filter(s, sieve) == s
  {
    if s != [] {
      FilterKeepsAll(s[1..], sieve);
    }
  }

  /** `base.rglob("*")`: the listed paths strictly inside `base`. */
  function Below(fs: FileSystem, base: Path): (r: seq<Path>)
    ensures forall q :: q in r <==> q in fs.order && IsStrictAncestor(base, q)
  {
    Filter(fs.order, Inside(base))
  }

  /** The filesystem after `p.unlink()` (`tree` false) or
      `shutil.rmtree(p)` (`tree` true). */
  function Remove(fs: FileSystem, p: Path, tree: bool): (r: FileSystem)
    ensures forall q :: q in r.nodes <==> q in fs.nodes && !Takes(p, tree, q)
    ensures forall q :: q in r.nodes ==> r.nodes[q] == fs.nodes[q]
    ensures r.statFails == fs.statFails && r.unlinkFails == fs.unlinkFails
  {
    FileSystem(
      map q | q in fs.nodes && !Takes(p, tree, q) :: fs.nodes[q],
      Filter(fs.order, Survives(p, tree)),
      fs.statFails, fs.unlinkFails)
  }

  // ---------------------------------------------------------------------
  // Well-formedness is kept by removal.

  lemma FilterKeepsOrder(s: seq<Path>, sieve: Sieve)
    requires ParentsFirst(s) && Distinct(s)
    ensures ParentsFirst(Filter(s, sieve)) && Distinct(Filter(s, sieve))
    decreases |s|
  {
    if s != [] {
      var t := Filter(s[1..], sieve);
      assert ParentsFirst(s[1..]) && Distinct(s[1..]) by {
        forall i, j | 0 <= i < j < |s[1..]|
          ensures !IsStrictAncestor(s[1..][j], s[1..][i]) && s[1..][i] != s[1..][j]
        {
          assert s[1..][i] == s[i + 1] && s[1..][j] == s[j + 1];
        }
      }
      FilterKeepsOrder(s[1..], sieve);
      if Keeps(sieve, s[0]) {
        var r := [s[0]] + t;
        forall i, j | 0 <= i < j < |r|
          ensures !IsStrictAncestor(r[j], r[i]) && r[i] != r[j]
        {
          if i > 0 {
            assert r[i] == t[i - 1] && r[j] == t[j - 1];
          } else {
            assert r[j] == t[j - 1] && t[j - 1] in s[1..];
            var m :| 0 <= m < |s[1..]| && s[1..][m] == r[j];
            assert s[m + 1] == r[j];
          }
        }
      }
    }
  }

  /** Removing a path or a tree leaves a well-formed filesystem
      well-formed. */
  lemma RemoveKeepsValid(fs: FileSystem, p: Path, tree: bool)
    requires Valid(fs)
    ensures Valid(Remove(fs, p, tree))
  {
    FilterKeepsOrder(fs.order, Survives(p, tree));
  }

  // ---------------------------------------------------------------------
  // What get_dir_size promises.

  lemma {:induction false} BytesBelowBoundsFile(fs: FileSystem, dir: Path, s: seq<Path>, q: Path)
    requires q in s && IsStrictAncestor(dir, q) && IsRegularFile(fs, q)
    ensures fs.nodes[q].size <= BytesBelow(fs, dir, s)
  {
    if s[0] != q {
      BytesBelowBoundsFile(fs, dir, s[1..], q);
    }
  }

  /** A directory's size is at least that of any regular file inside it. */
  lemma DirSizeBoundsFile(fs: FileSystem, dir: Path, q: Path)
    requires DirSize(fs, dir).Bytes?
    requires q in fs.order && IsStrictAncestor(dir, q) && IsRegularFile(fs, q)
    ensures fs.nodes[q].size <= DirSize(fs, dir).total
  {
    BytesBelowBoundsFile(fs, dir, fs.order, q);
  }

  lemma {:induction false} BytesBelowNested(fs: FileSystem, outer: Path, inner: Path, s: seq<Path>)
    requires IsAncestor(outer, inner)
    ensures BytesBelow(fs, inner, s) <= BytesBelow(fs, outer, s)
  {
    if s != [] {
      BytesBelowNested(fs, outer, inner, s[1..]);
      if IsStrictAncestor(inner, s[0]) {
        StrictAncestorWithin(outer, inner, s[0]);
      }
    }
  }

  /** Inside a directory whose size can be computed, every directory's size
      can be computed too and is no larger. */
  lemma DirSizeNested(fs: FileSystem, outer: Path, inner: Path)
    requires IsAncestor(outer, inner)
    requires DirSize(fs, outer).Bytes?
    ensures DirSize(fs, inner).Bytes? && DirSize(fs, inner).total <= DirSize(fs, outer).total
  {
    forall k | 0 <= k < |fs.order| && IsStrictAncestor(inner, fs.order[k])
      ensures IsStrictAncestor(outer, fs.order[k])
    {
      StrictAncestorWithin(outer, inner, fs.order[k]);
    }
    BytesBelowNested(fs, outer, inner, fs.order);
  }

  // ---------------------------------------------------------------------
  // Removal frees exactly what get_dir_size (or stat) counted.

  lemma {:induction false} FileBytesOfTree(fs: FileSystem, p: Path, s: seq<Path>)
    requires p in fs.nodes && !fs.nodes[p].File?
    ensures FileBytes(fs, s) == FileBytes(Remove(fs, p, true), Filter(s, Survives(p, true))) + BytesBelow(fs, p, s)
  {
    if s != [] {
      FileBytesOfTree(fs, p, s[1..]);
      var sieve := Survives(p, true);
      var fs' := Remove(fs, p, true);
      if Keeps(sieve, s[0]) {
        var t := [s[0]] + Filter(s[1..], sieve);
        assert t[0] == s[0] && t[1..] == Filter(s[1..], sieve);
        assert s[0] in fs'.nodes <==> s[0] in fs.nodes;
        assert IsRegularFile(fs', s[0]) ==> fs'.nodes[s[0]] == fs.nodes[s[0]];
        assert FileBytes(fs', t) == (if IsRegularFile(fs, s[0]) then fs.nodes[s[0]].size else 0) + FileBytes(fs', t[1..]);
      } else {
        assert IsAncestor(p, s[0]);
        if s[0] == p {
          assert !IsRegularFile(fs, s[0]);
        }
      }
    }
  }

  /** `rmtree` on a directory frees exactly the bytes `get_dir_size`
      counted for it. */
  lemma RemoveTreeFrees(fs: FileSystem, p: Path)
    requires p in fs.nodes && !fs.nodes[p].File?
    requires DirSize(fs, p).Bytes?
    ensures TotalBytes(Remove(fs, p, true)) + DirSize(fs, p).total == TotalBytes(fs)
  {
    FileBytesOfTree(fs, p, fs.order);
  }

  lemma {:induction false} FileBytesWithout(fs: FileSystem, p: Path, s: seq<Path>)
    requires p !in s
    ensures FileBytes(fs, s) == FileBytes(Remove(fs, p, false), Filter(s, Survives(p, false)))
  {
    if s != [] {
      FileBytesWithout(fs, p, s[1..]);
    }
  }

  lemma {:induction false} FileBytesOfFile(fs: FileSystem, p: Path, s: seq<Path>)
    requires IsRegularFile(fs, p) && p in s && Distinct(s)
    ensures FileBytes(fs, s) == FileBytes(Remove(fs, p, false), Filter(s, Survives(p, false))) + fs.nodes[p].size
  {
    if s[0] == p {
      forall m | 0 <= m < |s[1..]| ensures s[1..][m] != p {
        assert s[1..][m] == s[m + 1];
      }
      FileBytesWithout(fs, p, s[1..]);
    } else {
      assert Distinct(s[1..]) by {
        forall i, j | 0 <= i < j < |s[1..]| ensures s[1..][i] != s[1..][j] {
          assert s[1..][i] == s[i + 1] && s[1..][j] == s[j + 1];
        }
      }
      FileBytesOfFile(fs, p, s[1..]);
    }
  }

  /** `unlink` on a regular file of a well-formed filesystem frees exactly
      its size. */
  lemma UnlinkFrees(fs: FileSystem, p: Path)
    requires Valid(fs) && IsRegularFile(fs, p)
    ensures TotalBytes(Remove(fs, p, false)) + fs.nodes[p].size == TotalBytes(fs)
  {
    FileBytesOfFile(fs, p, fs.order);
  }
}
