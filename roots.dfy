/** The scan roots of `Core._scanner` and the walk over them: the user's
    path, then every existing system log or temp directory that the
    string-prefix test does not find overlapping a root already taken. */
module ScanRoots {
  import opened Paths
  import opened FileTree

  /** `platform.system()`, as far as `SYSTEM_TEMP_DIRS` tells systems apart. */
  datatype Platform = Darwin | Windows | Linux | OtherPlatform

  /** `SYSTEM_TEMP_DIRS`: its entry for the platform, nothing for any other
      system. A Windows drive is the first component of its paths. */
  function SystemTempDirs(platform: Platform): seq<Path>
  {
    match platform
    case Darwin =>
      [["var", "log"], ["var", "logs"], ["private", "var", "log"], ["private", "var", "logs"], ["Library", "Logs"]]
    case Windows => [["C:", "Windows", "Temp"], ["C:", "Windows", "Logs"]]
    case Linux => [["var", "log"]]
    case OtherPlatform => []
  }

  /** `any(str(t).startswith(str(p)) or str(p).startswith(str(t)) for p in roots)`. */
  predicate RelatedToAny(t: Path, roots: seq<Path>)
  {
    exists r :: r in roots && Related(t, r)
  }

  /** The `for temp_dir in SYSTEM_TEMP_DIRS` loop run over `temps`, starting
      from the roots already taken, in the order they were added: it only
      ever adds roots, at most one per entry of `temps`. */
  function AddTemps(fs: FileSystem, roots: seq<Path>, temps: seq<Path>): (r: seq<Path>)
    ensures |roots| <= |r| <= |roots| + |temps| && r[..|roots|] == roots
    decreases |temps|
  {
    if temps == [] then roots
    else
      var t := temps[0];
      var next := if Exists(fs, t) && !RelatedToAny(t, roots) then roots + [t] else roots;
      var r := AddTemps(fs, next, temps[1..]);
      assert r[..|roots|] == r[..|next|][..|roots|];
      r
  }

  /** `paths_to_scan`, listed in the order its members were added:
      `scan_path` first, then existing system directories only. */
  function RootSet(fs: FileSystem, scanPath: Path, platform: Platform): (r: seq<Path>)
    ensures 1 <= |r| <= 1 + |SystemTempDirs(platform)| && r[0] == scanPath
    ensures forall k :: 1 <= k < |r| ==> r[k] in SystemTempDirs(platform) && Exists(fs, r[k])
  {
    AddTempsAdded(fs, [scanPath], SystemTempDirs(platform));
    AddTemps(fs, [scanPath], SystemTempDirs(platform))
  }

  /** The first lines of `Core._scanner`, which build `paths_to_scan`. */
  method BuildRoots(fs: FileSystem, scanPath: Path, platform: Platform) returns (roots: seq<Path>)
    ensures roots == RootSet(fs, scanPath, platform)
  {
    var temps := SystemTempDirs(platform);
    roots := [scanPath];
    for i := 0 to |temps|
      invariant AddTemps(fs, roots, temps[i..]) == RootSet(fs, scanPath, platform)
    {
      assert temps[i..][1..] == temps[i + 1..];
      if Exists(fs, temps[i]) && !RelatedToAny(temps[i], roots) {
        roots := roots + [temps[i]];
      }
    }
    assert temps[|temps|..] == [];
  }

  /** No two roots pass the string-prefix test. */
  ghost predicate PairwiseUnrelated(roots: seq<Path>)
  {
    forall i, j :: 0 <= i < j < |roots| ==> !Related(roots[i], roots[j])
  }

  /** Each root the loop adds is an existing directory of `temps` that no
      root before it overlaps. */
  lemma {:induction false} AddTempsAdded(fs: FileSystem, roots: seq<Path>, temps: seq<Path>)
    ensures forall k :: |roots| <= k < |AddTemps(fs, roots, temps)| ==>
      var r := AddTemps(fs, roots, temps);
      r[k] in temps && Exists(fs, r[k]) && !RelatedToAny(r[k], r[..k])
    decreases |temps|
  {
    if temps != [] {
      var t := temps[0];
      var next := if Exists(fs, t) && !RelatedToAny(t, roots) then roots + [t] else roots;
      AddTempsAdded(fs, next, temps[1..]);
      var r := AddTemps(fs, next, temps[1..]);
      forall k | |roots| <= k < |r|
        ensures r[k] in temps && Exists(fs, r[k]) && !RelatedToAny(r[k], r[..k])
      {
        if k < |next| {
          assert r[k] == next[k] == t;
          assert r[..k] == r[..|next|][..k] == roots;
        } else {
          assert r[k] in temps[1..];
        }
      }
    }
  }

  /** Every existing directory of `temps` ends up overlapping some root. */
  lemma {:induction false} AddTempsCovers(fs: FileSystem, roots: seq<Path>, temps: seq<Path>)
    ensures forall t :: t in temps && Exists(fs, t) ==> RelatedToAny(t, AddTemps(fs, roots, temps))
    decreases |temps|
  {
    if temps != [] {
      var t := temps[0];
      var next := if Exists(fs, t) && !RelatedToAny(t, roots) then roots + [t] else roots;
      AddTempsCovers(fs, next, temps[1..]);
      var r := AddTemps(fs, next, temps[1..]);
      if Exists(fs, t) {
        if RelatedToAny(t, roots) {
          var q :| q in roots && Related(t, q);
          assert q in r[..|next|];
        } else {
          assert t == next[|roots|] == r[..|next|][|roots|];
          assert Related(t, t);
        }
      }
    }
  }

  /** `paths_to_scan` holds `scan_path` first; every other root is an
      existing system directory that no earlier root overlaps by the string
      test; no two roots overlap; and every existing system directory
      overlaps some root (itself, when it was taken). */
  lemma RootSetFacts(fs: FileSystem, scanPath: Path, platform: Platform)
    ensures |RootSet(fs, scanPath, platform)| >= 1 && RootSet(fs, scanPath, platform)[0] == scanPath
    ensures forall k :: 1 <= k < |RootSet(fs, scanPath, platform)| ==>
      var r := RootSet(fs, scanPath, platform);
      r[k] in SystemTempDirs(platform) && Exists(fs, r[k]) && !RelatedToAny(r[k], r[..k])
    ensures PairwiseUnrelated(RootSet(fs, scanPath, platform))
    ensures forall t :: t in SystemTempDirs(platform) && Exists(fs, t) ==> RelatedToAny(t, RootSet(fs, scanPath, platform))
  {
    var r := RootSet(fs, scanPath, platform);
    AddTempsAdded(fs, [scanPath], SystemTempDirs(platform));
    AddTempsCovers(fs, [scanPath], SystemTempDirs(platform));
    assert r[0] == r[..1][0];
    forall i, j | 0 <= i < j < |r| ensures !Related(r[i], r[j]) {
      assert r[i] in r[..j];
    }
  }

  /** Roots that the string test keeps apart are never nested either. */
  lemma UnrelatedRootsAreDisjoint(roots: seq<Path>)
    requires PairwiseUnrelated(roots)
    ensures forall i, j :: 0 <= i < |roots| && 0 <= j < |roots| && i != j ==> !IsAncestor(roots[i], roots[j])
  {
    forall i, j | 0 <= i < |roots| && 0 <= j < |roots| && i != j ensures !IsAncestor(roots[i], roots[j]) {
      if IsAncestor(roots[i], roots[j]) {
        AncestorIsRelated(roots[i], roots[j]);
      }
    }
  }

  /** A path that overlaps a root already taken is never added later. */
  lemma OverlapNeverAdded(fs: FileSystem, roots: seq<Path>, temps: seq<Path>, a: Path, b: Path)
    requires a in roots && Related(b, a)
    ensures forall k :: |roots| <= k < |AddTemps(fs, roots, temps)| ==> AddTemps(fs, roots, temps)[k] != b
  {
    AddTempsAdded(fs, roots, temps);
    var r := AddTemps(fs, roots, temps);
    forall k | |roots| <= k < |r| ensures r[k] != b {
      assert a in r[..|roots|];
      assert a in r[..k];
    }
  }

  /** When the first system directory is `/var/log`, exists, and does not
      overlap the user's path, it becomes the second root and `/var/logs`
      is never added. */
  lemma VarLogShadowsVarLogs(fs: FileSystem, scanPath: Path, temps: seq<Path>)
    requires |temps| > 0 && temps[0] == ["var", "log"]
    requires Exists(fs, ["var", "log"]) && !Related(scanPath, ["var", "log"])
    ensures ["var", "log"] in AddTemps(fs, [scanPath], temps)
    ensures ["var", "logs"] !in AddTemps(fs, [scanPath], temps)
  {
    var log: Path := ["var", "log"];
    var logs: Path := ["var", "logs"];
    assert !RelatedToAny(log, [scanPath]);
    assert [scanPath] + [temps[0]] == [scanPath, log];
    var r := AddTemps(fs, [scanPath, log], temps[1..]);
    assert AddTemps(fs, [scanPath], temps) == r;
    RelatedIsNotAncestry();
    OverlapNeverAdded(fs, [scanPath, log], temps[1..], log, logs);
    assert r[..2] == [scanPath, log];
    assert scanPath != logs;
    forall k | 0 <= k < |r| ensures r[k] != logs {
      if k < 2 {
        assert r[k] == r[..2][k];
      }
    }
  }

  /** On macOS the string test lets `/var/log` shadow `/var/logs`: once
      `/var/log` exists (and does not overlap the user's path),
      `/var/logs` is never scanned as a root of its own, although the two
      directories are siblings. */
  lemma DarwinShadowsVarLogs(fs: FileSystem, scanPath: Path)
    requires Exists(fs, ["var", "log"]) && !Related(scanPath, ["var", "log"])
    ensures ["var", "log"] in RootSet(fs, scanPath, Darwin)
    ensures ["var", "logs"] !in RootSet(fs, scanPath, Darwin)
  {
    VarLogShadowsVarLogs(fs, scanPath, SystemTempDirs(Darwin));
  }

  /** The generator `(p for base_path in paths_to_scan for p in
      base_path.rglob("*"))`: the listing below each root in turn. */
  function WalkOf(fs: FileSystem, roots: seq<Path>): (w: seq<Path>)
    ensures forall q :: q in w <==> q in fs.order && exists m :: 0 <= m < |roots| && IsStrictAncestor(roots[m], q)
  {
    if roots == [] then []
    else
      assert forall m :: 0 <= m < |roots| - 1 ==> roots[1..][m] == roots[m + 1];
      Below(fs, roots[0]) + WalkOf(fs, roots[1..])
  }

  /** The walk of `Core._scanner`. */
  function Walk(fs: FileSystem, scanPath: Path, platform: Platform): seq<Path>
  {
    WalkOf(fs, RootSet(fs, scanPath, platform))
  }

  lemma DisjointInsides(r: Path, s: Path, x: Path, y: Path)
    requires !IsAncestor(r, s) && !IsAncestor(s, r)
    requires IsStrictAncestor(r, x) && IsStrictAncestor(s, y)
    ensures x != y && !IsStrictAncestor(y, x)
  {
    CommonDescendant(r, s, x);
    AncestorTrans(s, y, x);
  }

  lemma ConcatOrderly(a: seq<Path>, b: seq<Path>)
    requires ParentsFirst(a) && Distinct(a) && ParentsFirst(b) && Distinct(b)
    requires forall x, y :: x in a && y in b ==> x != y && !IsStrictAncestor(y, x)
    ensures ParentsFirst(a + b) && Distinct(a + b)
  {
    var c := a + b;
    forall i, j | 0 <= i < j < |c| ensures !IsStrictAncestor(c[j], c[i]) && c[i] != c[j] {
      if j < |a| {
        assert c[i] == a[i] && c[j] == a[j];
      } else if i >= |a| {
        assert c[i] == b[i - |a|] && c[j] == b[j - |a|];
      } else {
        assert c[i] in a && c[j] in b;
      }
    }
  }

  /** No two of `roots` are nested. */
  ghost predicate Unnested(roots: seq<Path>)
  {
    forall i, j :: 0 <= i < |roots| && 0 <= j < |roots| && i != j ==> !IsAncestor(roots[i], roots[j])
  }

  lemma UnnestedTail(roots: seq<Path>)
    requires roots != [] && Unnested(roots)
    ensures Unnested(roots[1..])
  {
    var rest := roots[1..];
    forall i, j | 0 <= i < |rest| && 0 <= j < |rest| && i != j ensures !IsAncestor(rest[i], rest[j]) {
      assert rest[i] == roots[i + 1] && rest[j] == roots[j + 1];
    }
  }

  /** What lies inside the first root is apart from the rest of the walk. */
  lemma FirstRootApart(fs: FileSystem, roots: seq<Path>)
    requires roots != [] && Unnested(roots)
    ensures forall x, y :: x in Below(fs, roots[0]) && y in WalkOf(fs, roots[1..]) ==> x != y && !IsStrictAncestor(y, x)
  {
    var rest := roots[1..];
    forall x, y | x in Below(fs, roots[0]) && y in WalkOf(fs, rest) ensures x != y && !IsStrictAncestor(y, x) {
      var m :| 0 <= m < |rest| && IsStrictAncestor(rest[m], y);
      assert rest[m] == roots[m + 1];
      DisjointInsides(roots[0], rest[m], x, y);
    }
  }

  /** Over roots no two of which are nested, the walk lists every path at
      most once and every directory before its contents. */
  lemma {:induction false} WalkOrderly(fs: FileSystem, roots: seq<Path>)
    requires ParentsFirst(fs.order) && Distinct(fs.order)
    requires Unnested(roots)
    ensures ParentsFirst(WalkOf(fs, roots)) && Distinct(WalkOf(fs, roots))
  {
    if roots != [] {
      FilterKeepsOrder(fs.order, Inside(roots[0]));
      UnnestedTail(roots);
      WalkOrderly(fs, roots[1..]);
      FirstRootApart(fs, roots);
      ConcatOrderly(Below(fs, roots[0]), WalkOf(fs, roots[1..]));
    }
  }

  /** The walk the scanner runs over lists each path once, parents first. */
  lemma WalkIsOrderly(fs: FileSystem, scanPath: Path, platform: Platform)
    requires Valid(fs)
    ensures ParentsFirst(Walk(fs, scanPath, platform)) && Distinct(Walk(fs, scanPath, platform))
  {
    RootSetFacts(fs, scanPath, platform);
    UnrelatedRootsAreDisjoint(RootSet(fs, scanPath, platform));
    WalkOrderly(fs, RootSet(fs, scanPath, platform));
  }
}
