/** `Core._scanner`: the walk over the scan roots, entry by entry, with the
    abort flag read before each entry and once more at the end. */
module Scanner {
  import opened Paths
  import opened Classifier
  import opened FileTree
  import opened ScanRoots
  import opened Events

  /** A regular file or directory whose name the tables match. */
  predicate Matches(fs: FileSystem, pats: PatternSet, p: Path)
  {
    p in fs.nodes &&
    match fs.nodes[p]
    case File(_, _) => IsJunkFile(pats, Name(p))
    case Dir(_) => IsJunkFolder(pats, Name(p))
    case Symlink => false
  }

  /** A match whose handling inside the `try` completes: nothing it stats
      raises (for a folder, neither the folder itself nor any entry inside
      it). */
  predicate Eligible(fs: FileSystem, pats: PatternSet, p: Path)
  {
    Matches(fs, pats, p) && !StatFails(fs, p) && (fs.nodes[p].Dir? ==> DirSize(fs, p).Bytes?)
  }

  /** `e` reports its path with the kind, size and modification time the
      filesystem gives it. */
  predicate Describes(fs: FileSystem, e: Event)
  {
    e.FoundItem? && e.path in fs.nodes &&
    match fs.nodes[e.path]
    case File(size, mtime) => e.kind == FileItem && e.size == size && e.mtime == mtime
    case Dir(mtime) => e.kind == FolderItem && DirSize(fs, e.path) == Bytes(e.size) && e.mtime == mtime
    case Symlink => false
  }

  /** What the body of the `try` comes to for one entry. */
  datatype EntryOutcome =
    | Skipped                                       // a link, a claimed entry, or no match
    | Raised                                        // an `OSError`: the entry is dropped whole
    | Found(kind: ItemKind, size: nat, mtime: int)  // a `found_item` to put

  /** The body of the `try` for `root_path` = `p`. The first thing it asks,
      `is_symlink()`, already raises for an entry that cannot be stat-ed,
      claimed or not; a file is only stat-ed, never opened, so a file that
      cannot be unlinked is reported like any other. */
  function Examine(fs: FileSystem, pats: PatternSet, processed: set<Path>, p: Path): (r: EntryOutcome)
    ensures r.Found? <==> Eligible(fs, pats, p) && !HasClaimedAncestor(p, processed)
    ensures r.Raised? <==>
      StatFails(fs, p) || (Matches(fs, pats, p) && !Eligible(fs, pats, p) && !HasClaimedAncestor(p, processed))
    ensures r.Found? ==> Describes(fs, FoundItem(p, r.kind, r.size, r.mtime))
  {
    if p !in fs.nodes then Skipped
    else if StatFails(fs, p) then Raised
    else if fs.nodes[p].Symlink? || HasClaimedAncestor(p, processed) then Skipped
    else match fs.nodes[p]
      case Dir(mtime) =>
        if !IsJunkFolder(pats, Name(p)) then Skipped
        else (match DirSize(fs, p)
          case StatError(_) => Raised
          case Bytes(n) => Found(FolderItem, n, mtime))
      case File(size, mtime) =>
        if !IsJunkFile(pats, Name(p)) then Skipped
        else Found(FileItem, size, mtime)
  }

  /** The scanner's local state: the messages put so far, `total_size`,
      `file_count` and `processed_paths`. */
  datatype ScanState = ScanState(events: seq<Event>, totalSize: nat, fileCount: nat, processed: set<Path>)

  /** One turn of the loop, after the abort check: it adds at most one
      message, a `found_item` for the entry when `Examine` finds it. */
  function ScanStep(fs: FileSystem, pats: PatternSet, st: ScanState, p: Path): (r: ScanState)
    ensures IsPrefix(st.events, r.events)
    ensures |r.events| == |st.events| + (if Examine(fs, pats, st.processed, p).Found? then 1 else 0)
    ensures Examine(fs, pats, st.processed, p).Found? ==>
      var e := Examine(fs, pats, st.processed, p);
      r.events[|st.events|] == FoundItem(p, e.kind, e.size, e.mtime)
  {
    match Examine(fs, pats, st.processed, p)
    case Found(kind, size, mtime) =>
      ScanState(
        st.events + [FoundItem(p, kind, size, mtime)],
        st.totalSize + size,
        st.fileCount + 1,
        if kind == FolderItem then st.processed + {p} else st.processed)
    case _ => st
  }

  /** The state after the loop has handled every entry of `w`: at most
      one message per entry. */
  function ScanFrom(fs: FileSystem, pats: PatternSet, w: seq<Path>): (r: ScanState)
    ensures |r.events| <= |w|
    decreases |w|
  {
    if w == [] then ScanState([], 0, 0, {})
    else ScanStep(fs, pats, ScanFrom(fs, pats, w[..|w| - 1]), w[|w| - 1])
  }

  /** Everything the scanner puts on the queue over the walk `w` when the
      abort flag is first seen set at check `abortFrom` (check `i < |w|`
      comes before entry `i`, check `|w|` after the loop; the flag stays
      set once set, and a check past `|w|` means it never was). */
  function ScanRun(fs: FileSystem, pats: PatternSet, w: seq<Path>, abortFrom: nat): (r: seq<Event>)
    ensures abortFrom <= |w| ==> |r| <= abortFrom
    ensures abortFrom > |w| ==> 0 < |r| <= |w| + 1 && r[|r| - 1].ScanDone?
  {
    if abortFrom <= |w| then ScanFrom(fs, pats, w[..abortFrom]).events
    else
      var st := ScanFrom(fs, pats, w);
      st.events + [ScanDone(st.totalSize, st.fileCount)]
  }

  /** How the scanner ends. */
  function ScanStatus(w: seq<Path>, abortFrom: nat): Status
  {
    if abortFrom <= |w| then Aborted else Completed
  }

  /** The body of the loop for one entry of the walk. */
  method ScanOne(fs: FileSystem, pats: PatternSet, events: seq<Event>, totalSize: nat, fileCount: nat, processed: set<Path>, p: Path)
    returns (events': seq<Event>, totalSize': nat, fileCount': nat, processed': set<Path>)
    ensures ScanState(events', totalSize', fileCount', processed') ==
      ScanStep(fs, pats, ScanState(events, totalSize, fileCount, processed), p)
  {
    events', totalSize', fileCount', processed' := events, totalSize, fileCount, processed;
    match Examine(fs, pats, processed, p) {
      case Found(kind, size, mtime) =>
        events' := events + [FoundItem(p, kind, size, mtime)];
        totalSize' := totalSize + size;
        fileCount' := fileCount + 1;
        if kind == FolderItem {
          processed' := processed + {p};
        }
      case _ =>
    }
  }

  /** The loop of `Core._scanner` over the walk `walk`, with the abort
      check before each entry and once more after the loop. */
  method ScanWalk(fs: FileSystem, pats: PatternSet, walk: seq<Path>, abortFrom: nat)
    returns (events: seq<Event>, status: Status)
    ensures events == ScanRun(fs, pats, walk, abortFrom)
    ensures status == ScanStatus(walk, abortFrom)
  {
    var totalSize: nat, fileCount: nat, processed: set<Path> := 0, 0, {};
    events := [];
    var i := 0;
    while i < |walk|
      invariant i <= |walk| && i <= abortFrom
      invariant ScanState(events, totalSize, fileCount, processed) == ScanFrom(fs, pats, walk[..i])
    {
      if i == abortFrom {
        break;
      }
      assert walk[..i + 1][..i] == walk[..i];
      events, totalSize, fileCount, processed := ScanOne(fs, pats, events, totalSize, fileCount, processed, walk[i]);
      i := i + 1;
    }
    if i == abortFrom {
      status := Aborted;
    } else {
      assert i == |walk| && walk[..i] == walk;
      events := events + [ScanDone(totalSize, fileCount)];
      status := Completed;
    }
  }

  /** `Core._scanner(scan_path)` with the tables `pats`: the roots, their
      walk, and the loop over it. */
  method Scan(fs: FileSystem, pats: PatternSet, scanPath: Path, platform: Platform, abortFrom: nat)
    returns (events: seq<Event>, status: Status)
    ensures events == ScanRun(fs, pats, Walk(fs, scanPath, platform), abortFrom)
    ensures status == ScanStatus(Walk(fs, scanPath, platform), abortFrom)
  {
    var roots := BuildRoots(fs, scanPath, platform);
    var walk := WalkOf(fs, roots);
    events, status := ScanWalk(fs, pats, walk, abortFrom);
  }

  // ---------------------------------------------------------------------
  // What the loop keeps.

  /** The counters and the claimed set agree with the messages put:
      `file_count` is their number, `total_size` the sum of their sizes,
      `processed_paths` the set of reported folders; and every message is a
      `found_item` for an entry of `w`. */
  ghost predicate Accounts(st: ScanState, w: seq<Path>)
  {
    && st.fileCount == |st.events|
    && st.totalSize == SumSizes(st.events)
    && st.processed == FolderPaths(st.events)
    && forall k :: 0 <= k < |st.events| ==> st.events[k].FoundItem? && st.events[k].path in w
  }

  /** Appending one report adds its folder, if it is one, to the reported
      folders. */
  lemma FolderPathsSnoc(ev: seq<Event>, e: Event)
    requires e.FoundItem?
    ensures FolderPaths(ev + [e]) == FolderPaths(ev) + (if e.kind == FolderItem then {e.path} else {})
  {
    var ev2 := ev + [e];
    forall q ensures q in FolderPaths(ev2) <==> q in FolderPaths(ev) || (e.kind == FolderItem && q == e.path) {
      if q in FolderPaths(ev2) {
        var k :| 0 <= k < |ev2| && ev2[k].FoundItem? && ev2[k].kind == FolderItem && ev2[k].path == q;
        if k < |ev| {
          assert ev[k] == ev2[k];
        }
      }
      if q in FolderPaths(ev) {
        var k :| 0 <= k < |ev| && ev[k].FoundItem? && ev[k].kind == FolderItem && ev[k].path == q;
        assert ev2[k] == ev[k];
      }
      if e.kind == FolderItem && q == e.path {
        assert ev2[|ev|] == e;
      }
    }
  }

  /** Each turn keeps the accounts. */
  lemma AccountsStep(fs: FileSystem, pats: PatternSet, st: ScanState, w: seq<Path>, x: Path)
    requires Accounts(st, w)
    ensures Accounts(ScanStep(fs, pats, st, x), w + [x])
  {
    var st2 := ScanStep(fs, pats, st, x);
    if Examine(fs, pats, st.processed, x).Found? {
      var e := st2.events[|st.events|];
      assert st2.events == st.events + [e];
      assert st2.events[..|st.events|] == st.events;
      FolderPathsSnoc(st.events, e);
      forall k | 0 <= k < |st2.events| ensures st2.events[k].FoundItem? && st2.events[k].path in w + [x] {
        if k < |st.events| {
          assert st2.events[k] == st.events[k];
        }
      }
    } else {
      assert forall q :: q in w ==> q in w + [x];
    }
  }

  lemma {:induction false} ScanInvariant(fs: FileSystem, pats: PatternSet, w: seq<Path>)
    ensures var st := ScanFrom(fs, pats, w);
      && st.fileCount == |st.events|
      && st.totalSize == SumSizes(st.events)
      && st.processed == FolderPaths(st.events)
      && forall k :: 0 <= k < |st.events| ==> st.events[k].FoundItem? && st.events[k].path in w
    decreases |w|
  {
    if w != [] {
      var w' := w[..|w| - 1];
      ScanInvariant(fs, pats, w');
      AccountsStep(fs, pats, ScanFrom(fs, pats, w'), w', w[|w| - 1]);
      assert w' + [w[|w| - 1]] == w;
    }
  }

  /** Later states only extend the messages of earlier ones. */
  lemma {:induction false} ScanFromPrefix(fs: FileSystem, pats: PatternSet, w: seq<Path>, i: nat, j: nat)
    requires i <= j <= |w|
    ensures IsPrefix(ScanFrom(fs, pats, w[..i]).events, ScanFrom(fs, pats, w[..j]).events)
    decreases j
  {
    if i < j {
      ScanFromPrefix(fs, pats, w, i, j - 1);
      var before := ScanFrom(fs, pats, w[..j - 1]);
      assert w[..j][..j - 1] == w[..j - 1];
      assert ScanFrom(fs, pats, w[..j]) == ScanStep(fs, pats, before, w[j - 1]);
      PrefixTrans(ScanFrom(fs, pats, w[..i]).events, before.events, ScanFrom(fs, pats, w[..j]).events);
    }
  }

  /** An abort only cuts the message sequence short: the messages of an
      aborted scan are the first messages of any scan aborted later, or of
      the uninterrupted one. */
  lemma ScanAbortPrefix(fs: FileSystem, pats: PatternSet, w: seq<Path>, a: nat, b: nat)
    requires a <= b
    ensures IsPrefix(ScanRun(fs, pats, w, a), ScanRun(fs, pats, w, b))
  {
    if a <= |w| {
      assert w[..|w|] == w;
      ScanFromPrefix(fs, pats, w, a, if b <= |w| then b else |w|);
    }
  }

  /** `scan_done` is put exactly when the flag was never seen, as the last
      message; it carries the number of `found_item` messages and the sum of
      their sizes, and everything before it is a `found_item`. */
  lemma ScanSummary(fs: FileSystem, pats: PatternSet, w: seq<Path>, abortFrom: nat)
    ensures var r := ScanRun(fs, pats, w, abortFrom);
      forall k :: 0 <= k < |r| ==> (r[k].ScanDone? <==> abortFrom > |w| && k == |r| - 1)
    ensures var r := ScanRun(fs, pats, w, abortFrom);
      abortFrom > |w| ==> |r| > 0 && r[|r| - 1] == ScanDone(SumSizes(r[..|r| - 1]), |r| - 1)
    ensures var r := ScanRun(fs, pats, w, abortFrom);
      forall k :: 0 <= k < |r| && !r[k].ScanDone? ==> r[k].FoundItem?
  {
    var r := ScanRun(fs, pats, w, abortFrom);
    if abortFrom <= |w| {
      ScanInvariant(fs, pats, w[..abortFrom]);
    } else {
      ScanInvariant(fs, pats, w);
      assert r[..|r| - 1] == ScanFrom(fs, pats, w).events;
    }
  }

  // ---------------------------------------------------------------------
  // Which entries are reported.

  /** Every reported entry is a match whose handling completed, reported
      with its own kind, size and modification time. */
  lemma {:induction false} ScanSound(fs: FileSystem, pats: PatternSet, w: seq<Path>)
    ensures forall k :: 0 <= k < |ScanFrom(fs, pats, w).events| ==>
      Describes(fs, ScanFrom(fs, pats, w).events[k]) && Eligible(fs, pats, ScanFrom(fs, pats, w).events[k].path)
    decreases |w|
  {
    if w != [] {
      var w' := w[..|w| - 1];
      ScanSound(fs, pats, w');
      var st' := ScanFrom(fs, pats, w');
      var ev := ScanFrom(fs, pats, w).events;
      assert ev == ScanStep(fs, pats, st', w[|w| - 1]).events;
      forall k | 0 <= k < |ev| ensures Describes(fs, ev[k]) && Eligible(fs, pats, ev[k].path) {
        if k < |st'.events| {
          assert ev[k] == ev[..|st'.events|][k] == st'.events[k];
        } else {
          var r := Examine(fs, pats, st'.processed, w[|w| - 1]);
          assert ev[k] == FoundItem(w[|w| - 1], r.kind, r.size, r.mtime);
        }
      }
    }
  }

  /** `p` is reported, or lies inside a reported folder. */
  predicate Covered(ev: seq<Event>, p: Path)
  {
    || (exists k :: 0 <= k < |ev| && ev[k].FoundItem? && ev[k].path == p)
    || (exists k :: 0 <= k < |ev| && ev[k].FoundItem? && ev[k].kind == FolderItem && IsStrictAncestor(ev[k].path, p))
  }

  lemma CoveredExtends(ev: seq<Event>, ev': seq<Event>, p: Path)
    requires IsPrefix(ev, ev') && Covered(ev, p)
    ensures Covered(ev', p)
  {
    if k :| 0 <= k < |ev| && ev[k].FoundItem? && ev[k].path == p {
      assert ev'[k] == ev[k];
    } else {
      var k :| 0 <= k < |ev| && ev[k].FoundItem? && ev[k].kind == FolderItem && IsStrictAncestor(ev[k].path, p);
      assert ev'[k] == ev[k];
    }
  }

  /** Nothing that should be reported is lost: every entry of the walk
      whose handling would complete is reported, unless a folder enclosing
      it was reported already. A folder dropped by an error claims nothing, so its
      contents stay eligible. */
  lemma {:induction false} ScanComplete(fs: FileSystem, pats: PatternSet, w: seq<Path>)
    ensures forall p :: p in w && Eligible(fs, pats, p) ==> Covered(ScanFrom(fs, pats, w).events, p)
    decreases |w|
  {
    if w != [] {
      var w' := w[..|w| - 1];
      var x := w[|w| - 1];
      ScanComplete(fs, pats, w');
      ScanInvariant(fs, pats, w');
      var st' := ScanFrom(fs, pats, w');
      var ev := ScanFrom(fs, pats, w).events;
      assert w == w' + [x];
      forall p | p in w && Eligible(fs, pats, p) ensures Covered(ev, p) {
        if p in w' {
          CoveredExtends(st'.events, ev, p);
        } else if HasClaimedAncestor(p, st'.processed) {
          ClaimedAncestorIff(p, st'.processed);
          var q :| q in st'.processed && IsStrictAncestor(q, p);
          var k :| 0 <= k < |st'.events| && st'.events[k].FoundItem? && st'.events[k].kind == FolderItem && st'.events[k].path == q;
          assert Covered(st'.events, p);
          CoveredExtends(st'.events, ev, p);
        } else {
          assert ev[|st'.events|].path == p;
        }
      }
    }
  }

  /** With directories walked before their contents, nothing reported
      lies inside a reported folder. */
  lemma {:induction false} ScanNoNesting(fs: FileSystem, pats: PatternSet, w: seq<Path>)
    requires ParentsFirst(w)
    ensures var ev := ScanFrom(fs, pats, w).events;
      forall i, j :: 0 <= i < |ev| && 0 <= j < |ev| && ev[i].FoundItem? && ev[i].kind == FolderItem && ev[j].FoundItem? ==>
        !IsStrictAncestor(ev[i].path, ev[j].path)
    decreases |w|
  {
    if w != [] {
      var w' := w[..|w| - 1];
      var x := w[|w| - 1];
      assert ParentsFirst(w') by {
        forall a, b | 0 <= a < b < |w'| ensures !IsStrictAncestor(w'[b], w'[a]) {
          assert w'[a] == w[a] && w'[b] == w[b];
        }
      }
      ScanNoNesting(fs, pats, w');
      ScanInvariant(fs, pats, w');
      var st' := ScanFrom(fs, pats, w');
      var ev := ScanFrom(fs, pats, w).events;
      var n := |st'.events|;
      if |ev| > n {
        ClaimedAncestorIff(x, st'.processed);
        forall i, j | 0 <= i < |ev| && 0 <= j < |ev| && ev[i].FoundItem? && ev[i].kind == FolderItem && ev[j].FoundItem?
          ensures !IsStrictAncestor(ev[i].path, ev[j].path)
        {
          if i < n && j < n {
            assert ev[i] == st'.events[i] && ev[j] == st'.events[j];
          } else if i < n {
            assert ev[i] == st'.events[i] && ev[i].path in st'.processed;
          } else if j < n {
            assert ev[j] == st'.events[j] && ev[j].path in w';
            var m :| 0 <= m < |w'| && w'[m] == ev[j].path;
            assert w[m] == ev[j].path && w[|w| - 1] == ev[i].path;
          }
        }
      }
    }
  }

  /** When the walk lists each path once, each is reported at most once. */
  lemma {:induction false} ScanDistinct(fs: FileSystem, pats: PatternSet, w: seq<Path>)
    requires Distinct(w)
    ensures var ev := ScanFrom(fs, pats, w).events;
      forall i, j :: 0 <= i < j < |ev| && ev[i].FoundItem? && ev[j].FoundItem? ==> ev[i].path != ev[j].path
    decreases |w|
  {
    if w != [] {
      var w' := w[..|w| - 1];
      var x := w[|w| - 1];
      assert Distinct(w') by {
        forall a, b | 0 <= a < b < |w'| ensures w'[a] != w'[b] {
          assert w'[a] == w[a] && w'[b] == w[b];
        }
      }
      ScanDistinct(fs, pats, w');
      ScanInvariant(fs, pats, w');
      var st' := ScanFrom(fs, pats, w');
      var ev := ScanFrom(fs, pats, w).events;
      var n := |st'.events|;
      forall m | 0 <= m < |w'| ensures w'[m] != x {
        assert w'[m] == w[m];
      }
      forall i, j | 0 <= i < j < |ev| && ev[i].FoundItem? && ev[j].FoundItem? ensures ev[i].path != ev[j].path {
        assert ev[i] == st'.events[i];
        if j < n {
          assert ev[j] == st'.events[j];
        }
      }
    }
  }

  // ---------------------------------------------------------------------
  // The scanner over its own walk.

  lemma OrderlyPrefix(w: seq<Path>, n: nat)
    requires n <= |w| && ParentsFirst(w) && Distinct(w)
    ensures ParentsFirst(w[..n]) && Distinct(w[..n])
  {
    forall a, b | 0 <= a < b < n ensures !IsStrictAncestor(w[..n][b], w[..n][a]) && w[..n][a] != w[..n][b] {
      assert w[..n][a] == w[a] && w[..n][b] == w[b];
    }
  }

  /** The reports of `ev` name each path at most once, never anything
      inside a reported folder, and only matches whose handling completed,
      each with its own kind, size and time. */
  ghost predicate WellReported(fs: FileSystem, pats: PatternSet, ev: seq<Event>)
  {
    && (forall i, j :: 0 <= i < j < |ev| && ev[i].FoundItem? && ev[j].FoundItem? ==> ev[i].path != ev[j].path)
    && (forall i, j :: 0 <= i < |ev| && 0 <= j < |ev| && ev[i].FoundItem? && ev[i].kind == FolderItem && ev[j].FoundItem? ==>
          !IsStrictAncestor(ev[i].path, ev[j].path))
    && (forall k :: 0 <= k < |ev| && ev[k].FoundItem? ==> Describes(fs, ev[k]) && Eligible(fs, pats, ev[k].path))
  }

  lemma ScanFromWellReported(fs: FileSystem, pats: PatternSet, w: seq<Path>)
    requires ParentsFirst(w) && Distinct(w)
    ensures WellReported(fs, pats, ScanFrom(fs, pats, w).events)
  {
    ScanNoNesting(fs, pats, w);
    ScanDistinct(fs, pats, w);
    ScanSound(fs, pats, w);
  }

  lemma WellReportedAppend(fs: FileSystem, pats: PatternSet, ev: seq<Event>, e: Event)
    requires WellReported(fs, pats, ev) && !e.FoundItem?
    ensures WellReported(fs, pats, ev + [e])
  {
    assert forall k :: 0 <= k < |ev| ==> (ev + [e])[k] == ev[k];
  }

  /** Over a walk that lists each path once, parents first, the messages
      are well reported whenever the abort comes. */
  lemma ScanRunWellReported(fs: FileSystem, pats: PatternSet, w: seq<Path>, abortFrom: nat)
    requires ParentsFirst(w) && Distinct(w)
    ensures WellReported(fs, pats, ScanRun(fs, pats, w, abortFrom))
  {
    if abortFrom <= |w| {
      OrderlyPrefix(w, abortFrom);
      ScanFromWellReported(fs, pats, w[..abortFrom]);
    } else {
      ScanFromWellReported(fs, pats, w);
      var st := ScanFrom(fs, pats, w);
      WellReportedAppend(fs, pats, st.events, ScanDone(st.totalSize, st.fileCount));
    }
  }

  /** On a well-formed filesystem the scanner's own walk qualifies. */
  lemma ScanWellReported(fs: FileSystem, pats: PatternSet, scanPath: Path, platform: Platform, abortFrom: nat)
    requires Valid(fs)
    ensures WellReported(fs, pats, ScanRun(fs, pats, Walk(fs, scanPath, platform), abortFrom))
  {
    WalkIsOrderly(fs, scanPath, platform);
    ScanRunWellReported(fs, pats, Walk(fs, scanPath, platform), abortFrom);
  }
}
