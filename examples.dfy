/** Concrete runs of the model on small trees, and facts about the
    `JUNK_FILES` tables for particular names. */
module Examples {
  import opened Text
  import opened Paths
  import opened Classifier
  import opened FileTree
  import opened ScanRoots
  import opened Events
  import opened Scanner
  import opened Cleaner

  // ---------------------------------------------------------------------
  // Names against the tables.

  lemma ALogIsJunk()
    ensures IsJunkFile(JunkFiles, "a.log")
  {
    SuffixAt("a.log", 1);
    assert "a.log"[1..] == ".log";
    assert Lower(".log") == ".log";
    assert Lower(Suffix("a.log")) == Lower(JunkFiles.extensions[0]);
  }

  lemma NotesTmpIsJunk()
    ensures IsJunkFile(JunkFiles, "notes.tmp")
  {
    SuffixAt("notes.tmp", 5);
    assert "notes.tmp"[5..] == ".tmp";
    assert Lower(".tmp") == ".tmp";
    assert Lower(Suffix("notes.tmp")) == Lower(JunkFiles.extensions[1]);
  }

  lemma CacheIsJunkFolder()
    ensures IsJunkFolder(JunkFiles, "Cache")
  {
    assert Lower("Cache") == "cache";
    assert Search(CacheAnyCase, "Cache");
    assert Regex(CacheAnyCase) in JunkFiles.folders;
  }

  /** No extension equals `.c`, in any case. */
  lemma NoCExtension()
    ensures forall j :: 0 <= j < |JunkFiles.extensions| ==> Lower(JunkFiles.extensions[j]) != ".c"
  {
    forall j | 0 <= j < |JunkFiles.extensions| ensures Lower(JunkFiles.extensions[j]) != ".c" {
      var e := JunkFiles.extensions[j];
      if |e| == 2 {
        assert e[1] == '~';
        assert Lower(e)[1] == LowerChar(e[1]);
      }
    }
  }

  /** The only regular expression of `names` is the `.zcompdump-` one. */
  lemma NamesHaveOneRegex()
    ensures forall p :: p in JunkFiles.names && p.Regex? ==> p.kind == ZcompdumpDash
  {
  }

  /** Every plain string of `names` has at least 7 characters, and none has
      14. */
  lemma NameLengths()
    ensures forall p :: p in JunkFiles.names && p.Literal? ==> 7 <= |p.text| && |p.text| != 14
  {
  }

  /** `main.c` is too short for a plain string of `names` and holds no
      `.zcompdump-`. */
  lemma MainCMatchesNoName()
    ensures forall p :: p in JunkFiles.names ==> !PatternMatches(p, "main.c")
  {
    var name := "main.c";
    assert ".zcompdump-"[1] == 'z' && 'z' !in name;
    NotContainsWithout(name, ".zcompdump-", 1);
    NamesHaveOneRegex();
    NameLengths();
    LengthRulesOut(JunkFiles.names, name);
  }

  lemma MainCIsNotJunk()
    ensures !IsJunkFile(JunkFiles, "main.c")
  {
    MainCMatchesNoName();
    NoCExtension();
    SuffixAt("main.c", 4);
    assert "main.c"[4..] == ".c";
    assert Lower(".c") == ".c";
  }

  /** The `.zcompdump-` expression finds its text anywhere in a name. */
  lemma ZcompdumpIsJunk()
    ensures IsJunkFile(JunkFiles, ".zcompdump-mac")
  {
    var low := ".zcompdump-mac";
    assert low[..11] == ".zcompdump-";
    assert Search(ZcompdumpDash, low);
    assert Regex(ZcompdumpDash) in JunkFiles.names;
  }

  /** `.ZCOMPDUMP-mac` has 14 characters, and the one expression of `names`
      wants a lower-case `z`. */
  lemma UpperZcompdumpMatchesNoName()
    ensures forall p :: p in JunkFiles.names ==> !PatternMatches(p, ".ZCOMPDUMP-mac")
  {
    var up := ".ZCOMPDUMP-mac";
    assert ".zcompdump-"[1] == 'z' && 'z' !in up;
    NotContainsWithout(up, ".zcompdump-", 1);
    NamesHaveOneRegex();
    NameLengths();
    LengthRulesOut(JunkFiles.names, up);
  }

  /** A name whose only dot is its first character has no suffix. */
  lemma LeadingDotOnly(name: string)
    requires |name| > 0 && name[0] == '.'
    requires forall j :: 0 < j < |name| ==> name[j] != '.'
    ensures Suffix(name) == ""
  {
  }

  /** Unlike the plain strings of `names`, the `.zcompdump-` expression is
      compiled without IGNORECASE: an upper-case spelling is not junk. */
  lemma ZcompdumpIsCaseSensitive()
    ensures !IsJunkFile(JunkFiles, ".ZCOMPDUMP-mac")
  {
    UpperZcompdumpMatchesNoName();
    LeadingDotOnly(".ZCOMPDUMP-mac");
    assert Lower("") == "";
    assert forall j :: 0 <= j < |JunkFiles.extensions| ==> |Lower(JunkFiles.extensions[j])| > 0;
  }

  // ---------------------------------------------------------------------
  // A directory holding `a.log` (10 bytes), `notes.tmp` (5 bytes),
  // `main.c` (5 bytes) and a folder `Cache` with one 20-byte file.

  const Root: Path := ["data", "scan"]
  const ALog: Path := ["data", "scan", "a.log"]
  const NotesTmp: Path := ["data", "scan", "notes.tmp"]
  const MainC: Path := ["data", "scan", "main.c"]
  const CacheDir: Path := ["data", "scan", "Cache"]
  const OldTmp: Path := ["data", "scan", "Cache", "old.tmp"]

  const Scenario: FileSystem := FileSystem(
    map[Root := Dir(0), ALog := File(10, 1), NotesTmp := File(5, 2), MainC := File(5, 3),
        CacheDir := Dir(4), OldTmp := File(20, 5)],
    [Root, ALog, NotesTmp, MainC, CacheDir, OldTmp],
    map[], map[])

  /** What the scenario holds at each of its paths. */
  lemma ScenarioNodes()
    ensures Scenario.nodes[ALog] == File(10, 1) && Scenario.nodes[NotesTmp] == File(5, 2)
    ensures Scenario.nodes[MainC] == File(5, 3) && Scenario.nodes[CacheDir] == Dir(4)
    ensures Scenario.nodes[OldTmp] == File(20, 5) && Scenario.statFails == map[] && Scenario.unlinkFails == map[]
  {
  }

  /** On Linux with no `/var/log`, the walk is the listing below the root. */
  lemma ScenarioWalk()
    ensures Walk(Scenario, Root, Linux) == [ALog, NotesTmp, MainC, CacheDir, OldTmp]
  {
    var temps := SystemTempDirs(Linux);
    assert temps == [["var", "log"]] && temps[1..] == [];
    assert ["var", "log"] !in Scenario.nodes;
    assert AddTemps(Scenario, [Root], temps) == AddTemps(Scenario, [Root], temps[1..]);
    assert RootSet(Scenario, Root, Linux) == [Root];
    var s := Scenario.order;
    assert Below(Scenario, Root) == Filter(s, Inside(Root));
    assert !Keeps(Inside(Root), s[0]) && s[1..] == [ALog, NotesTmp, MainC, CacheDir, OldTmp];
    FilterKeepsAll(s[1..], Inside(Root));
    assert WalkOf(Scenario, [Root]) == Below(Scenario, Root) + WalkOf(Scenario, []);
  }

  lemma CacheSize()
    ensures DirSize(Scenario, CacheDir) == Bytes(20)
  {
    var fs, s := Scenario, Scenario.order;
    assert !SomeEntryFailsBelow(fs, CacheDir, s);
    assert s[5..] == [OldTmp] && s[4..] == [CacheDir, OldTmp] && s[3..] == [MainC] + s[4..];
    assert s[2..] == [NotesTmp] + s[3..] && s[1..] == [ALog] + s[2..];
    assert BytesBelow(fs, CacheDir, s[5..]) == 20;
    assert BytesBelow(fs, CacheDir, s[4..]) == 20;
    assert BytesBelow(fs, CacheDir, s[3..]) == 20;
    assert BytesBelow(fs, CacheDir, s[2..]) == 20;
    assert BytesBelow(fs, CacheDir, s[1..]) == 20;
    assert BytesBelow(fs, CacheDir, s) == 20;
  }

  /** An unclaimed regular file that matches and can be stat-ed is
      reported with its size and time. */
  lemma ExamineFile(fs: FileSystem, pats: PatternSet, p: Path, size: nat, mtime: int)
    requires p in fs.nodes && fs.nodes[p] == File(size, mtime) && !StatFails(fs, p)
    requires IsJunkFile(pats, Name(p))
    ensures Examine(fs, pats, {}, p) == Found(FileItem, size, mtime)
  {
    assert !HasClaimedAncestor(p, {});
  }

  /** A regular file that does not match is passed over. */
  lemma ExamineOtherFile(fs: FileSystem, pats: PatternSet, p: Path, size: nat, mtime: int)
    requires p in fs.nodes && fs.nodes[p] == File(size, mtime) && !StatFails(fs, p)
    requires !IsJunkFile(pats, Name(p))
    ensures Examine(fs, pats, {}, p) == Skipped
  {
    assert !HasClaimedAncestor(p, {});
  }

  lemma ALogNameIsJunk()
    ensures IsJunkFile(JunkFiles, Name(ALog))
  {
    assert Name(ALog) == "a.log";
    ALogIsJunk();
  }

  lemma NotesTmpNameIsJunk()
    ensures IsJunkFile(JunkFiles, Name(NotesTmp))
  {
    assert Name(NotesTmp) == "notes.tmp";
    NotesTmpIsJunk();
  }

  lemma MainCNameIsNotJunk()
    ensures !IsJunkFile(JunkFiles, Name(MainC))
  {
    assert Name(MainC) == "main.c";
    MainCIsNotJunk();
  }

  lemma ExamineALog()
    ensures Examine(Scenario, JunkFiles, {}, ALog) == Found(FileItem, 10, 1)
  {
    ScenarioNodes();
    ALogNameIsJunk();
    ExamineFile(Scenario, JunkFiles, ALog, 10, 1);
  }

  lemma ExamineNotesTmp()
    ensures Examine(Scenario, JunkFiles, {}, NotesTmp) == Found(FileItem, 5, 2)
  {
    ScenarioNodes();
    NotesTmpNameIsJunk();
    ExamineFile(Scenario, JunkFiles, NotesTmp, 5, 2);
  }

  lemma ExamineMainC()
    ensures Examine(Scenario, JunkFiles, {}, MainC) == Skipped
  {
    ScenarioNodes();
    MainCNameIsNotJunk();
    ExamineOtherFile(Scenario, JunkFiles, MainC, 5, 3);
  }

  /** An unclaimed matching folder whose size is known is reported with
      that size. */
  lemma ExamineFolder(fs: FileSystem, pats: PatternSet, p: Path, mtime: int, size: nat)
    requires p in fs.nodes && fs.nodes[p] == Dir(mtime) && !StatFails(fs, p)
    requires IsJunkFolder(pats, Name(p)) && DirSize(fs, p) == Bytes(size)
    ensures Examine(fs, pats, {}, p) == Found(FolderItem, size, mtime)
  {
    assert !HasClaimedAncestor(p, {});
  }

  lemma CacheNameIsJunk()
    ensures IsJunkFolder(JunkFiles, Name(CacheDir))
  {
    assert Name(CacheDir) == "Cache";
    CacheIsJunkFolder();
  }

  lemma ExamineCache()
    ensures Examine(Scenario, JunkFiles, {}, CacheDir) == Found(FolderItem, 20, 4)
  {
    CacheNameIsJunk();
    CacheSize();
    ExamineFolder(Scenario, JunkFiles, CacheDir, 4, 20);
  }

  lemma ExamineOldTmp()
    ensures Examine(Scenario, JunkFiles, {CacheDir}, OldTmp) == Skipped
  {
    assert OldTmp[..3] == CacheDir;
    assert HasClaimedAncestor(OldTmp, {CacheDir});
  }

  /** One more entry that comes to a report. */
  lemma ScanFromFound(fs: FileSystem, pats: PatternSet, w: seq<Path>, p: Path, kind: ItemKind, size: nat, mtime: int)
    requires Examine(fs, pats, ScanFrom(fs, pats, w).processed, p) == Found(kind, size, mtime)
    ensures ScanFrom(fs, pats, w + [p]) == ScanState(
      ScanFrom(fs, pats, w).events + [FoundItem(p, kind, size, mtime)],
      ScanFrom(fs, pats, w).totalSize + size,
      ScanFrom(fs, pats, w).fileCount + 1,
      if kind == FolderItem then ScanFrom(fs, pats, w).processed + {p} else ScanFrom(fs, pats, w).processed)
  {
    assert (w + [p])[..|w|] == w;
  }

  /** One more entry that comes to nothing. */
  lemma ScanFromSkipped(fs: FileSystem, pats: PatternSet, w: seq<Path>, p: Path)
    requires Examine(fs, pats, ScanFrom(fs, pats, w).processed, p) == Skipped
    ensures ScanFrom(fs, pats, w + [p]) == ScanFrom(fs, pats, w)
  {
    assert (w + [p])[..|w|] == w;
  }

  // The scan over five entries shaped like the scenario's walk, turn by
  // turn: two files reported, a file passed over, a folder reported and a
  // file inside it passed over.

  lemma ScanTurn1(fs: FileSystem, pats: PatternSet, a: Path, sa: nat, ta: int)
    requires Examine(fs, pats, {}, a) == Found(FileItem, sa, ta)
    ensures ScanFrom(fs, pats, [a]) == ScanState([FoundItem(a, FileItem, sa, ta)], sa, 1, {})
  {
    var w0: seq<Path> := [];
    assert [a] == w0 + [a];
    ScanFromFound(fs, pats, w0, a, FileItem, sa, ta);
  }

  lemma ScanTurn2(fs: FileSystem, pats: PatternSet, w: seq<Path>, b: Path, sb: nat, tb: int)
    requires ScanFrom(fs, pats, w).processed == {}
    requires Examine(fs, pats, {}, b) == Found(FileItem, sb, tb)
    ensures ScanFrom(fs, pats, w + [b]) == ScanState(ScanFrom(fs, pats, w).events + [FoundItem(b, FileItem, sb, tb)],
      ScanFrom(fs, pats, w).totalSize + sb, ScanFrom(fs, pats, w).fileCount + 1, {})
  {
    ScanFromFound(fs, pats, w, b, FileItem, sb, tb);
  }

  lemma ScanTurn3(fs: FileSystem, pats: PatternSet, w: seq<Path>, c: Path)
    requires ScanFrom(fs, pats, w).processed == {}
    requires Examine(fs, pats, {}, c) == Skipped
    ensures ScanFrom(fs, pats, w + [c]) == ScanFrom(fs, pats, w)
  {
    ScanFromSkipped(fs, pats, w, c);
  }

  lemma ScanTurn4(fs: FileSystem, pats: PatternSet, w: seq<Path>, d: Path, sd: nat, td: int)
    requires ScanFrom(fs, pats, w).processed == {}
    requires Examine(fs, pats, {}, d) == Found(FolderItem, sd, td)
    ensures ScanFrom(fs, pats, w + [d]) == ScanState(ScanFrom(fs, pats, w).events + [FoundItem(d, FolderItem, sd, td)],
      ScanFrom(fs, pats, w).totalSize + sd, ScanFrom(fs, pats, w).fileCount + 1, {d})
  {
    ScanFromFound(fs, pats, w, d, FolderItem, sd, td);
  }

  lemma ScanTurn5(fs: FileSystem, pats: PatternSet, w: seq<Path>, d: Path, e: Path)
    requires ScanFrom(fs, pats, w).processed == {d}
    requires Examine(fs, pats, {d}, e) == Skipped
    ensures ScanFrom(fs, pats, w + [e]) == ScanFrom(fs, pats, w)
  {
    ScanFromSkipped(fs, pats, w, e);
  }

  /** A scan over five entries that runs to its end. */
  lemma ScanRunCompleted(fs: FileSystem, pats: PatternSet, w: seq<Path>, st: ScanState)
    requires |w| == 5 && ScanFrom(fs, pats, w) == st
    ensures ScanRun(fs, pats, w, 6) == st.events + [ScanDone(st.totalSize, st.fileCount)]
  {
  }

  // The prefixes of a scan over five entries shaped like the scenario's
  // walk.

  lemma ScanLoop2(fs: FileSystem, pats: PatternSet, a: Path, b: Path, sa: nat, ta: int, sb: nat, tb: int)
    requires Examine(fs, pats, {}, a) == Found(FileItem, sa, ta)
    requires Examine(fs, pats, {}, b) == Found(FileItem, sb, tb)
    ensures ScanFrom(fs, pats, [a, b]) == ScanState([FoundItem(a, FileItem, sa, ta), FoundItem(b, FileItem, sb, tb)], sa + sb, 2, {})
  {
    assert [a, b] == [a] + [b];
    ScanTurn1(fs, pats, a, sa, ta);
    ScanTurn2(fs, pats, [a], b, sb, tb);
  }

  lemma ScanLoop3(fs: FileSystem, pats: PatternSet, a: Path, b: Path, c: Path, sa: nat, ta: int, sb: nat, tb: int)
    requires Examine(fs, pats, {}, a) == Found(FileItem, sa, ta)
    requires Examine(fs, pats, {}, b) == Found(FileItem, sb, tb)
    requires Examine(fs, pats, {}, c) == Skipped
    ensures ScanFrom(fs, pats, [a, b, c]) == ScanState([FoundItem(a, FileItem, sa, ta), FoundItem(b, FileItem, sb, tb)], sa + sb, 2, {})
  {
    assert [a, b, c] == [a, b] + [c];
    ScanLoop2(fs, pats, a, b, sa, ta, sb, tb);
    ScanTurn3(fs, pats, [a, b], c);
  }

  lemma ScanLoop4(fs: FileSystem, pats: PatternSet, a: Path, b: Path, c: Path, d: Path,
                  sa: nat, ta: int, sb: nat, tb: int, sd: nat, td: int)
    requires Examine(fs, pats, {}, a) == Found(FileItem, sa, ta)
    requires Examine(fs, pats, {}, b) == Found(FileItem, sb, tb)
    requires Examine(fs, pats, {}, c) == Skipped
    requires Examine(fs, pats, {}, d) == Found(FolderItem, sd, td)
    ensures ScanFrom(fs, pats, [a, b, c, d]) == ScanState(
      [FoundItem(a, FileItem, sa, ta), FoundItem(b, FileItem, sb, tb), FoundItem(d, FolderItem, sd, td)], sa + sb + sd, 3, {d})
  {
    assert [a, b, c, d] == [a, b, c] + [d];
    ScanLoop3(fs, pats, a, b, c, sa, ta, sb, tb);
    ScanTurn4(fs, pats, [a, b, c], d, sd, td);
  }

  lemma ScanLoop(fs: FileSystem, pats: PatternSet, a: Path, b: Path, c: Path, d: Path, e: Path,
                 sa: nat, ta: int, sb: nat, tb: int, sd: nat, td: int)
    requires Examine(fs, pats, {}, a) == Found(FileItem, sa, ta)
    requires Examine(fs, pats, {}, b) == Found(FileItem, sb, tb)
    requires Examine(fs, pats, {}, c) == Skipped
    requires Examine(fs, pats, {}, d) == Found(FolderItem, sd, td)
    requires Examine(fs, pats, {d}, e) == Skipped
    ensures ScanFrom(fs, pats, [a, b, c, d, e]) == ScanState(
      [FoundItem(a, FileItem, sa, ta), FoundItem(b, FileItem, sb, tb), FoundItem(d, FolderItem, sd, td)], sa + sb + sd, 3, {d})
  {
    assert [a, b, c, d, e] == [a, b, c, d] + [e];
    ScanLoop4(fs, pats, a, b, c, d, sa, ta, sb, tb, sd, td);
    ScanTurn5(fs, pats, [a, b, c, d], d, e);
  }

  /** Scanning the directory reports `a.log`, `notes.tmp` and the folder
      `Cache` (20 bytes) and nothing inside it, never `main.c`, and ends
      with the summary (35 bytes, 3 items). */
  lemma ScenarioScan()
    ensures ScanRun(Scenario, JunkFiles, Walk(Scenario, Root, Linux), 6) ==
      [FoundItem(ALog, FileItem, 10, 1), FoundItem(NotesTmp, FileItem, 5, 2), FoundItem(CacheDir, FolderItem, 20, 4),
       ScanDone(35, 3)]
  {
    ScenarioWalk();
    ExamineALog();
    ExamineNotesTmp();
    ExamineMainC();
    ExamineCache();
    ExamineOldTmp();
    ScanLoop(Scenario, JunkFiles, ALog, NotesTmp, MainC, CacheDir, OldTmp, 10, 1, 5, 2, 20, 4);
    ScanRunCompleted(Scenario, JunkFiles, [ALog, NotesTmp, MainC, CacheDir, OldTmp], ScanState(
      [FoundItem(ALog, FileItem, 10, 1), FoundItem(NotesTmp, FileItem, 5, 2), FoundItem(CacheDir, FolderItem, 20, 4)], 35, 3, {CacheDir}));
  }

  // ---------------------------------------------------------------------
  // Cleaning the folder `Cache`, then `old.tmp` (gone with the folder),
  // then `a.log` and `notes.tmp`.

  const Items: seq<Path> := [CacheDir, OldTmp, ALog, NotesTmp]

  /** One more item is one more turn. */
  lemma CleanFromAppend(fs: FileSystem, w: seq<Path>, p: Path, total: nat)
    ensures CleanFrom(fs, w + [p], total) == CleanStep(CleanFrom(fs, w, total), p, total)
  {
    assert (w + [p])[..|w|] == w;
  }

  /** A turn on an item that is removed. */
  lemma CleanStepRemoved(st: CleanState, p: Path, total: nat, size: nat, after: FileSystem)
    requires !st.escaped && CleanItem(st.fs, p) == Removed(size, after)
    ensures CleanStep(st, p, total) ==
      CleanState(after, st.events + [CleanProgress(st.cleaned + 1, total)], st.cleaned + 1, st.successCount + 1, st.cleanedSize + size, false)
  {
  }

  /** One more item that is removed. */
  lemma CleanFromRemoved(fs: FileSystem, w: seq<Path>, p: Path, total: nat, size: nat, after: FileSystem)
    requires !CleanFrom(fs, w, total).escaped && CleanItem(CleanFrom(fs, w, total).fs, p) == Removed(size, after)
    ensures CleanFrom(fs, w + [p], total) == CleanState(
      after,
      CleanFrom(fs, w, total).events + [CleanProgress(CleanFrom(fs, w, total).cleaned + 1, total)],
      CleanFrom(fs, w, total).cleaned + 1,
      CleanFrom(fs, w, total).successCount + 1,
      CleanFrom(fs, w, total).cleanedSize + size, false)
  {
    CleanFromAppend(fs, w, p, total);
    CleanStepRemoved(CleanFrom(fs, w, total), p, total, size, after);
  }

  /** One more item that no longer exists. */
  lemma CleanFromMissing(fs: FileSystem, w: seq<Path>, p: Path, total: nat)
    requires CleanItem(CleanFrom(fs, w, total).fs, p) == Missing
    ensures CleanFrom(fs, w + [p], total) == CleanFrom(fs, w, total)
  {
    CleanFromAppend(fs, w, p, total);
  }

  /** A regular file that can be stat-ed is unlinked. */
  lemma UnlinkedFile(fs: FileSystem, p: Path)
    requires IsRegularFile(fs, p) && !StatFails(fs, p) && p !in fs.unlinkFails
    ensures CleanItem(fs, p) == Removed(fs.nodes[p].size, Remove(fs, p, false))
  {
  }

  /** The filesystem after each removal of the run. */
  function AfterCache(fs: FileSystem): FileSystem { Remove(fs, CacheDir, true) }
  function AfterALog(fs: FileSystem): FileSystem { Remove(AfterCache(fs), ALog, false) }
  function AfterNotes(fs: FileSystem): FileSystem { Remove(AfterALog(fs), NotesTmp, false) }

  /** The first two turns over four items: the first is removed, the
      second is gone by then. */
  lemma CleanLoopStart(fs: FileSystem, a: Path, b: Path, f1: FileSystem, sa: nat)
    requires CleanItem(fs, a) == Removed(sa, f1)
    requires CleanItem(f1, b) == Missing
    ensures CleanFrom(fs, [a], 4) == CleanState(f1, [CleanProgress(1, 4)], 1, 1, sa, false)
    ensures CleanFrom(fs, [a, b], 4) == CleanFrom(fs, [a], 4)
  {
    var w0: seq<Path> := [];
    CleanFromRemoved(fs, w0, a, 4, sa, f1);
    assert w0 + [a] == [a];
    CleanFromMissing(fs, [a], b, 4);
    assert [a] + [b] == [a, b];
  }

  /** The third turn: the item is removed. */
  lemma CleanTurn3(fs: FileSystem, a: Path, b: Path, c: Path, f1: FileSystem, f2: FileSystem, sa: nat, sc: nat)
    requires CleanFrom(fs, [a, b], 4) == CleanState(f1, [CleanProgress(1, 4)], 1, 1, sa, false)
    requires CleanItem(f1, c) == Removed(sc, f2)
    ensures CleanFrom(fs, [a, b, c], 4) == CleanState(f2, [CleanProgress(1, 4), CleanProgress(2, 4)], 2, 2, sa + sc, false)
  {
    var w2: seq<Path> := [a, b];
    assert [a, b, c] == w2 + [c];
    CleanFromRemoved(fs, w2, c, 4, sc, f2);
  }

  /** The last turn: the item is removed. */
  lemma CleanTurn4(fs: FileSystem, a: Path, b: Path, c: Path, d: Path, f2: FileSystem, f3: FileSystem, s2: nat, sd: nat)
    requires CleanFrom(fs, [a, b, c], 4) == CleanState(f2, [CleanProgress(1, 4), CleanProgress(2, 4)], 2, 2, s2, false)
    requires CleanItem(f2, d) == Removed(sd, f3)
    ensures CleanFrom(fs, [a, b, c, d], 4) == CleanState(
      f3, [CleanProgress(1, 4), CleanProgress(2, 4), CleanProgress(3, 4)], 3, 3, s2 + sd, false)
  {
    var w3: seq<Path> := [a, b, c];
    assert [a, b, c, d] == w3 + [d];
    CleanFromRemoved(fs, w3, d, 4, sd, f3);
  }

  /** The run over four items with the flag set before the second. */
  lemma CleanLoopAborted(fs: FileSystem, a: Path, b: Path, c: Path, d: Path, f1: FileSystem, sa: nat)
    requires CleanItem(fs, a) == Removed(sa, f1)
    requires CleanItem(f1, b) == Missing
    ensures CleanRun(fs, [a, b, c, d], 1) == RunResult([CleanProgress(1, 4)], f1, Aborted)
  {
    assert [a, b, c, d][..1] == [a];
    CleanLoopStart(fs, a, b, f1, sa);
  }

  /** A run over four items that reaches its end. */
  lemma CleanRunCompleted(fs: FileSystem, items: seq<Path>, st: CleanState)
    requires |items| == 4 && CleanFrom(fs, items, 4) == st && !st.escaped
    ensures CleanRun(fs, items, 5) == RunResult(st.events + [CleanDone(st.cleanedSize, st.successCount, 4)], st.fs, Completed)
  {
    assert items[..Reached(items, 5)] == items;
  }

  /** The first three turns over four items. */
  lemma CleanLoop3(fs: FileSystem, a: Path, b: Path, c: Path, f1: FileSystem, f2: FileSystem, sa: nat, sc: nat)
    requires CleanItem(fs, a) == Removed(sa, f1)
    requires CleanItem(f1, b) == Missing
    requires CleanItem(f1, c) == Removed(sc, f2)
    ensures CleanFrom(fs, [a, b, c], 4) == CleanState(f2, [CleanProgress(1, 4), CleanProgress(2, 4)], 2, 2, sa + sc, false)
  {
    CleanLoopStart(fs, a, b, f1, sa);
    CleanTurn3(fs, a, b, c, f1, f2, sa, sc);
  }

  /** All four turns. */
  lemma CleanLoop4(fs: FileSystem, a: Path, b: Path, c: Path, d: Path, f1: FileSystem, f2: FileSystem, f3: FileSystem,
                   sa: nat, sc: nat, sd: nat)
    requires CleanItem(fs, a) == Removed(sa, f1)
    requires CleanItem(f1, b) == Missing
    requires CleanItem(f1, c) == Removed(sc, f2)
    requires CleanItem(f2, d) == Removed(sd, f3)
    ensures CleanFrom(fs, [a, b, c, d], 4) == CleanState(
      f3, [CleanProgress(1, 4), CleanProgress(2, 4), CleanProgress(3, 4)], 3, 3, sa + sc + sd, false)
  {
    CleanLoop3(fs, a, b, c, f1, f2, sa, sc);
    CleanTurn4(fs, a, b, c, d, f2, f3, sa + sc, sd);
  }

  /** The run over four items to its end, given what each item comes to. */
  lemma CleanLoop(fs: FileSystem, a: Path, b: Path, c: Path, d: Path, f1: FileSystem, f2: FileSystem, f3: FileSystem,
                  sa: nat, sc: nat, sd: nat)
    requires CleanItem(fs, a) == Removed(sa, f1)
    requires CleanItem(f1, b) == Missing
    requires CleanItem(f1, c) == Removed(sc, f2)
    requires CleanItem(f2, d) == Removed(sd, f3)
    ensures CleanRun(fs, [a, b, c, d], 5) == RunResult(
      [CleanProgress(1, 4), CleanProgress(2, 4), CleanProgress(3, 4), CleanDone(sa + sc + sd, 3, 4)],
      f3, Completed)
  {
    CleanLoop4(fs, a, b, c, d, f1, f2, f3, sa, sc, sd);
    CleanRunCompleted(fs, [a, b, c, d],
      CleanState(f3, [CleanProgress(1, 4), CleanProgress(2, 4), CleanProgress(3, 4)], 3, 3, sa + sc + sd, false));
  }

  lemma CleanCache()
    ensures CleanItem(Scenario, CacheDir) == Removed(20, AfterCache(Scenario))
  {
    CacheSize();
  }

  lemma CleanOldTmp()
    ensures CleanItem(AfterCache(Scenario), OldTmp) == Missing
  {
    assert Takes(CacheDir, true, OldTmp) by { assert OldTmp[..3] == CacheDir; }
  }

  lemma CleanALog()
    ensures CleanItem(AfterCache(Scenario), ALog) == Removed(10, AfterALog(Scenario))
  {
    assert !Takes(CacheDir, true, ALog) by { assert ALog[..3] == ALog; }
    UnlinkedFile(AfterCache(Scenario), ALog);
  }

  lemma CleanNotesTmp()
    ensures CleanItem(AfterALog(Scenario), NotesTmp) == Removed(5, AfterNotes(Scenario))
  {
    assert !Takes(CacheDir, true, NotesTmp) by { assert NotesTmp[..3] == NotesTmp; }
    assert !Takes(ALog, false, NotesTmp);
    UnlinkedFile(AfterALog(Scenario), NotesTmp);
  }

  /** Cleaning reports three steps out of four, since `old.tmp` went with
      its folder and a missing item is passed over without a report; the
      summary counts 35 bytes and 3 successes out of 4. */
  lemma ScenarioClean()
    ensures CleanRun(Scenario, Items, 5) == RunResult(
      [CleanProgress(1, 4), CleanProgress(2, 4), CleanProgress(3, 4), CleanDone(35, 3, 4)],
      AfterNotes(Scenario), Completed)
  {
    CleanCache();
    CleanOldTmp();
    CleanALog();
    CleanNotesTmp();
    CleanLoop(Scenario, CacheDir, OldTmp, ALog, NotesTmp, AfterCache(Scenario), AfterALog(Scenario), AfterNotes(Scenario), 20, 10, 5);
  }

  /** The paths of the scenario. */
  lemma ScenarioKeys()
    ensures forall q :: q in Scenario.nodes <==> q in {Root, ALog, NotesTmp, MainC, CacheDir, OldTmp}
  {
  }

  /** What the three removals leave of a filesystem. */
  lemma AfterNotesKeys(fs: FileSystem)
    ensures forall q :: q in AfterNotes(fs).nodes <==> q in fs.nodes && !IsAncestor(CacheDir, q) && q != ALog && q != NotesTmp
  {
  }

  /** Of the scenario's paths, the three removals leave the root and
      `main.c`. */
  lemma LeftoverOf(fs: FileSystem)
    requires forall q :: q in fs.nodes <==> q in {Root, ALog, NotesTmp, MainC, CacheDir, OldTmp}
    ensures forall q :: q in AfterNotes(fs).nodes <==> q == Root || q == MainC
  {
    AfterNotesKeys(fs);
    assert !IsAncestor(CacheDir, Root);
    assert !IsAncestor(CacheDir, MainC) by { assert MainC[..3] == MainC; }
    assert IsAncestor(CacheDir, OldTmp) by { assert OldTmp[..3] == CacheDir; }
  }

  /** Only the root and `main.c` are left. */
  lemma ScenarioLeftover()
    ensures forall q :: q in AfterNotes(Scenario).nodes <==> q == Root || q == MainC
  {
    ScenarioKeys();
    LeftoverOf(Scenario);
  }

  /** With the flag set before the second item, only the folder goes and
      no summary follows. */
  lemma ScenarioCleanAborted()
    ensures CleanRun(Scenario, Items, 1) == RunResult([CleanProgress(1, 4)], AfterCache(Scenario), Aborted)
  {
    CleanCache();
    CleanOldTmp();
    CleanLoopAborted(Scenario, CacheDir, OldTmp, ALog, NotesTmp, AfterCache(Scenario), 20);
  }

  // ---------------------------------------------------------------------
  // Failures: a file that cannot be unlinked, an entry inside a folder
  // that cannot be stat-ed, and an item that cannot be stat-ed.

  const Denied: string := "[Errno 13] Permission denied"

  /** The scenario with `a.log` in a place where nothing may be removed. */
  const Locked: FileSystem := Scenario.(unlinkFails := map[ALog := Denied])

  /** A list of one item that fails inside the `try`: the error, one
      progress message and the summary, and nothing removed. */
  lemma CleanSingleFailed(fs: FileSystem, p: Path, message: string)
    requires CleanItem(fs, p) == Failed(message)
    ensures CleanRun(fs, [p], 2) == RunResult([CleanError(p, message), CleanProgress(1, 1), CleanDone(0, 0, 1)], fs, Completed)
  {
    var items := [p];
    assert items[..Reached(items, 2)] == items;
    var st0 := CleanFrom(fs, items[..0], 1);
    assert st0 == CleanState(fs, [], 0, 0, 0, false);
    assert CleanFrom(fs, items, 1) == CleanStep(st0, p, 1);
  }

  /** A file that can be stat-ed but not removed is reported by the scan,
      and cleaning it puts an error for it. */
  lemma LockedFileReportedThenFails()
    ensures Examine(Locked, JunkFiles, {}, ALog) == Found(FileItem, 10, 1)
    ensures CleanRun(Locked, [ALog], 2) ==
      RunResult([CleanError(ALog, Denied), CleanProgress(1, 1), CleanDone(0, 0, 1)], Locked, Completed)
  {
    ScenarioNodes();
    ALogNameIsJunk();
    ExamineFile(Locked, JunkFiles, ALog, 10, 1);
    assert CleanItem(Locked, ALog) == Failed(Denied);
    CleanSingleFailed(Locked, ALog, Denied);
  }

  const Sub: Path := ["data", "scan", "Cache", "sub"]

  /** A folder `Cache` whose one entry is a directory that cannot be
      stat-ed. */
  const Hidden: FileSystem := FileSystem(
    map[Root := Dir(0), CacheDir := Dir(4), Sub := Dir(6)],
    [Root, CacheDir, Sub],
    map[Sub := Denied], map[])

  /** What the second scenario holds. */
  lemma HiddenNodes()
    ensures CacheDir in Hidden.nodes && Hidden.nodes[CacheDir] == Dir(4) && CacheDir !in Hidden.statFails
    ensures Sub in Hidden.nodes && Sub in Hidden.statFails && Hidden.statFails[Sub] == Denied
  {
    assert CacheDir != Sub;
  }

  lemma HiddenSize()
    ensures DirSize(Hidden, CacheDir) == StatError(Denied)
  {
    HiddenNodes();
    var s := Hidden.order;
    assert IsStrictAncestor(CacheDir, Sub) by { assert Sub[..3] == CacheDir; }
    assert s[1..] == [CacheDir, Sub] && s[2..] == [Sub] && s[2..][1..] == [];
    assert SizeOver(Hidden, CacheDir, s[2..]) == StatError(Denied);
    assert !IsStrictAncestor(CacheDir, CacheDir) && !IsStrictAncestor(CacheDir, Root);
    assert SizeOver(Hidden, CacheDir, s[1..]) == StatError(Denied);
  }

  /** A matching folder that can be stat-ed but whose size cannot be
      computed: the scan drops it, and cleaning it puts the error. */
  lemma UnmeasurableFolder(fs: FileSystem, pats: PatternSet, p: Path, mtime: int, message: string)
    requires p in fs.nodes && fs.nodes[p] == Dir(mtime) && !StatFails(fs, p)
    requires IsJunkFolder(pats, Name(p)) && DirSize(fs, p) == StatError(message)
    ensures Examine(fs, pats, {}, p) == Raised
    ensures CleanItem(fs, p) == Failed(message)
  {
    assert !HasClaimedAncestor(p, {});
  }

  /** The scan drops the folder, though it holds no file at all; cleaning
      it puts an error and leaves it in place. */
  lemma HiddenEntryFailsFolder()
    ensures Examine(Hidden, JunkFiles, {}, CacheDir) == Raised
    ensures CleanRun(Hidden, [CacheDir], 2) ==
      RunResult([CleanError(CacheDir, Denied), CleanProgress(1, 1), CleanDone(0, 0, 1)], Hidden, Completed)
  {
    HiddenNodes();
    HiddenSize();
    CacheNameIsJunk();
    UnmeasurableFolder(Hidden, JunkFiles, CacheDir, 4, Denied);
    CleanSingleFailed(Hidden, CacheDir, Denied);
  }

  /** A first item that cannot be stat-ed ends a clean of two items at
      once, with nothing put and nothing removed. */
  lemma FirstItemEscapes(fs: FileSystem, a: Path, b: Path)
    requires StatFails(fs, a)
    ensures CleanRun(fs, [a, b], 3) == RunResult([], fs, Escaped)
  {
    var items := [a, b];
    assert items[..Reached(items, 3)] == items && items[..1] == [a] && items[..1][..0] == [];
    var st0 := CleanFrom(fs, items[..1][..0], 2);
    assert st0 == CleanState(fs, [], 0, 0, 0, false);
    assert CleanFrom(fs, items[..1], 2) == CleanStep(st0, a, 2) == st0.(escaped := true);
    assert CleanFrom(fs, items, 2) == CleanStep(CleanFrom(fs, items[..1], 2), b, 2);
  }

  /** An item that cannot be stat-ed ends the clean: `exists()` raises
      outside the `try`, and the folder after it is never reached. */
  lemma HiddenItemEscapes()
    ensures CleanRun(Hidden, [Sub, CacheDir], 3) == RunResult([], Hidden, Escaped)
  {
    HiddenNodes();
    FirstItemEscapes(Hidden, Sub, CacheDir);
  }
}
