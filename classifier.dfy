/** The junk classifier: the pattern tables of cleaner.py and the tests the
    scanner applies to an entry's name. */
module Classifier {
  import opened Text

  /** The three compiled regular expressions of the tables, each replaced by
      the string test that `re.search` performs for it. */
  datatype RegexKind =
    | ZcompdumpDash     // re.compile(r"\.zcompdump-.*")
    | CacheAnyCase      // re.compile(r"Cache", re.IGNORECASE)
    | SavedStateSuffix  // re.compile(r".*\.savedState$")

  /** A table entry: a plain string or a compiled regular expression. */
  datatype Pattern = Literal(text: string) | Regex(kind: RegexKind)

  /** The three tables of `JUNK_FILES`. */
  datatype PatternSet = PatternSet(names: seq<Pattern>, extensions: seq<string>, folders: seq<Pattern>)

  /** `pattern.search(name)` succeeds. `\.zcompdump-.*` finds `.zcompdump-`
      anywhere; `Cache` with IGNORECASE finds `cache` in any case; and since
      `$` also matches just before a final newline, `.*\.savedState$` finds
      a name ending with `.savedState`, with or without one trailing `\n`. */
  predicate Search(kind: RegexKind, name: string)
  {
    match kind
    case ZcompdumpDash => Contains(name, ".zcompdump-")
    case CacheAnyCase => Contains(Lower(name), "cache")
    case SavedStateSuffix => EndsWith(name, ".savedState") || EndsWith(name, ".savedState\n")
  }

  /** One table entry against a name: a literal must equal the whole name up
      to case, a regular expression need only be found in it. */
  predicate PatternMatches(pattern: Pattern, name: string)
  {
    match pattern
    case Literal(text) => Lower(text) == Lower(name)
    case Regex(kind) => Search(kind, name)
  }

  /** `Core.matches_patterns`: the first entry that matches returns true, and
      false is returned only after every entry failed. */
  function MatchesPatterns(name: string, patterns: seq<Pattern>): (r: bool)
    ensures r <==> exists p :: p in patterns && PatternMatches(p, name)
  {
    if patterns == [] then false
    else if PatternMatches(patterns[0], name) then true
    else MatchesPatterns(name, patterns[1..])
  }

  /** `PurePath.suffix`: from the last dot on, unless that dot is the first
      or the last character of the name. */
  function Suffix(name: string): (r: string)
    ensures r != "" <==>
      exists i :: 0 < i < |name| - 1 && name[i] == '.' && forall j :: i < j < |name| ==> name[j] != '.'
    ensures r != "" ==>
      2 <= |r| < |name| && r == name[|name| - |r|..] && r[0] == '.' && forall j :: 0 < j < |r| ==> r[j] != '.'
  {
    var i := LastIndexOf(name, '.');
    if 0 < i < |name| - 1 then
      assert forall j :: 0 < j < |name| - i ==> name[i..][j] == name[i + j];
      name[i..]
    else
      assert forall k :: 0 < k < |name| - 1 && name[k] == '.' ==> k <= i;
      ""
  }

  /** The suffix starts at the last dot when that dot is neither first nor
      last. */
  lemma SuffixAt(name: string, i: nat)
    requires 0 < i < |name| - 1 && name[i] == '.'
    requires forall j :: i < j < |name| ==> name[j] != '.'
    ensures Suffix(name) == name[i..]
  {
  }

  /** Helper for the examples: a plain string of another length does not
      match, since the ASCII folding keeps lengths. */
  lemma LengthRulesOut(pats: seq<Pattern>, name: string)
    requires forall p :: p in pats && p.Literal? ==> |p.text| != |name|
    ensures forall p :: p in pats && p.Literal? ==> !PatternMatches(p, name)
  {
    forall p | p in pats && p.Literal? ensures !PatternMatches(p, name) {
      assert |Lower(p.text)| != |Lower(name)|;
    }
  }

  /** `[ext.lower() for ext in extensions]`. */
  function LowerAll(exts: seq<string>): (r: seq<string>)
    ensures |r| == |exts| && forall j :: 0 <= j < |exts| ==> r[j] == Lower(exts[j])
  {
    seq(|exts|, i requires 0 <= i < |exts| => Lower(exts[i]))
  }

  /** The rule for a regular file: its name matches a `names` entry, or its
      lower-cased suffix is one of the lower-cased extensions. */
  function IsJunkFile(pats: PatternSet, name: string): (r: bool)
    ensures r <==>
      || (exists p :: p in pats.names && PatternMatches(p, name))
      || (exists j :: 0 <= j < |pats.extensions| && Lower(Suffix(name)) == Lower(pats.extensions[j]))
  {
    var lowered := LowerAll(pats.extensions);
    assert Lower(Suffix(name)) in lowered <==> exists j :: 0 <= j < |lowered| && lowered[j] == Lower(Suffix(name));
    MatchesPatterns(name, pats.names) || Lower(Suffix(name)) in lowered
  }

  /** The rule for a directory: its name matches a `folders` entry. */
  function IsJunkFolder(pats: PatternSet, name: string): (r: bool)
    ensures r <==> exists p :: p in pats.folders && PatternMatches(p, name)
  {
    MatchesPatterns(name, pats.folders)
  }

  /** `JUNK_FILES` as the source defines it. */
  const JunkFiles: PatternSet := PatternSet(
    names := [
      Literal(".DS_Store"), Literal(".viminfo"), Literal(".localized"), Literal(".sharkgi"),
      Literal(".lesshst"), Literal(".wget-hsts"), Literal(".mailcap"), Literal(".mime.types"),
      Literal(".python_history"), Literal(".bash_history"), Literal(".zsh_history"),
      Literal("fish_history"), Literal("Logs.db"), Literal("history.db"), Literal("Thumbs.db"),
      Literal("desktop.ini"), Regex(ZcompdumpDash)
    ],
    extensions := [".log", ".tmp", ".temp", ".cache", ".swp", ".dmp", ".dump", ".crash", ".$$$", ".~"],
    folders := [
      Literal("log"), Literal("logs"), Literal("tmp"), Literal("temp"), Literal(".pyinspect"),
      Literal(".idlerc"), Literal(".thumbnails"), Literal(".fseventsd"), Literal(".Spotlight-V100"),
      Literal(".zsh_sessions"), Literal(".Trash"), Literal("CallHistoryDB"),
      Literal("CallHistoryTransactions"), Literal("BtLog"), Literal("Crash Logs"),
      Literal("Plugin Crash Logs"), Literal("com.tencent.bugly"), Literal("CrashesLogBuffer"),
      Literal("CrashReporter"), Literal("Photo Booth Library"), Literal("Videos Library.tvlibrary"),
      Literal("Media.localized"), Literal("Automatically Add to Music.localized"),
      Literal("$RECYCLE.BIN"), Literal("System Volume Information"), Literal("Windows.old"),
      Literal("PerfLogs"), Literal("xl_sdks_kvstorage"), Literal("网易云音乐"),
      Regex(CacheAnyCase), Regex(SavedStateSuffix)
    ]
  )

  /** The suffix of a lower-cased name is the lower-cased suffix. */
  lemma LowerSuffix(name: string)
    ensures Lower(Suffix(name)) == Suffix(Lower(name))
  {
    LastDotIgnoresCase(name);
    var i := LastIndexOf(name, '.');
    if 0 < i < |name| - 1 {
      LowerDrop(name, i);
    }
  }

  /** With a `names` table made of plain strings only, the file rule cannot
      tell apart two names that differ only in case. */
  lemma FileRuleIgnoresCase(pats: PatternSet, a: string, b: string)
    requires forall p :: p in pats.names ==> p.Literal?
    requires Lower(a) == Lower(b)
    ensures IsJunkFile(pats, a) == IsJunkFile(pats, b)
  {
    LowerSuffix(a);
    LowerSuffix(b);
    assert forall p :: p in pats.names ==> (PatternMatches(p, a) <==> PatternMatches(p, b));
  }
}
