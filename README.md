# junk-cleaner: the scan and clean engine, in Dafny

This project models `Core`, the engine behind both front ends of
junk-cleaner (`cleaner.py`). The engine has three parts:

- a classifier. It matches a file or folder name against the `JUNK_FILES`
  tables: plain names compared without case, file extensions, and three
  compiled regular expressions.
- a scanner (`Core._scanner`). It builds the set of scan roots: the
  user's path, plus every system log or temp directory of the platform
  that does not overlap a root by the string-prefix test. It then walks
  every entry below each root. Symbolic links and entries inside an
  already reported folder are skipped. Every match is reported as a
  `found_item` message, followed by `scan_done` with the total size and
  count.
- a cleaner (`Core._cleaner`). It deletes the confirmed items in order:
  a file with `unlink`, anything else with `rmtree` after measuring it
  with `get_dir_size`. It reports `clean_error` and `clean_progress` per
  item, and `clean_done` at the end.

`Core.action` clears the abort flag and runs one of the two workers.

How the model is built:

- Paths are sequences of components.
- The filesystem is a value (`FileTree.FileSystem`). It holds a map from
  paths to nodes and the order in which a recursive listing yields them.
  It also holds two failure maps, each with the error text. `statFails`
  lists the paths that cannot be stat-ed. `unlinkFails` lists the files
  that can be stat-ed but not unlinked, such as a file in a read-only
  directory.
- `pathlib` behaves as in Python 3.12, which the `case_sensitive` argument
  of `rglob` (cleaner.py:218) requires. There, `exists()`, `is_dir()`,
  `is_file()` and `is_symlink()` return false for a missing path but
  re-raise any other `OSError` from `stat()`.
- The abort flag is an oracle: `abortFrom` is the first check at which
  the worker sees the flag set. Check `i` comes before entry (or item)
  `i`, and check `n` comes after the loop.
- The messages a worker puts on the queue are a sequence of `Events.Event`.
- Each worker is an imperative method (`Scanner.Scan`, `Cleaner.Clean`)
  with the source's loop. The method is proved equal to a specification
  function (`ScanRun`, `CleanRun`), which is defined turn by turn.
- The source's promises are then proved as lemmas about those
  functions. Examples: the counters agree with the messages; nothing is
  reported twice or inside a reported folder; every eligible entry is
  covered; an abort only cuts the messages short and leaves the later
  items alone; the bytes freed are exactly those measured.
- `Engine.Core` holds the queue as a field that `Action` extends.
- `Examples` works out what the model gives on a small directory. It
  holds `a.log`, `notes.tmp`, `main.c` and a folder `Cache` that contains
  `old.tmp`.

Where the code does something other than one might expect, the model
follows the code:

- A cleaner item that no longer exists puts no progress message and is not
  counted, since everything sits inside `if path.exists()` (cleaner.py:296).
  The comment on `cleaned` (cleaner.py:286) has it count every item
  handled, with success or with failure; a missing item is neither.
- Not every error becomes a `clean_error`. The `exists()` test at
  cleaner.py:296 stands outside the `try`. So an item that cannot be
  stat-ed raises out of `_cleaner`: nothing more is put, not even
  `clean_done`, and the later items stay.
- `stat()` needs no read permission, so an unreadable file inside a folder
  is counted at its full size. What makes `get_dir_size` raise is an entry
  inside the folder that cannot be stat-ed, whatever its kind: the
  `f.is_file()` test (cleaner.py:356) stats directories too. The scanner
  then drops the whole folder entry, and the cleaner reports a
  `clean_error` for it.
- A file that can be stat-ed but not unlinked is still reported by the
  scanner, which only stats it. The cleaner then reports a `clean_error`
  for it.
- Pacing cannot be turned off. The `delay` argument is overwritten with
  `0.5 / len(items)` before it is read (cleaner.py:289).
- An empty item list raises `ZeroDivisionError` at that line, before any
  message is put.
- The `\.zcompdump-.*` expression is compiled without `IGNORECASE`
  (cleaner.py:91). So `.ZCOMPDUMP-mac` is not junk, although the plain
  names are compared without case.
- The root-overlap test compares rendered strings (cleaner.py:205-206). So
  on macOS an existing `/var/log` keeps its sibling `/var/logs` from ever
  becoming a root.

## Model

| member | source | states |
|---|---|---|
| Classifier.MatchesPatterns | cleaner.py:322-341 | true exactly when some entry matches: a plain string equal to the name up to case, or an expression found in the name |
| Classifier.Suffix | cleaner.py:255 | the suffix is empty exactly when the name has no dot, or its last dot is its first or last character; otherwise it is the tail of the name from its last dot, at least two characters long and shorter than the name |
| Classifier.IsJunkFile | cleaner.py:253-257 | a file is junk exactly when a `names` entry matches its name or its lower-cased suffix equals some lower-cased extension |
| Classifier.LowerSuffix | cleaner.py:255 | the suffix of the lower-cased name is the lower-cased suffix |
| Classifier.IsJunkFolder | cleaner.py:233-234 | a directory is junk exactly when some `folders` entry matches its name |
| Classifier.FileRuleIgnoresCase | cleaner.py:253-257 | with plain-string names only, two names that differ in case get the same verdict |
| Paths.AncestorIsRelated | cleaner.py:205-206 | nested paths always pass the string-prefix overlap test |
| Paths.RelatedIsNotAncestry | cleaner.py:205-206 | the overlap test also joins the siblings `/var/log` and `/var/logs` |
| FileTree.DirSize | cleaner.py:353-357 | the sum of the sizes of the regular files strictly inside the folder, or an error exactly when some entry inside it, of any kind, cannot be stat-ed |
| FileTree.DirSizeBoundsFile | cleaner.py:353-357 | a folder's size is at least that of any regular file inside it |
| FileTree.DirSizeNested | cleaner.py:353-357 | a folder inside a measurable folder is measurable and no larger |
| FileTree.Below | cleaner.py:218 | `rglob("*")` yields exactly the listed paths strictly inside the base |
| FileTree.Remove | cleaner.py:298-305 | `unlink` takes away the path alone and `rmtree` the whole subtree; nothing else changes |
| FileTree.RemoveKeepsValid | cleaner.py:298-305 | removal keeps a well-formed filesystem well formed |
| FileTree.UnlinkFrees | cleaner.py:298-300 | unlinking a regular file frees exactly its size |
| FileTree.RemoveTreeFrees | cleaner.py:303-305 | `rmtree` frees exactly the bytes `get_dir_size` measured |
| ScanRoots.BuildRoots | cleaner.py:200-209 | the method's loop builds exactly the root set |
| ScanRoots.AddTemps | cleaner.py:204-209 | the loop over the system directories only adds roots, at most one per directory, and keeps the roots already taken in front |
| ScanRoots.RootSet | cleaner.py:200-209 | `paths_to_scan` holds the scan path first and then only existing system directories, at most one per entry of the table |
| ScanRoots.RootSetFacts | cleaner.py:200-209 | the scan path comes first; every other root is an existing system directory that overlaps no earlier root; no two roots overlap; every existing system directory overlaps some root |
| ScanRoots.UnrelatedRootsAreDisjoint | cleaner.py:203-209 | roots the overlap test keeps apart are never nested |
| ScanRoots.OverlapNeverAdded | cleaner.py:203-209 | a directory overlapping a root already taken is never added later |
| ScanRoots.VarLogShadowsVarLogs | cleaner.py:203-209 | once `/var/log` is taken, `/var/logs` is never a root |
| ScanRoots.DarwinShadowsVarLogs | cleaner.py:141-148 | on macOS an existing `/var/log` keeps `/var/logs` out of the roots |
| ScanRoots.WalkOf | cleaner.py:215-219 | the walk yields exactly the listed paths strictly inside some root |
| ScanRoots.WalkIsOrderly | cleaner.py:215-219 | on a well-formed filesystem the walk lists each path once, every directory before its contents |
| Scanner.Examine | cleaner.py:225-273 | an entry is reported exactly when it matches, nothing it stats raises, and no claimed folder encloses it; it is dropped by an error exactly when it cannot be stat-ed at all, or when it is an unclaimed match whose folder size cannot be computed; a report gives the entry's own kind, size and time |
| Scanner.ScanOne | cleaner.py:225-273 | one turn of the loop performs one step of the specification |
| Scanner.ScanWalk | cleaner.py:215-276 | the loop with its abort checks puts exactly the messages of the specification and ends as it does |
| Scanner.Scan | cleaner.py:190-276 | `_scanner` puts exactly `ScanRun` over the walk of its own roots |
| Scanner.ScanStep | cleaner.py:225-268 | a turn adds at most one message, a `found_item` for the entry exactly when `Examine` finds it, and keeps the earlier messages |
| Scanner.ScanFrom | cleaner.py:215-268 | the loop puts at most one message per walked entry |
| Scanner.ScanRun | cleaner.py:215-276 | an aborted scan puts at most one message per entry it reached; a complete one ends with `scan_done` and puts at most one more message than there are entries |
| Scanner.ScanInvariant | cleaner.py:211-268 | `file_count` is the number of reports, `total_size` the sum of their sizes, `processed_paths` the set of reported folders; every report is for a walked entry |
| Scanner.ScanAbortPrefix | cleaner.py:221-223 | the messages of an earlier abort are a prefix of those of a later abort or of the full run |
| Scanner.ScanSummary | cleaner.py:275-276 | `scan_done` comes exactly when the flag was never seen, last, with the count and the sum of the sizes of the reports before it |
| Scanner.ScanSound | cleaner.py:225-273 | every report is an eligible match carrying its own kind, size and time |
| Scanner.ScanComplete | cleaner.py:225-273 | every eligible walked entry is reported or lies inside a reported folder |
| Scanner.ScanNoNesting | cleaner.py:227-248 | over a parents-first walk no report lies inside a reported folder |
| Scanner.ScanDistinct | cleaner.py:215-268 | over a walk without repeats no path is reported twice |
| Scanner.ScanWellReported | cleaner.py:190-276 | on a well-formed filesystem the scanner's messages are well reported whenever the abort comes |
| Cleaner.CleanItem | cleaner.py:296-311 | an item that cannot be stat-ed raises outside the `try`; a missing item comes to nothing; a file fails exactly when its unlink raises, anything else exactly when its measurement raises; a removal takes away the file or the tree, measured at its file size or `get_dir_size` |
| Cleaner.CleanItemFrees | cleaner.py:298-308 | the bytes an item is measured at are the bytes its removal frees |
| Cleaner.CleanStep | cleaner.py:296-314 | a turn puts at most two messages and keeps the earlier ones |
| Cleaner.CleanFrom | cleaner.py:292-314 | the loop puts at most two messages per item |
| Cleaner.CleanRun | cleaner.py:285-319 | the division error comes exactly for an empty list; an aborted run puts at most two messages per item it reached; a complete run ends with `clean_done`; a run an error escaped puts at most two messages per item for all but one item |
| Cleaner.EscapedStays | cleaner.py:296 | once an error has escaped the loop, no later item changes anything |
| Cleaner.CleanOne | cleaner.py:296-314 | one turn of the loop performs one step of the specification |
| Cleaner.Clean | cleaner.py:278-319 | `_cleaner` puts exactly the messages of `CleanRun` and leaves its filesystem and status |
| Cleaner.CleanBookkeeping | cleaner.py:286-313 | progress messages count 1, 2, … up to `cleaned` out of `total`; errors number `cleaned - success_count`, each followed by a progress message |
| Cleaner.CleanAccountsBytes | cleaner.py:298-309 | `cleaned_size` plus the bytes left equals the bytes before |
| Cleaner.CleanFrame | cleaner.py:292-314 | nothing is created or changed, and only paths inside an item are removed |
| Cleaner.CleanSurvivorsFailed | cleaner.py:296-314 | in a run no error escaped, no item is left that cannot be stat-ed, and an item that still exists afterwards had an error reported for it |
| Cleaner.CleanEscapes | cleaner.py:296 | an error escapes only from an item that cannot be stat-ed, and it does escape once the run reaches such an item that no earlier item encloses |
| Cleaner.CleanAbortPrefix | cleaner.py:292-294 | the messages of an earlier abort are a prefix of those of a later abort or of the full run |
| Cleaner.CleanAbortSparesLater | cleaner.py:292-294 | after an abort, every path that no item before the abort check encloses is still there, unchanged |
| Cleaner.CleanSummary | cleaner.py:278-319 | an empty list ends in the division error with nothing removed; `clean_done` comes exactly when the flag was never seen and no error escaped, and then as the last message |
| Cleaner.CleanDoneTotals | cleaner.py:308-319 | the `clean_done` of a complete run carries the number of items, the successes (progress messages less errors), and exactly the bytes freed |
| Cleaner.MissingItemsAdvanceNothing | cleaner.py:296 | items that do not exist leave the state as it was, with no progress message |
| Cleaner.RecleanIsSilent | cleaner.py:292-319 | cleaning again after an error-free complete run puts only `clean_done(0, 0, total)` |
| SizeFormat.FormatUnit | cleaner.py:371-375 | the unit is the first one under which the value is below 1024, or `GB` after four divisions |
| Engine.Core.constructor | cleaner.py:160-167 | the queue starts empty |
| Engine.Core.Action | cleaner.py:169-188 | the worker's messages are appended to the queue; the filesystem and status are the worker's |
| Engine.DelayIsIgnored | cleaner.py:285-289 | the `delay` argument changes nothing; this holds by construction, since the model of `_cleaner` takes no `delay` |
| Engine.Dispatch | cleaner.py:169-188 | no worker creates or changes a path; a clean removes only paths inside the items before the abort check; a scan leaves the filesystem as it was and ends either complete or aborted; the division error comes exactly from a clean of an empty list |
| Examples.ZcompdumpIsJunk | cleaner.py:91 | `.zcompdump-mac` is junk |
| Examples.ZcompdumpIsCaseSensitive | cleaner.py:91 | `.ZCOMPDUMP-mac` is not junk |
| Examples.CacheIsJunkFolder | cleaner.py:135 | a folder named `Cache` is junk |
| Examples.MainCIsNotJunk | cleaner.py:253-257 | `main.c` is not junk |
| Examples.ScenarioScan | cleaner.py:190-276 | scanning the example reports `a.log`, `notes.tmp` and `Cache` (not `main.c`, nothing inside `Cache`), then `scan_done(35, 3)` |
| Examples.ScenarioClean | cleaner.py:278-319 | cleaning `Cache`, `old.tmp`, `a.log`, `notes.tmp` puts progress 1, 2, 3 of 4 and `clean_done(35, 3, 4)` |
| Examples.ScenarioLeftover | cleaner.py:298-305 | after that clean only the root and `main.c` remain |
| Examples.ScenarioCleanAborted | cleaner.py:292-294 | with the flag set before the second item only `Cache` goes, and no summary follows |
| Examples.LockedFileReportedThenFails | cleaner.py:250-314 | a junk file that can be stat-ed but not unlinked is reported by the scan, and cleaning it puts `clean_error`, progress and `clean_done(0, 0, 1)` |
| Examples.HiddenEntryFailsFolder | cleaner.py:353-357 | a `Cache` folder whose only entry is a directory that cannot be stat-ed is dropped by the scan, and cleaning it puts `clean_error` and leaves it |
| Examples.HiddenItemEscapes | cleaner.py:296 | a first item that cannot be stat-ed ends the clean with nothing put and the next item untouched |

## Left out

- The Tk window, the console front end, notifications, sorting and search of
  results, and `imac_color.py`: these lie outside the engine.
- Threads and `queue.Queue`: the worker runs to its end in sequence. The
  queue is a sequence to which its messages are appended.
- The abort flag: the moment another thread sets it is an input
  (`abortFrom`). The flag is never cleared during a run.
- `time.sleep`, `time.strftime`, `now_time` and the clock: the pacing only
  waits. Modification times are kept as raw numbers.
- Scanner.Examine: the text `format_size` makes of a size is not modelled;
  messages carry byte counts.
- SizeFormat.FormatUnit: states the unit and the number of divisions
  only. The one-decimal floating-point text is not modelled.
- Case folding is ASCII-only. `str.lower` on other letters is not modelled:
  they are their own lower case.
- Paths are POSIX only. How Windows renders drive paths (`C:\...`) is not
  modelled.
- Symbolic links lead nowhere in the model. So `exists()` is false for
  them and the cleaner passes them over as missing. Links to existing
  targets, and an `rmtree` handed a link, are not modelled. The main thing
  this leaves out is on macOS: `/var` is a link to `/private/var`. So
  `/var/log` and `/private/var/log` both pass the string test and both
  become roots. The same files are then walked and reported twice, and
  `total_size` counts them twice. A well-formed model filesystem has
  nothing below a link, so it cannot show this.
- Paths are absolute only. `--path` is a `Path` taken as typed, never
  resolved (cleaner.py:1140-1146). A relative path such as `.` run inside
  `/var/log` never passes the string test against `/var/log`, so that
  directory is walked twice. The model cannot express a relative path.
- Errors inside `shutil.rmtree(..., ignore_errors=True)` are not modelled.
  `rmtree` swallows them, and in the model a removal that passed
  `get_dir_size` takes the whole subtree, whatever `unlinkFails` holds.
  `unlinkFails` is read only by the `unlink` of a file item.
- ScanRoots.AddTemps: a system directory whose `exists()` test
  (cleaner.py:205) raises would end the scanner with that error. The model
  tests those directories with `Exists` alone and never raises there.
- Errors raised by the walk itself, from `rglob`, are not modelled; only
  `stat()` and `unlink()` fail.
- ScanRoots.RootSet: `paths_to_scan` is a Python `set`, so its iteration
  order is not fixed. The model walks the roots in the order they were
  added.
- FileTree.Below: the `case_sensitive=False` argument of `rglob`
  (cleaner.py:218) changes nothing for the pattern `*`, so it is not
  modelled.
