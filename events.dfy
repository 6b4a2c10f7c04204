/** The messages the engine's workers put on the queue, in the order they
    put them there. Sizes are raw byte counts: turning them into text is
    left to `SizeFormat`. */
module Events {
  import opened Paths
  import opened FileTree

  /** The second field of a `found_item` message. */
  datatype ItemKind = FileItem | FolderItem

  datatype Event =
    | FoundItem(path: Path, kind: ItemKind, size: nat, mtime: int)   // ("found_item", (path, kind, size, modified))
    | ScanDone(totalSize: nat, fileCount: nat)                       // ("scan_done", (total_size, file_count))
    | CleanError(path: Path, message: string)                        // ("clean_error", (path, str(e)))
    | CleanProgress(cleaned: nat, total: nat)                        // ("clean_progress", (cleaned, total))
    | CleanDone(cleanedSize: nat, successCount: nat, total: nat)     // ("clean_done", (cleaned_size, success_count, total))

  /** How a worker ended: it ran to its final check with the flag unset, it
      saw the abort flag, or (the cleaner only) it raised before its loop
      or an `OSError` escaped its loop. */
  datatype Status = Completed | Aborted | DivisionByZero | Escaped

  /** What a worker leaves: the messages it put, the filesystem, and how
      it ended. */
  datatype RunResult = RunResult(events: seq<Event>, after: FileSystem, status: Status)

  /** The sum of the sizes carried by the `found_item` messages of `ev`. */
  function SumSizes(ev: seq<Event>): nat
  {
    if ev == [] then 0
    else SumSizes(ev[..|ev| - 1]) + (if ev[|ev| - 1].FoundItem? then ev[|ev| - 1].size else 0)
  }

  /** The paths of the folders reported in `ev`. */
  function FolderPaths(ev: seq<Event>): set<Path>
  {
    set k | 0 <= k < |ev| && ev[k].FoundItem? && ev[k].kind == FolderItem :: ev[k].path
  }

  /** The `clean_progress` messages of `ev`, in order. */
  function ProgressOf(ev: seq<Event>): seq<Event>
  {
    if ev == [] then []
    else ProgressOf(ev[..|ev| - 1]) + (if ev[|ev| - 1].CleanProgress? then [ev[|ev| - 1]] else [])
  }

  /** The number of `clean_error` messages in `ev`. */
  function ErrorCount(ev: seq<Event>): nat
  {
    if ev == [] then 0
    else ErrorCount(ev[..|ev| - 1]) + (if ev[|ev| - 1].CleanError? then 1 else 0)
  }

  /** `a` is an initial part of `b`. */
  predicate IsPrefix(a: seq<Event>, b: seq<Event>)
  {
    |a| <= |b| && b[..|a|] == a
  }

  lemma PrefixTrans(a: seq<Event>, b: seq<Event>, c: seq<Event>)
    requires IsPrefix(a, b) && IsPrefix(b, c)
    ensures IsPrefix(a, c)
  {
    assert c[..|a|] == c[..|b|][..|a|];
  }
}
