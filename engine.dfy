/** `Core.action`: clear the abort flag and run one worker. The worker's
    thread is run here to its end, in sequence; the abort flag, set by the
    caller's thread at some moment, is the check `abortFrom` at which the
    worker first sees it, counted from that action's start. */
module Engine {
  import opened Paths
  import opened Classifier
  import opened FileTree
  import opened ScanRoots
  import opened Events
  import opened Scanner
  import opened Cleaner

  /** The arguments of `Core.action`: `"scan"` with a path, or `"clean"`
      with the items and the `delay` flag. */
  datatype Request = ScanRequest(scanPath: Path) | CleanRequest(items: seq<Path>, delay: bool)

  /** What the worker started for `request` leaves behind: the scanner
      with the `JUNK_FILES` tables, which removes nothing, or the cleaner. */
  function Dispatch(request: Request, platform: Platform, fs: FileSystem, abortFrom: nat): (r: RunResult)
    ensures forall q :: q in r.after.nodes ==> q in fs.nodes && r.after.nodes[q] == fs.nodes[q]
    ensures request.CleanRequest? ==>
      forall q :: q in fs.nodes && (forall i :: 0 <= i < |request.items| && i < abortFrom ==> !IsAncestor(request.items[i], q)) ==>
        q in r.after.nodes
    ensures request.ScanRequest? ==> r.after == fs && (r.status == Completed || r.status == Aborted)
    ensures r.status == DivisionByZero <==> request.CleanRequest? && request.items == []
  {
    match request
    case ScanRequest(scanPath) =>
      var w := Walk(fs, scanPath, platform);
      RunResult(ScanRun(fs, JunkFiles, w, abortFrom), fs, ScanStatus(w, abortFrom))
    case CleanRequest(items, _) =>
      var done := items[..Reached(items, abortFrom)];
      CleanFrame(fs, done, |items|);
      assert forall i :: 0 <= i < |done| ==> done[i] == items[i];
      CleanRun(fs, items, abortFrom)
  }

  /** The engine: the message queue the front ends read. */
  class Core {
    var queue: seq<Event>

    constructor()
      ensures queue == []
    {
      queue := [];
    }

    /** `Core.action(action_type, path_or_items, delay)` followed by the
        worker's run: its messages are added to the queue after the ones
        already there. */
    method Action(request: Request, platform: Platform, fs: FileSystem, abortFrom: nat) returns (after: FileSystem, status: Status)
      modifies this
      ensures queue == old(queue) + Dispatch(request, platform, fs, abortFrom).events
      ensures after == Dispatch(request, platform, fs, abortFrom).after
      ensures status == Dispatch(request, platform, fs, abortFrom).status
    {
      match request {
        case ScanRequest(scanPath) =>
          var events;
          events, status := Scan(fs, JunkFiles, scanPath, platform, abortFrom);
          after := fs;
          queue := queue + events;
        case CleanRequest(items, delay) =>
          var events;
          events, after, status := Clean(fs, items, abortFrom);
          queue := queue + events;
      }
    }
  }

  /** The `delay` argument changes nothing: `_cleaner` overwrites it with
      `0.5 / len(items)` before reading it, so pacing can never be turned
      off. The model of `_cleaner` takes no `delay` at all, so this holds
      by the definition of `Dispatch`. */
  lemma DelayIsIgnored(items: seq<Path>, platform: Platform, fs: FileSystem, abortFrom: nat)
    ensures Dispatch(CleanRequest(items, true), platform, fs, abortFrom) == Dispatch(CleanRequest(items, false), platform, fs, abortFrom)
  {
  }
}
