/** `Core._cleaner`: the items are deleted one by one in the given order,
    with the abort flag read before each item and once more at the end. */
module Cleaner {
  import opened Paths
  import opened FileTree
  import opened Events

  /** What handling one item comes to. */
  datatype ItemOutcome =
    | Escapes                                  // `path.exists()` raises, outside the `try`
    | Missing                                  // `path.exists()` is false: nothing happens
    | Removed(size: nat, after: FileSystem)    // the size measured, and the filesystem once it is gone
    | Failed(message: string)                  // an `OSError` inside the `try`, with this text

  /** One item: a regular file is stat-ed and unlinked, anything else is
      measured with `get_dir_size` and handed to `rmtree`. The `exists()`
      test stats the item before the `try` begins, so an item that cannot
      be stat-ed raises out of the loop. */
  function CleanItem(fs: FileSystem, p: Path): (r: ItemOutcome)
    ensures r.Escapes? <==> StatFails(fs, p)
    ensures r.Missing? <==> !StatFails(fs, p) && !Exists(fs, p)
    ensures r.Failed? <==>
      !StatFails(fs, p) && Exists(fs, p) && (if fs.nodes[p].File? then p in fs.unlinkFails else DirSize(fs, p).StatError?)
    ensures r.Removed? ==> r.after == Remove(fs, p, !fs.nodes[p].File?)
    ensures r.Removed? && fs.nodes[p].File? ==> r.size == fs.nodes[p].size
    ensures r.Removed? && !fs.nodes[p].File? ==> DirSize(fs, p) == Bytes(r.size)
  {
    if StatFails(fs, p) then Escapes
    else if !Exists(fs, p) then Missing
    else match fs.nodes[p]
      case File(size, _) =>
        if p in fs.unlinkFails then Failed(fs.unlinkFails[p]) else Removed(size, Remove(fs, p, false))
      case _ =>
        match DirSize(fs, p)
        case StatError(message) => Failed(message)
        case Bytes(total) => Removed(total, Remove(fs, p, true))
  }

  /** The bytes an item is measured at are exactly the bytes its removal
      frees, and removal keeps the filesystem well formed. */
  lemma CleanItemFrees(fs: FileSystem, p: Path)
    requires Valid(fs)
    ensures CleanItem(fs, p).Removed? ==>
      Valid(CleanItem(fs, p).after) && TotalBytes(CleanItem(fs, p).after) + CleanItem(fs, p).size == TotalBytes(fs)
  {
    if CleanItem(fs, p).Removed? {
      RemoveKeepsValid(fs, p, !fs.nodes[p].File?);
      if fs.nodes[p].File? {
        UnlinkFrees(fs, p);
      } else {
        RemoveTreeFrees(fs, p);
      }
    }
  }

  /** The cleaner's local state: the filesystem, the messages put so far,
      `cleaned`, `success_count` and `cleaned_size`, and whether an error
      has escaped the loop. */
  datatype CleanState = CleanState(fs: FileSystem, events: seq<Event>, cleaned: nat, successCount: nat, cleanedSize: nat,
                                   escaped: bool)

  /** One turn of the loop, after the abort check: it adds at most two
      messages and only ever takes paths away; once an error has escaped,
      no turn follows. */
  function CleanStep(st: CleanState, p: Path, total: nat): (r: CleanState)
    ensures |st.events| <= |r.events| <= |st.events| + 2
  {
    if st.escaped then st
    else match CleanItem(st.fs, p)
    case Escapes => st.(escaped := true)
    case Missing => st
    case Removed(size, after) =>
      CleanState(after, st.events + [CleanProgress(st.cleaned + 1, total)],
                 st.cleaned + 1, st.successCount + 1, st.cleanedSize + size, false)
    case Failed(message) =>
      CleanState(st.fs, st.events + [CleanError(p, message), CleanProgress(st.cleaned + 1, total)],
                 st.cleaned + 1, st.successCount, st.cleanedSize, false)
  }

  /** The state after the loop has handled every item of `items`, out of
      `total`. */
  function CleanFrom(fs: FileSystem, items: seq<Path>, total: nat): (r: CleanState)
    ensures |r.events| <= 2 * |items|
    decreases |items|
  {
    if items == [] then CleanState(fs, [], 0, 0, 0, false)
    else CleanStep(CleanFrom(fs, items[..|items| - 1], total), items[|items| - 1], total)
  }

  /** The whole run over `items` with the abort flag first seen at check
      `abortFrom` (check `i < |items|` before item `i`, check `|items|`
      after the loop). An empty list raises `ZeroDivisionError` when the
      pacing delay is computed, before anything is put; an error that
      escapes the loop ends the run where it stands. */
  function CleanRun(fs: FileSystem, items: seq<Path>, abortFrom: nat): (r: RunResult)
    ensures r.status == DivisionByZero <==> items == []
    ensures r.status == Aborted ==> abortFrom < |items| + 1 && |r.events| <= 2 * abortFrom
    ensures r.status == Completed ==> abortFrom > |items| && 0 < |r.events| <= 2 * |items| + 1 && r.events[|r.events| - 1].CleanDone?
    ensures r.status == Escaped ==> |r.events| <= 2 * |items| - 2
  {
    if items == [] then RunResult([], fs, DivisionByZero)
    else
      var st := CleanFrom(fs, items[..Reached(items, abortFrom)], |items|);
      if st.escaped then RunResult(st.events, st.fs, Escaped)
      else if abortFrom <= |items| then RunResult(st.events, st.fs, Aborted)
      else RunResult(st.events + [CleanDone(st.cleanedSize, st.successCount, |items|)], st.fs, Completed)
  }

  /** How many items come before the check that first sees the flag. */
  function Reached(items: seq<Path>, abortFrom: nat): (n: nat)
    ensures n <= |items| && n <= abortFrom
    ensures n == abortFrom || n == |items|
  {
    if abortFrom <= |items| then abortFrom else |items|
  }

  /** Once an error has escaped, later items change nothing. */
  lemma {:induction false} EscapedStays(fs: FileSystem, items: seq<Path>, total: nat, i: nat, j: nat)
    requires i <= j <= |items| && CleanFrom(fs, items[..i], total).escaped
    ensures CleanFrom(fs, items[..j], total).escaped
    ensures CleanFrom(fs, items[..j], total).events == CleanFrom(fs, items[..i], total).events
    ensures CleanFrom(fs, items[..j], total).fs == CleanFrom(fs, items[..i], total).fs
  {
    var events, after := CleanFrom(fs, items[..i], total).events, CleanFrom(fs, items[..i], total).fs;
    var k := i;
    while k < j
      invariant i <= k <= j
      invariant CleanFrom(fs, items[..k], total).escaped
      invariant CleanFrom(fs, items[..k], total).events == events && CleanFrom(fs, items[..k], total).fs == after
    {
      CleanFromSnoc(fs, items, k, total);
      k := k + 1;
    }
  }

  lemma CleanFromSnoc(fs: FileSystem, items: seq<Path>, i: nat, total: nat)
    requires i < |items|
    ensures CleanFrom(fs, items[..i + 1], total) == CleanStep(CleanFrom(fs, items[..i], total), items[i], total)
  {
    assert items[..i + 1][..i] == items[..i];
  }

  /** The body of the loop for one item: the `path.exists()` test, the
      `try`, and the progress message. */
  method CleanOne(fs: FileSystem, events: seq<Event>, cleaned: nat, successCount: nat, cleanedSize: nat, path: Path, total: nat)
    returns (fs': FileSystem, events': seq<Event>, cleaned': nat, successCount': nat, cleanedSize': nat, escaped: bool)
    ensures CleanState(fs', events', cleaned', successCount', cleanedSize', escaped) ==
      CleanStep(CleanState(fs, events, cleaned, successCount, cleanedSize, false), path, total)
  {
    fs', events', cleaned', successCount', cleanedSize', escaped := fs, events, cleaned, successCount, cleanedSize, false;
    var outcome := CleanItem(fs, path);
    match outcome {
      case Escapes =>
        escaped := true;
      case Missing =>
      case Removed(size, rest) =>
        fs' := rest;
        cleanedSize' := cleanedSize + size;
        successCount' := successCount + 1;
        cleaned' := cleaned + 1;
        events' := events + [CleanProgress(cleaned', total)];
      case Failed(message) =>
        events' := events + [CleanError(path, message)];
        cleaned' := cleaned + 1;
        events' := events' + [CleanProgress(cleaned', total)];
    }
  }

  /** `Core._cleaner(items, delay)`. `delay` is overwritten by
      `0.5 / len(items)` before it is read, so it takes no part here. */
  method Clean(fs: FileSystem, items: seq<Path>, abortFrom: nat) returns (events: seq<Event>, after: FileSystem, status: Status)
    ensures RunResult(events, after, status) == CleanRun(fs, items, abortFrom)
  {
    var total := |items|;
    if total == 0 {
      return [], fs, DivisionByZero;
    }
    var cleaned: nat, cleanedSize: nat, successCount: nat := 0, 0, 0;
    events, after := [], fs;
    var i := 0;
    while i < total
      invariant i <= total && i <= abortFrom
      invariant CleanState(after, events, cleaned, successCount, cleanedSize, false) == CleanFrom(fs, items[..i], total)
    {
      if i == abortFrom {
        break;
      }
      CleanFromSnoc(fs, items, i, total);
      var escaped;
      after, events, cleaned, successCount, cleanedSize, escaped := CleanOne(after, events, cleaned, successCount, cleanedSize, items[i], total);
      i := i + 1;
      if escaped {
        EscapedStays(fs, items, total, i, Reached(items, abortFrom));
        return events, after, Escaped;
      }
    }
    if abortFrom > total {
      assert i == total && items[..total] == items;
      events := events + [CleanDone(cleanedSize, successCount, total)];
      status := Completed;
    } else {
      assert i == abortFrom;
      status := Aborted;
    }
  }

  // ---------------------------------------------------------------------
  // The counters and the messages.

  /** The loop's bookkeeping after `n` items out of `total`: `success_count
      <= cleaned <= n`; the progress messages are `(1, total)`, `(2,
      total)`, ... up to `(cleaned, total)`; there are `cleaned -
      success_count` error messages, each followed at once by a progress
      message; and nothing else is put. */
  ghost predicate Bookkeeping(st: CleanState, n: nat, total: nat)
  {
    && st.successCount <= st.cleaned <= n
    && |ProgressOf(st.events)| == st.cleaned
    && (forall k :: 0 <= k < |ProgressOf(st.events)| ==> ProgressOf(st.events)[k] == CleanProgress(k + 1, total))
    && ErrorCount(st.events) == st.cleaned - st.successCount
    && (forall k :: 0 <= k < |st.events| ==> st.events[k].CleanError? || st.events[k].CleanProgress?)
    && (forall k :: 0 <= k < |st.events| && st.events[k].CleanError? ==> k + 1 < |st.events| && st.events[k + 1].CleanProgress?)
  }

  lemma ProgressOfAppend(ev: seq<Event>, e: Event)
    ensures ProgressOf(ev + [e]) == ProgressOf(ev) + (if e.CleanProgress? then [e] else [])
    ensures ErrorCount(ev + [e]) == ErrorCount(ev) + (if e.CleanError? then 1 else 0)
  {
    assert (ev + [e])[..|ev|] == ev;
  }

  /** A turn that puts one progress message keeps the bookkeeping. */
  lemma BookkeepingProgress(st: CleanState, n: nat, total: nat, st2: CleanState)
    requires Bookkeeping(st, n, total)
    requires st2.events == st.events + [CleanProgress(st.cleaned + 1, total)]
    requires st2.cleaned == st.cleaned + 1 && st2.successCount == st.successCount + 1
    ensures Bookkeeping(st2, n + 1, total)
  {
    ProgressOfAppend(st.events, CleanProgress(st.cleaned + 1, total));
    assert forall k :: 0 <= k < |st.events| ==> st2.events[k] == st.events[k];
  }

  /** A turn that puts an error and then a progress message keeps the
      bookkeeping. */
  lemma BookkeepingError(st: CleanState, n: nat, total: nat, st2: CleanState, e: Event)
    requires Bookkeeping(st, n, total) && e.CleanError?
    requires st2.events == st.events + [e, CleanProgress(st.cleaned + 1, total)]
    requires st2.cleaned == st.cleaned + 1 && st2.successCount == st.successCount
    ensures Bookkeeping(st2, n + 1, total)
  {
    var p := CleanProgress(st.cleaned + 1, total);
    ProgressOfAppend(st.events, e);
    ProgressOfAppend(st.events + [e], p);
    assert st2.events == st.events + [e] + [p];
    assert forall k :: 0 <= k < |st.events| ==> st2.events[k] == st.events[k];
  }

  /** Every turn keeps the bookkeeping. */
  lemma BookkeepingStep(st: CleanState, n: nat, x: Path, total: nat)
    requires Bookkeeping(st, n, total)
    ensures Bookkeeping(CleanStep(st, x, total), n + 1, total)
  {
    var st2 := CleanStep(st, x, total);
    if st.escaped || CleanItem(st.fs, x).Escapes? || CleanItem(st.fs, x).Missing? {
      assert st2.events == st.events && st2.cleaned == st.cleaned && st2.successCount == st.successCount;
    } else if CleanItem(st.fs, x).Removed? {
      BookkeepingProgress(st, n, total, st2);
    } else {
      BookkeepingError(st, n, total, st2, CleanError(x, CleanItem(st.fs, x).message));
    }
  }

  lemma {:induction false} CleanBookkeeping(fs: FileSystem, items: seq<Path>, total: nat)
    ensures Bookkeeping(CleanFrom(fs, items, total), |items|, total)
    decreases |items|
  {
    if items != [] {
      var prev := items[..|items| - 1];
      CleanBookkeeping(fs, prev, total);
      BookkeepingStep(CleanFrom(fs, prev, total), |prev|, items[|items| - 1], total);
    }
  }

  // ---------------------------------------------------------------------
  // The filesystem.

  /** All bytes accounted for: `cleaned_size` plus what is left on a
      well-formed filesystem is what was there before. */
  lemma {:induction false} CleanAccountsBytes(fs: FileSystem, items: seq<Path>, total: nat)
    requires Valid(fs)
    ensures Valid(CleanFrom(fs, items, total).fs)
    ensures CleanFrom(fs, items, total).cleanedSize + TotalBytes(CleanFrom(fs, items, total).fs) == TotalBytes(fs)
    decreases |items|
  {
    if items != [] {
      var prev := items[..|items| - 1];
      CleanAccountsBytes(fs, prev, total);
      CleanItemFrees(CleanFrom(fs, prev, total).fs, items[|items| - 1]);
    }
  }

  /** The cleaner creates and changes nothing, and removes only what lies
      inside (or is) one of the items. */
  lemma {:induction false} CleanFrame(fs: FileSystem, items: seq<Path>, total: nat)
    ensures forall q :: q in CleanFrom(fs, items, total).fs.nodes ==>
      q in fs.nodes && CleanFrom(fs, items, total).fs.nodes[q] == fs.nodes[q]
    ensures forall q :: q in fs.nodes && (forall i :: 0 <= i < |items| ==> !IsAncestor(items[i], q)) ==>
      q in CleanFrom(fs, items, total).fs.nodes
    ensures CleanFrom(fs, items, total).fs.statFails == fs.statFails
    ensures CleanFrom(fs, items, total).fs.unlinkFails == fs.unlinkFails
    decreases |items|
  {
    if items != [] {
      var prev := items[..|items| - 1];
      CleanFrame(fs, prev, total);
      var st', st := CleanFrom(fs, prev, total), CleanFrom(fs, items, total);
      assert st == CleanStep(st', items[|items| - 1], total);
      assert st.fs == st'.fs || CleanItem(st'.fs, items[|items| - 1]).Removed?;
      forall q | q in fs.nodes && (forall i :: 0 <= i < |items| ==> !IsAncestor(items[i], q))
        ensures q in st.fs.nodes
      {
        assert forall i :: 0 <= i < |prev| ==> prev[i] == items[i];
        assert !IsAncestor(items[|items| - 1], q);
      }
    }
  }

  /** Some error message names `p`. */
  predicate HasError(ev: seq<Event>, p: Path)
  {
    exists k :: 0 <= k < |ev| && ev[k].CleanError? && ev[k].path == p
  }

  /** In a run no error escaped, no item is left that cannot be stat-ed,
      and an item that still exists afterwards had an error reported for
      it. */
  lemma {:induction false} CleanSurvivorsFailed(fs: FileSystem, items: seq<Path>, total: nat)
    ensures !CleanFrom(fs, items, total).escaped ==>
      forall p :: p in items ==>
        !StatFails(CleanFrom(fs, items, total).fs, p) &&
        (Exists(CleanFrom(fs, items, total).fs, p) ==> HasError(CleanFrom(fs, items, total).events, p))
    decreases |items|
  {
    if items != [] {
      var prev := items[..|items| - 1];
      var x := items[|items| - 1];
      CleanSurvivorsFailed(fs, prev, total);
      var st' := CleanFrom(fs, prev, total);
      var st := CleanFrom(fs, items, total);
      assert st == CleanStep(st', x, total);
      if !st.escaped {
        assert !st'.escaped;
        assert IsPrefix(st'.events, st.events);
        match CleanItem(st'.fs, x) {
          case Missing =>
          case Removed(size, after) =>
            assert x !in after.nodes;
          case Failed(message) =>
            assert st.events[|st'.events|] == CleanError(x, message);
        }
        assert forall q :: q in st.fs.nodes ==> q in st'.fs.nodes;
        assert !StatFails(st.fs, x);
        assert Exists(st.fs, x) ==> HasError(st.events, x);
        forall p | p in items ensures !StatFails(st.fs, p) && (Exists(st.fs, p) ==> HasError(st.events, p)) {
          if p != x {
            assert p in prev;
            if Exists(st.fs, p) {
              assert Exists(st'.fs, p);
              var k :| 0 <= k < |st'.events| && st'.events[k].CleanError? && st'.events[k].path == p;
              assert st.events[k] == st'.events[k];
            }
          }
        }
      }
    }
  }

  /** An error escapes only from an item that cannot be stat-ed; and one
      does escape once the run reaches such an item that no earlier item
      encloses, since then nothing has removed it. */
  lemma {:induction false} CleanEscapes(fs: FileSystem, items: seq<Path>, total: nat)
    ensures CleanFrom(fs, items, total).escaped ==> exists i :: 0 <= i < |items| && StatFails(fs, items[i])
    ensures (exists i :: 0 <= i < |items| && StatFails(fs, items[i]) &&
              forall j :: 0 <= j < i ==> !IsAncestor(items[j], items[i])) ==>
      CleanFrom(fs, items, total).escaped
    decreases |items|
  {
    if items != [] {
      var prev := items[..|items| - 1];
      var x := items[|items| - 1];
      CleanEscapes(fs, prev, total);
      CleanFrame(fs, prev, total);
      var st' := CleanFrom(fs, prev, total);
      if CleanFrom(fs, items, total).escaped && !st'.escaped {
        assert StatFails(fs, x);
      }
      assert items[..|items|] == items;
      if i :| 0 <= i < |items| && StatFails(fs, items[i]) && forall j :: 0 <= j < i ==> !IsAncestor(items[j], items[i]) {
        var si := CleanFrom(fs, items[..i], total);
        if !si.escaped {
          CleanFrame(fs, items[..i], total);
          assert forall j :: 0 <= j < i ==> items[..i][j] == items[j];
          assert StatFails(si.fs, items[i]);
          CleanFromSnoc(fs, items, i, total);
        }
        EscapedStays(fs, items, total, if si.escaped then i else i + 1, |items|);
      }
    }
  }

  // ---------------------------------------------------------------------
  // Abort, the summary, and items that are gone.

  lemma {:induction false} CleanFromPrefix(fs: FileSystem, items: seq<Path>, total: nat, i: nat, j: nat)
    requires i <= j <= |items|
    ensures IsPrefix(CleanFrom(fs, items[..i], total).events, CleanFrom(fs, items[..j], total).events)
    decreases j
  {
    if i < j {
      CleanFromPrefix(fs, items, total, i, j - 1);
      assert items[..j][..j - 1] == items[..j - 1];
    }
  }

  /** An abort only cuts the message sequence short: the messages of an
      aborted clean are the first messages of any clean aborted later, or of
      the uninterrupted one. `CleanAbortSparesLater` states that it also
      stops every later item. */
  lemma CleanAbortPrefix(fs: FileSystem, items: seq<Path>, a: nat, b: nat)
    requires a <= b
    ensures IsPrefix(CleanRun(fs, items, a).events, CleanRun(fs, items, b).events)
  {
    if items != [] {
      var m, n := Reached(items, a), Reached(items, b);
      CleanFromPrefix(fs, items, |items|, m, n);
      var sm, sn := CleanFrom(fs, items[..m], |items|), CleanFrom(fs, items[..n], |items|);
      if sm.escaped {
        EscapedStays(fs, items, |items|, m, n);
      }
      assert IsPrefix(sn.events, CleanRun(fs, items, b).events);
      if !sm.escaped && a > |items| {
        assert m == n;
      }
    }
  }

  /** The `break` on the abort flag leaves every later item alone: a path
      that none of the items before the abort check encloses is still
      there, unchanged, after the run. */
  lemma CleanAbortSparesLater(fs: FileSystem, items: seq<Path>, abortFrom: nat)
    requires abortFrom <= |items|
    ensures forall q :: q in fs.nodes && (forall i :: 0 <= i < abortFrom ==> !IsAncestor(items[i], q)) ==>
      q in CleanRun(fs, items, abortFrom).after.nodes &&
      CleanRun(fs, items, abortFrom).after.nodes[q] == fs.nodes[q]
  {
    if items != [] {
      var done := items[..Reached(items, abortFrom)];
      CleanFrame(fs, done, |items|);
      assert forall i :: 0 <= i < |done| ==> done[i] == items[i];
    }
  }

  /** An empty list ends in the division error with nothing put and
      nothing removed; otherwise `clean_done` is put exactly when the flag
      was never seen and no error escaped, and then as the last message. */
  lemma CleanSummary(fs: FileSystem, items: seq<Path>, abortFrom: nat)
    ensures CleanRun(fs, items, abortFrom).status == DivisionByZero <==> items == []
    ensures items == [] ==> CleanRun(fs, items, abortFrom).events == [] && CleanRun(fs, items, abortFrom).after == fs
    ensures CleanRun(fs, items, abortFrom).status == Completed <==>
      items != [] && abortFrom > |items| && !CleanFrom(fs, items, |items|).escaped
    ensures forall k :: 0 <= k < |CleanRun(fs, items, abortFrom).events| ==>
      (CleanRun(fs, items, abortFrom).events[k].CleanDone? <==>
        CleanRun(fs, items, abortFrom).status == Completed && k == |CleanRun(fs, items, abortFrom).events| - 1)
  {
    if items != [] {
      assert items[..|items|] == items;
      CleanBookkeeping(fs, items[..Reached(items, abortFrom)], |items|);
    }
  }

  /** The `clean_done` of a complete run carries the number of items, the
      number of progress messages less the number of error messages, and,
      on a well-formed filesystem, exactly the bytes the run freed. */
  lemma CleanDoneTotals(fs: FileSystem, items: seq<Path>, abortFrom: nat)
    requires CleanRun(fs, items, abortFrom).status == Completed
    ensures var r := CleanRun(fs, items, abortFrom);
      var body := r.events[..|r.events| - 1];
      r.events[|r.events| - 1].CleanDone? &&
      r.events[|r.events| - 1].total == |items| &&
      r.events[|r.events| - 1].successCount == |ProgressOf(body)| - ErrorCount(body) &&
      (Valid(fs) ==> r.events[|r.events| - 1].cleanedSize + TotalBytes(r.after) == TotalBytes(fs))
  {
    assert items[..|items|] == items;
    var st := CleanFrom(fs, items, |items|);
    CleanBookkeeping(fs, items, |items|);
    if Valid(fs) {
      CleanAccountsBytes(fs, items, |items|);
    }
    var r := CleanRun(fs, items, abortFrom);
    assert r.events == st.events + [CleanDone(st.cleanedSize, st.successCount, |items|)];
    assert r.events[..|r.events| - 1] == st.events;
  }

  /** Items that do not exist and can be stat-ed advance nothing: a list of
      them all leaves the state as it was, with no progress message. */
  lemma {:induction false} MissingItemsAdvanceNothing(fs: FileSystem, items: seq<Path>, total: nat)
    requires forall i :: 0 <= i < |items| ==> !Exists(fs, items[i]) && !StatFails(fs, items[i])
    ensures CleanFrom(fs, items, total) == CleanState(fs, [], 0, 0, 0, false)
    decreases |items|
  {
    if items != [] {
      MissingItemsAdvanceNothing(fs, items[..|items| - 1], total);
    }
  }

  /** Cleaning the same list again after a complete run without errors
      puts only `clean_done(0, 0, total)`: every item is gone, and gone
      items are skipped silently. */
  lemma RecleanIsSilent(fs: FileSystem, items: seq<Path>, abortFrom: nat, again: nat)
    requires CleanRun(fs, items, abortFrom).status == Completed && again > |items|
    requires forall k :: 0 <= k < |CleanRun(fs, items, abortFrom).events| ==> !CleanRun(fs, items, abortFrom).events[k].CleanError?
    ensures CleanRun(CleanRun(fs, items, abortFrom).after, items, again) ==
      RunResult([CleanDone(0, 0, |items|)], CleanRun(fs, items, abortFrom).after, Completed)
  {
    CleanSummary(fs, items, abortFrom);
    assert items[..|items|] == items;
    var st := CleanFrom(fs, items, |items|);
    CleanSurvivorsFailed(fs, items, |items|);
    forall k | 0 <= k < |st.events| ensures !st.events[k].CleanError? {
      assert st.events[k] == CleanRun(fs, items, abortFrom).events[k];
    }
    MissingItemsAdvanceNothing(st.fs, items, |items|);
  }

}
