/**
  What stops a walk (src/scanner/scanner.c, walk_dir and classify_path_failure): the first poll that
  is answered "cancel" or the first probe that finds the root gone, and nothing else.
 */
module WalkStops {
  import opened CText
  import opened Detection
  import opened Walk
  import opened WalkSet

  /** How many of the first `n` probes of the root found it. */
  ghost function Found(w: World, n: nat): nat {
    if n == 0 then 0 else Found(w, n - 1) + if w.reachable(n - 1) then 1 else 0
  }

  ghost predicate WasRemoved(t: Trace) {
    t.log != [] && t.log[|t.log| - 1].Removed?
  }

  /** Each probe that found the root counts one skip; the one that did not ended the walk. */
  ghost predicate ProbesTell(w: World, t: Trace) {
    && SkippedIn(t.log) == Found(w, t.probes)
    && (forall n | 0 <= n < t.probes - 1 :: w.reachable(n))
    && (WasRemoved(t) <==> t.probes > 0 && !w.reachable(t.probes - 1))
  }

  /** Every poll but the last was answered no, and the walk was cancelled if the last was not. */
  ghost predicate PollsTell(w: World, t: Trace) {
    && (forall n | 0 <= n < t.polls - 1 :: !w.cancel(n))
    && (WasCancelled(t) <==> t.polls > 0 && w.cancel(t.polls - 1))
  }

  ghost predicate Tells(w: World, t: Trace) {
    ProbesTell(w, t) && PollsTell(w, t)
  }

  lemma OneMore(log: seq<Event>, e: Event)
    ensures SkippedIn(log + [e]) == SkippedIn(log) + (if e.PathSkipped? then 1 else 0)
  {
    assert (log + [e])[..|log|] == log;
  }

  lemma FailureTells(w: World, path: cstring, t: Trace)
    requires Tells(w, t) && !Stopped(t)
    ensures Tells(w, PathFailure(w, path, t))
  {
    OneMore(t.log, PathSkipped(path));
    OneMore(t.log, Removed);
  }

  lemma PollTells(w: World, t: Trace)
    requires Tells(w, t) && !Stopped(t)
    ensures var polled := t.(polls := t.polls + 1);
            Tells(w, if w.cancel(t.polls) then Logged(polled, Cancelled) else polled)
  {
    OneMore(t.log, Cancelled);
  }

  lemma EventTells(w: World, e: Event, t: Trace)
    requires Tells(w, t) && !Stopped(t) && (e.Visited? || e.PathExcluded?)
    ensures Tells(w, Logged(t, e))
  {
    OneMore(t.log, e);
  }

  lemma {:induction false} DirTells(w: World, dir: cstring, depth: nat, t: Trace)
    requires depth <= MAX_DEPTH + 1 && Tells(w, t)
    ensures Tells(w, WalkDir(w, dir, depth, t))
    decreases MAX_DEPTH + 1 - depth, 2
  {
    hide Tells, PathFailure;
    if !Stopped(t) && depth <= MAX_DEPTH {
      match w.open(dir) {
        case Failure(_) => FailureTells(w, dir, t);
        case Success(listing) => EntriesTell(w, dir, depth, listing.entries, listing.end, t);
      }
    }
  }

  lemma {:induction false} EntriesTell(w: World, dir: cstring, depth: nat, entries: seq<Entry>, end: Status, t: Trace)
    requires depth <= MAX_DEPTH && Tells(w, t) && !Stopped(t)
    ensures Tells(w, WalkEntries(w, dir, depth, entries, end, t))
    decreases MAX_DEPTH + 1 - depth, 1, |entries|
  {
    hide Tells, PathFailure, WalkEntry;
    var polled := t.(polls := t.polls + 1);
    PollTells(w, t);
    if !w.cancel(t.polls) {
      if entries == [] {
        FailureTells(w, dir, polled);
      } else {
        EntryTells(w, dir, depth, entries[0], polled);
        var t' := WalkEntry(w, dir, depth, entries[0], polled);
        if !Stopped(t') {
          EntriesTell(w, dir, depth, entries[1..], end, t');
        }
      }
    }
  }

  lemma {:induction false} EntryTells(w: World, dir: cstring, depth: nat, e: Entry, t: Trace)
    requires depth <= MAX_DEPTH && Tells(w, t) && !Stopped(t)
    ensures Tells(w, WalkEntry(w, dir, depth, e, t))
    decreases MAX_DEPTH + 1 - depth, 0
  {
    hide Tells, WalkDir;
    var child := Join(dir, e.name);
    if !e.isReparsePoint && Fits(child) {
      if !e.isDirectory {
        EventTells(w, Visited(Visit(child, e)), t);
      } else if Excluded(w, child) {
        EventTells(w, PathExcluded(child), t);
      } else {
        DirTells(w, child, depth + 1, t);
      }
    }
  }

  /**
    A run ends with the device removed if and only if a probe did not find the root, and that probe is
    its last; the skips are the probes that did.
   */
  lemma RemovedIff(w: World)
    ensures var t := Run(w);
            && (WasRemoved(t) <==> exists n :: 0 <= n < t.probes && !w.reachable(n))
            && (forall n | 0 <= n < t.probes && !w.reachable(n) :: n == t.probes - 1)
            && SkippedIn(t.log) == Found(w, t.probes)
  {
    DirTells(w, w.root, 0, START);
    var t := Run(w);
    if t.probes > 0 && !w.reachable(t.probes - 1) {
      assert exists n :: 0 <= n < t.probes && !w.reachable(n);
    }
  }

  /** A run is cancelled if and only if one of its polls said so, and that poll is its last. */
  lemma CancelledIff(w: World)
    ensures var t := Run(w);
            && (WasCancelled(t) <==> exists n :: 0 <= n < t.polls && w.cancel(n))
            && (forall n | 0 <= n < t.polls && w.cancel(n) :: n == t.polls - 1)
  {
    DirTells(w, w.root, 0, START);
    var t := Run(w);
    if t.polls > 0 && w.cancel(t.polls - 1) {
      assert exists n :: 0 <= n < t.polls && w.cancel(n);
    }
  }

  // ---- every entry has its own poll ----

  ghost function Handled(t: Trace): nat {
    |VisitsIn(t.log)| + ExcludedIn(t.log)
  }

  /** Each entry handled had a poll of its own that said no. */
  ghost predicate Paced(t: Trace) {
    Handled(t) <= t.polls - if WasCancelled(t) then 1 else 0
  }

  lemma HandledMore(t: Trace, e: Event)
    ensures Handled(Logged(t, e)) == Handled(t) + (if e.Visited? || e.PathExcluded? then 1 else 0)
  {
    assert (t.log + [e])[..|t.log|] == t.log;
  }

  lemma {:induction false} DirPaced(w: World, dir: cstring, depth: nat, t: Trace)
    requires depth <= MAX_DEPTH + 1 && Handled(t) < t.polls + (if depth == 0 then 1 else 0) && !Stopped(t)
    ensures Paced(WalkDir(w, dir, depth, t))
    decreases MAX_DEPTH + 1 - depth, 2
  {
    hide Handled;
    if !Stopped(t) && depth <= MAX_DEPTH {
      match w.open(dir) {
        case Failure(_) =>
          FailurePaced(w, dir, t);
        case Success(listing) => EntriesPaced(w, dir, depth, listing.entries, listing.end, t);
      }
    }
  }

  lemma FailurePaced(w: World, path: cstring, t: Trace)
    ensures Handled(PathFailure(w, path, t)) == Handled(t) && PathFailure(w, path, t).polls == t.polls
  {
    HandledMore(t, PathSkipped(path));
    HandledMore(t, Removed);
  }

  lemma {:induction false} EntriesPaced(w: World, dir: cstring, depth: nat, entries: seq<Entry>, end: Status, t: Trace)
    requires depth <= MAX_DEPTH && Handled(t) <= t.polls && !Stopped(t)
    ensures Paced(WalkEntries(w, dir, depth, entries, end, t))
    decreases MAX_DEPTH + 1 - depth, 1, |entries|
  {
    hide PathFailure, WalkEntry;
    var polled := t.(polls := t.polls + 1);
    assert Handled(polled) == Handled(t);
    hide Handled;
    HandledMore(polled, Cancelled);
    FailurePaced(w, dir, polled);
    if !w.cancel(t.polls) && entries != [] {
      EntryPaced(w, dir, depth, entries[0], polled);
      var t' := WalkEntry(w, dir, depth, entries[0], polled);
      if !Stopped(t') {
        EntriesPaced(w, dir, depth, entries[1..], end, t');
      }
    }
  }

  lemma {:induction false} EntryPaced(w: World, dir: cstring, depth: nat, e: Entry, t: Trace)
    requires depth <= MAX_DEPTH && Handled(t) < t.polls && !Stopped(t)
    ensures Paced(WalkEntry(w, dir, depth, e, t))
    decreases MAX_DEPTH + 1 - depth, 0
  {
    hide Handled, WalkDir;
    var child := Join(dir, e.name);
    if !e.isReparsePoint && Fits(child) {
      if !e.isDirectory {
        HandledMore(t, Visited(Visit(child, e)));
      } else if Excluded(w, child) {
        HandledMore(t, PathExcluded(child));
      } else {
        DirPaced(w, child, depth + 1, t);
      }
    }
  }

  /** A cancel that is up from poll `n` on lets at most `n` entries through. */
  lemma CancelIsPrompt(w: World, n: nat)
    requires w.cancel(n)
    ensures |VisitsIn(Run(w).log)| + ExcludedIn(Run(w).log) <= n
  {
    CancelledIff(w);
    DirPaced(w, w.root, 0, START);
  }

  lemma {:induction false} AllFound(w: World, n: nat)
    requires forall k | 0 <= k < n :: w.reachable(k)
    ensures Found(w, n) == n
  {
    if n > 0 {
      AllFound(w, n - 1);
    }
  }

  /** A volume that stays is never taken for removed: each failing directory is one skip. */
  lemma MountedIsNeverRemoved(w: World)
    requires forall n: nat :: w.reachable(n)
    ensures !WasRemoved(Run(w)) && SkippedIn(Run(w).log) == Run(w).probes
  {
    RemovedIff(w);
    AllFound(w, Run(w).probes);
  }

  // ---- a stopped walk has done the first part of the undisturbed one ----

  function WithoutStop(t: Trace): seq<Event> {
    if Stopped(t) then t.log[..|t.log| - 1] else t.log
  }

  /** `log` has come some way, or if it was not stopped all the way, through `events`. */
  ghost predicate Within(before: seq<Event>, t: Trace, events: seq<Event>) {
    if Stopped(t) then before <= WithoutStop(t) <= before + events else t.log == before + events
  }

  lemma FailureWithin(w: World, path: cstring, t: Trace)
    requires !Stopped(t)
    ensures Within(t.log, PathFailure(w, path, t), [PathSkipped(path)])
  {
    assert Logged(t, Removed).log[..|t.log|] == t.log;
  }

  lemma Onwards(before: seq<Event>, first: seq<Event>, t: Trace, events: seq<Event>)
    requires Within(before + first, t, events)
    ensures Within(before, t, first + events)
  {
    assert before + first + events == before + (first + events);
  }

  lemma StoppedEarly(before: seq<Event>, t: Trace, first: seq<Event>, events: seq<Event>)
    requires Within(before, t, first) && Stopped(t)
    ensures Within(before, t, first + events)
  {
    assert before + first + events == before + (first + events);
  }

  lemma {:induction false} DirWithin(w: World, dir: cstring, depth: nat, t: Trace)
    requires depth <= MAX_DEPTH + 1 && !Stopped(t)
    ensures Within(t.log, WalkDir(w, dir, depth, t), DirEvents(w, dir, depth))
    decreases MAX_DEPTH + 1 - depth, 2
  {
    hide PathFailure, Within;
    Nowhere(t);
    if depth <= MAX_DEPTH {
      match w.open(dir) {
        case Failure(_) => FailureWithin(w, dir, t);
        case Success(listing) => EntriesWithin(w, dir, depth, listing.entries, listing.end, t);
      }
    }
  }

  lemma Nowhere(t: Trace)
    requires !Stopped(t)
    ensures Within(t.log, t, []) && Within(t.log, t.(polls := t.polls + 1), [])
  {
  }

  lemma CancelledWithin(t: Trace, events: seq<Event>)
    ensures Within(t.log, Logged(t, Cancelled), events)
  {
    assert Logged(t, Cancelled).log[..|t.log|] == t.log;
  }

  function EndEvents(dir: cstring, end: Status): seq<Event> {
    if end == NotFound then [] else [PathSkipped(dir)]
  }

  lemma {:induction false} EntriesWithin(w: World, dir: cstring, depth: nat, entries: seq<Entry>, end: Status, t: Trace)
    requires depth <= MAX_DEPTH && !Stopped(t)
    ensures Within(t.log, WalkEntries(w, dir, depth, entries, end, t),
                   EntriesEvents(w, dir, depth, entries) + EndEvents(dir, end))
    decreases MAX_DEPTH + 1 - depth, 1, |entries|
  {
    hide PathFailure, Within, WalkEntry, EntryEvents;
    var polled := t.(polls := t.polls + 1);
    var events := EntriesEvents(w, dir, depth, entries) + EndEvents(dir, end);
    if w.cancel(t.polls) {
      CancelledWithin(polled, events);
    } else if entries == [] {
      assert events == EndEvents(dir, end);
      Nowhere(t);
      FailureWithin(w, dir, polled);
    } else {
      var first, rest := EntryEvents(w, dir, depth, entries[0]), EntriesEvents(w, dir, depth, entries[1..]);
      EntryWithin(w, dir, depth, entries[0], polled);
      var t' := WalkEntry(w, dir, depth, entries[0], polled);
      assert events == first + (rest + EndEvents(dir, end));
      if Stopped(t') {
        StoppedEarly(t.log, t', first, rest + EndEvents(dir, end));
      } else {
        WentOn(t.log, t', first);
        EntriesWithin(w, dir, depth, entries[1..], end, t');
        Onwards(t.log, first, WalkEntries(w, dir, depth, entries[1..], end, t'), rest + EndEvents(dir, end));
      }
    }
  }

  lemma WentOn(before: seq<Event>, t: Trace, events: seq<Event>)
    requires Within(before, t, events) && !Stopped(t)
    ensures t.log == before + events
  {
  }

  lemma {:induction false} EntryWithin(w: World, dir: cstring, depth: nat, e: Entry, t: Trace)
    requires depth <= MAX_DEPTH && !Stopped(t)
    ensures Within(t.log, WalkEntry(w, dir, depth, e, t), EntryEvents(w, dir, depth, e))
    decreases MAX_DEPTH + 1 - depth, 0
  {
    hide WalkDir, DirEvents, Join, Fits, Excluded;
    var child := Join(dir, e.name);
    if e.isDirectory && !e.isReparsePoint && Fits(child) && !Excluded(w, child) {
      DirWithin(w, child, depth + 1, t);
    }
  }

  /** Whatever stops a run, it has done what the undisturbed walk of the tree does first, and no more. */
  lemma StoppedRunIsPrefix(w: World)
    ensures if Stopped(Run(w)) then WithoutStop(Run(w)) <= DirEvents(w, w.root, 0)
            else Run(w).log == DirEvents(w, w.root, 0)
  {
    hide WalkDir, DirEvents;
    DirWithin(w, w.root, 0, START);
    assert [] + DirEvents(w, w.root, 0) == DirEvents(w, w.root, 0);
  }
}
