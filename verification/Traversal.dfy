/** The walk as the scanner runs it: counters, flags and detector slots updated in place (walk_dir). */
module Traversal {
  import opened CText
  import opened ScanModel
  import opened Detection
  import opened Walk
  import opened WalkSet

  const TWO_TO_THE_64 := 0x1_0000_0000_0000_0000

  /** One registered per-file detector and the check it is filling. */
  datatype Slot = Slot(id: cstring, onFile: (Check, Visit) -> Check, result: Check)

  /** The result of a slot after a sequence of files. */
  function After(slot: Slot, visits: seq<Visit>): Check {
    if visits == [] then slot.result
    else slot.onFile(After(slot, visits[..|visits| - 1]), visits[|visits| - 1])
  }

  function SlotsAfter(slots: seq<Slot>, visits: seq<Visit>): (r: seq<Slot>)
    ensures |r| == |slots|
    ensures forall i | 0 <= i < |r| :: r[i] == slots[i].(result := After(slots[i], visits))
  {
    seq(|slots|, i requires 0 <= i < |slots| => slots[i].(result := After(slots[i], visits)))
  }

  /** How one event changes what a log amounts to. */
  lemma OneEvent(log: seq<Event>, e: Event)
    ensures VisitsIn(log + [e]) == VisitsIn(log) + (if e.Visited? then [e.visit] else [])
    ensures SkippedIn(log + [e]) == SkippedIn(log) + (if e.PathSkipped? then 1 else 0)
    ensures ExcludedIn(log + [e]) == ExcludedIn(log) + (if e.PathExcluded? then 1 else 0)
  {
    assert (log + [e])[..|log|] == log;
  }

  lemma OneVisit(visits: seq<Visit>, v: Visit)
    ensures TotalSize(visits + [v]) == TotalSize(visits) + v.entry.size
  {
    assert (visits + [v])[..|visits|] == visits;
  }

  lemma OneCall(slot: Slot, visits: seq<Visit>, v: Visit)
    ensures After(slot, visits + [v]) == slot.onFile(After(slot, visits), v)
  {
    assert (visits + [v])[..|visits|] == visits;
  }

  class State {
    const world: World
    ghost const registered: seq<Slot>
    var fileCount: nat
    var byteCount: nat
    var pathsSkipped: nat
    var pathsExcluded: nat
    var cancelled: bool
    var deviceRemoved: bool
    var slots: seq<Slot>
    /** How often the environment was asked so far. */
    var polls: nat
    var probes: nat
    ghost var trace: Trace

    ghost predicate Counts()
      reads this
    {
      && fileCount == |VisitsIn(trace.log)| % TWO_TO_THE_64
      && byteCount == TotalSize(VisitsIn(trace.log)) % TWO_TO_THE_64
      && pathsSkipped == SkippedIn(trace.log) % TWO_TO_THE_64
      && pathsExcluded == ExcludedIn(trace.log) % TWO_TO_THE_64
      && slots == SlotsAfter(registered, VisitsIn(trace.log))
    }

    ghost predicate Flags()
      reads this
    {
      && (cancelled <==> WasCancelled(trace))
      && (deviceRemoved <==> trace.log != [] && trace.log[|trace.log| - 1].Removed?)
      && polls == trace.polls && probes == trace.probes
    }

    ghost predicate Valid()
      reads this
    {
      Counts() && Flags()
    }

    constructor (w: World, s: seq<Slot>)
      ensures Valid() && world == w && registered == s && trace == START
    {
      world, registered, slots := w, s, s;
      fileCount, byteCount, pathsSkipped, pathsExcluded := 0, 0, 0, 0;
      cancelled, deviceRemoved, polls, probes := false, false, 0, 0;
      trace := START;
    }

    /** classify_path_failure: a path that failed on a volume that is still there is only skipped. */
    method ClassifyPathFailure(path: cstring)
      requires Valid() && !Stopped(trace)
      modifies this
      ensures Valid() && trace == PathFailure(world, path, old(trace)) && probes == old(probes) + 1
      ensures world.reachable(old(probes)) ==>
                pathsSkipped == (old(pathsSkipped) + 1) % TWO_TO_THE_64 && deviceRemoved == old(deviceRemoved)
      ensures !world.reachable(old(probes)) ==> pathsSkipped == old(pathsSkipped) && deviceRemoved
    {
      hide VisitsIn, SkippedIn, ExcludedIn, TotalSize, SlotsAfter;
      var stillThere := world.reachable(probes);
      probes := probes + 1;
      OneEvent(trace.log, if stillThere then PathSkipped(path) else Removed);
      if stillThere {
        Wrap(SkippedIn(trace.log), 1);
        pathsSkipped := (pathsSkipped + 1) % TWO_TO_THE_64;
      } else {
        deviceRemoved := true;
      }
      assert forall visits: seq<Visit> :: visits + [] == visits;
      trace := PathFailure(world, path, trace);
    }

    /** One walk, every per-file detector. */
    method Dispatch(visit: Visit, ghost visits: seq<Visit>)
      requires slots == SlotsAfter(registered, visits)
      modifies this`slots
      ensures slots == SlotsAfter(registered, visits + [visit])
    {
      hide After, SlotsAfter;
      ghost var later := SlotsAfter(registered, visits + [visit]);
      for i := 0 to |slots|
        invariant |slots| == |registered|
        invariant forall k | 0 <= k < i :: slots[k] == later[k]
        invariant forall k | i <= k < |slots| :: slots[k] == old(slots)[k]
      {
        OneCall(registered[i], visits, visit);
        slots := slots[i := slots[i].(result := slots[i].onFile(slots[i].result, visit))];
      }
    }

    /** A file: counted, then handed to every per-file detector. */
    method VisitFile(visit: Visit)
      requires Valid() && !Stopped(trace)
      modifies this
      ensures Valid() && trace == Logged(old(trace), Visited(visit))
    {
      hide VisitsIn, SkippedIn, ExcludedIn, TotalSize, SlotsAfter;
      ghost var visits := VisitsIn(trace.log);
      OneEvent(trace.log, Visited(visit));
      OneVisit(visits, visit);
      Wrap(|visits|, 1);
      Wrap(TotalSize(visits), visit.entry.size);
      fileCount := (fileCount + 1) % TWO_TO_THE_64;
      byteCount := (byteCount + visit.entry.size) % TWO_TO_THE_64;
      Dispatch(visit, visits);
      trace := Logged(trace, Visited(visit));
    }

    method Exclude(path: cstring)
      requires Valid() && !Stopped(trace)
      modifies this
      ensures Valid() && trace == Logged(old(trace), PathExcluded(path))
    {
      hide VisitsIn, SkippedIn, ExcludedIn, TotalSize, SlotsAfter;
      OneEvent(trace.log, PathExcluded(path));
      Wrap(ExcludedIn(trace.log), 1);
      assert VisitsIn(trace.log) + [] == VisitsIn(trace.log);
      pathsExcluded := (pathsExcluded + 1) % TWO_TO_THE_64;
      trace := Logged(trace, PathExcluded(path));
    }

    /** One poll of the cancel check. */
    method PollCancelled() returns (yes: bool)
      requires Valid() && !Stopped(trace)
      modifies this
      ensures yes == world.cancel(old(trace).polls) && Valid()
      ensures var polled := old(trace).(polls := old(trace).polls + 1);
              trace == if yes then Logged(polled, Cancelled) else polled
    {
      hide VisitsIn, SkippedIn, ExcludedIn, TotalSize, SlotsAfter;
      yes := world.cancel(polls);
      polls := polls + 1;
      trace := trace.(polls := trace.polls + 1);
      if yes {
        OneEvent(trace.log, Cancelled);
        assert VisitsIn(trace.log) + [] == VisitsIn(trace.log);
        cancelled := true;
        trace := Logged(trace, Cancelled);
      }
    }

    /** walk_dir: the counters, flags and slots are those of the walk as a function. */
    method WalkDir(dir: cstring, depth: nat) returns (status: Status)
      requires Valid() && depth <= MAX_DEPTH + 1
      modifies this
      ensures Valid() && trace == Walk.WalkDir(world, dir, depth, old(trace))
      ensures status == if depth == 0 && !Stopped(old(trace)) && world.open(dir).Failure?
                        then world.open(dir).error else Fine
      decreases MAX_DEPTH + 1 - depth, 2
    {
      hide Counts;
      if cancelled || deviceRemoved {
        return Fine;
      }
      if depth > MAX_DEPTH {
        return Fine;
      }
      var listed := world.open(dir);
      if listed.Failure? {
        if depth == 0 {
          return listed.error;
        }
        ClassifyPathFailure(dir);
        return Fine;
      }
      WalkListing(dir, depth, listed.value.entries, listed.value.end);
      return Fine;
    }

    /** The loop of walk_dir over one listing. */
    method WalkListing(dir: cstring, depth: nat, entries: seq<Entry>, end: Status)
      requires Valid() && depth <= MAX_DEPTH && !Stopped(trace)
      modifies this
      ensures Valid() && trace == WalkEntries(world, dir, depth, entries, end, old(trace))
      decreases MAX_DEPTH + 1 - depth, 1
    {
      hide Counts, WalkEntries, WalkEntry;
      var i := 0;
      assert entries[0..] == entries;
      while true
        invariant 0 <= i <= |entries| && Valid() && !Stopped(trace)
        invariant WalkEntries(world, dir, depth, entries[i..], end, trace)
               == WalkEntries(world, dir, depth, entries, end, old(trace))
        decreases |entries| - i
      {
        LoopStep(world, dir, depth, entries, i, end, trace);
        ghost var before := trace;
        var yes := PollCancelled();
        if yes {
          return;
        }
        if i == |entries| {
          if end != NotFound {
            ClassifyPathFailure(dir);
          }
          return;
        }
        WalkOne(dir, depth, entries[i]);
        i := i + 1;
        if cancelled || deviceRemoved {
          return;
        }
      }
    }

    method WalkOne(dir: cstring, depth: nat, e: Entry)
      requires Valid() && depth <= MAX_DEPTH && !Stopped(trace)
      modifies this
      ensures Valid() && trace == WalkEntry(world, dir, depth, e, old(trace))
      decreases MAX_DEPTH + 1 - depth, 0
    {
      hide Counts;
      if e.isReparsePoint {
        return;
      }
      var child := Join(dir, e.name);
      if !Fits(child) {
        return;
      }
      if !e.isDirectory {
        VisitFile(Visit(child, e));
        return;
      }
      if Excluded(world, child) {
        Exclude(child);
        return;
      }
      var status := WalkDir(child, depth + 1);
    }
  }

  lemma Wrap(a: nat, b: nat)
    ensures (a % TWO_TO_THE_64 + b) % TWO_TO_THE_64 == (a + b) % TWO_TO_THE_64
  {
  }

  /** One turn of the loop over a listing. */
  lemma LoopStep(w: World, dir: cstring, depth: nat, entries: seq<Entry>, i: nat, end: Status, t: Trace)
    requires depth <= MAX_DEPTH && i <= |entries|
    ensures var polled := t.(polls := t.polls + 1);
            WalkEntries(w, dir, depth, entries[i..], end, t)
            == if w.cancel(t.polls) then Logged(polled, Cancelled)
               else if i == |entries| then if end == NotFound then polled else PathFailure(w, dir, polled)
               else
                 var t' := WalkEntry(w, dir, depth, entries[i], polled);
                 if Stopped(t') then t' else WalkEntries(w, dir, depth, entries[i + 1..], end, t')
  {
    hide WalkEntry;
    if i < |entries| {
      assert entries[i..][1..] == entries[i + 1..];
    }
  }
}
