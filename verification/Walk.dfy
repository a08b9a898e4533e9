/**
  The depth-first walk of src/scanner/scanner.c as a function of its environment, and what it visits.
  Directory listings, cancellation polls and root probes are the environment; the walk leaves a log.
 */
module Walk {
  import opened CText
  import opened Detection
  import L = Location

  const MAX_DEPTH := 64
  const PATH_MAX := 2048

  /** What a directory lists, and how the listing ends: NotFound is the normal end. */
  datatype Listing = Listing(entries: seq<Entry>, end: Status)

  /** `cancel` and `reachable` answer the n-th poll and the n-th probe of the root. */
  datatype World = World(
    root: cstring,
    tuned: bool,
    open: cstring -> Result<Listing>,
    cancel: nat -> bool,
    reachable: nat -> bool)

  datatype Event =
    | Visited(visit: Visit)
    | PathSkipped(path: cstring)
    | PathExcluded(path: cstring)
    | Removed
    | Cancelled

  datatype Trace = Trace(log: seq<Event>, polls: nat, probes: nat)

  const START := Trace([], 0, 0)

  predicate IsStop(e: Event) {
    e.Removed? || e.Cancelled?
  }

  predicate Stopped(t: Trace) {
    t.log != [] && IsStop(t.log[|t.log| - 1])
  }

  function Logged(t: Trace, e: Event): Trace {
    t.(log := t.log + [e])
  }

  /** usbs_path_join on a host whose separator is '/'. */
  function Join(base: cstring, leaf: cstring): cstring {
    if base != "" && base[|base| - 1] == '/' then base + leaf else base + "/" + leaf
  }

  predicate Fits(path: cstring) {
    |path| < PATH_MAX
  }

  /** A directory of the project's own test fixtures, on a tuned device. */
  predicate Excluded(w: World, path: cstring) {
    w.tuned && L.Classification(L.Relative(w.root, path)) == L.SelfTestFixtures
  }

  /** classify_path_failure: one probe of the root decides. */
  function PathFailure(w: World, path: cstring, t: Trace): Trace {
    Logged(t.(probes := t.probes + 1), if w.reachable(t.probes) then PathSkipped(path) else Removed)
  }

  // ---- the walk ----

  function WalkDir(w: World, dir: cstring, depth: nat, t: Trace): Trace
    requires depth <= MAX_DEPTH + 1
    decreases MAX_DEPTH + 1 - depth, 2
  {
    if Stopped(t) || depth > MAX_DEPTH then t
    else
      match w.open(dir)
      case Failure(_) => if depth == 0 then t else PathFailure(w, dir, t)
      case Success(listing) => WalkEntries(w, dir, depth, listing.entries, listing.end, t)
  }

  function WalkEntries(w: World, dir: cstring, depth: nat, entries: seq<Entry>, end: Status, t: Trace): Trace
    requires depth <= MAX_DEPTH
    decreases MAX_DEPTH + 1 - depth, 1, |entries|
  {
    var polled := t.(polls := t.polls + 1);
    if w.cancel(t.polls) then Logged(polled, Cancelled)
    else if entries == [] then if end == NotFound then polled else PathFailure(w, dir, polled)
    else
      var t' := WalkEntry(w, dir, depth, entries[0], polled);
      if Stopped(t') then t' else WalkEntries(w, dir, depth, entries[1..], end, t')
  }

  function WalkEntry(w: World, dir: cstring, depth: nat, e: Entry, t: Trace): Trace
    requires depth <= MAX_DEPTH
    decreases MAX_DEPTH + 1 - depth, 0
  {
    var child := Join(dir, e.name);
    if e.isReparsePoint || !Fits(child) then t
    else if !e.isDirectory then Logged(t, Visited(Visit(child, e)))
    else if Excluded(w, child) then Logged(t, PathExcluded(child))
    else WalkDir(w, child, depth + 1, t)
  }

  /** What walk_dir returns: only the failure to open the root is an error. */
  function WalkStatus(w: World): Status {
    match w.open(w.root)
    case Failure(error) => error
    case Success(_) => Fine
  }

  /** The whole walk of a volume. */
  function Run(w: World): Trace {
    WalkDir(w, w.root, 0, START)
  }

  // ---- nothing follows a stop ----

  ghost predicate StopsOnlyLast(t: Trace) {
    forall i | 0 <= i < |t.log| - 1 :: !IsStop(t.log[i])
  }

  lemma LoggedStops(t: Trace, e: Event)
    requires StopsOnlyLast(t) && !Stopped(t)
    ensures StopsOnlyLast(Logged(t, e)) && t.log <= Logged(t, e).log
  {
  }

  lemma {:induction false} DirGrows(w: World, dir: cstring, depth: nat, t: Trace)
    requires depth <= MAX_DEPTH + 1 && StopsOnlyLast(t)
    ensures StopsOnlyLast(WalkDir(w, dir, depth, t)) && t.log <= WalkDir(w, dir, depth, t).log
    decreases MAX_DEPTH + 1 - depth, 2
  {
    hide StopsOnlyLast;
    if !Stopped(t) && depth <= MAX_DEPTH {
      match w.open(dir) {
        case Failure(_) =>
          Untouched(t, t.polls, t.probes + 1);
          LoggedStops(t.(probes := t.probes + 1), if w.reachable(t.probes) then PathSkipped(dir) else Removed);
        case Success(listing) => EntriesGrow(w, dir, depth, listing.entries, listing.end, t);
      }
    }
  }

  lemma Untouched(t: Trace, polls: nat, probes: nat)
    requires StopsOnlyLast(t)
    ensures StopsOnlyLast(t.(polls := polls, probes := probes))
  {
  }

  lemma {:induction false} EntriesGrow(w: World, dir: cstring, depth: nat, entries: seq<Entry>, end: Status, t: Trace)
    requires depth <= MAX_DEPTH && StopsOnlyLast(t) && !Stopped(t)
    ensures var r := WalkEntries(w, dir, depth, entries, end, t);
            StopsOnlyLast(r) && t.log <= r.log
    decreases MAX_DEPTH + 1 - depth, 1, |entries|
  {
    hide StopsOnlyLast, WalkEntry;
    var polled := t.(polls := t.polls + 1);
    Untouched(t, t.polls + 1, t.probes);
    if w.cancel(t.polls) {
      LoggedStops(polled, Cancelled);
    } else if entries == [] {
      Untouched(t, t.polls + 1, t.probes + 1);
      LoggedStops(polled.(probes := t.probes + 1), if w.reachable(t.probes) then PathSkipped(dir) else Removed);
    } else {
      EntryGrows(w, dir, depth, entries[0], polled);
      var t' := WalkEntry(w, dir, depth, entries[0], polled);
      if !Stopped(t') {
        EntriesGrow(w, dir, depth, entries[1..], end, t');
      }
    }
  }

  lemma {:induction false} EntryGrows(w: World, dir: cstring, depth: nat, e: Entry, t: Trace)
    requires depth <= MAX_DEPTH && StopsOnlyLast(t) && !Stopped(t)
    ensures StopsOnlyLast(WalkEntry(w, dir, depth, e, t)) && t.log <= WalkEntry(w, dir, depth, e, t).log
    decreases MAX_DEPTH + 1 - depth, 0
  {
    hide StopsOnlyLast, WalkDir;
    var child := Join(dir, e.name);
    if !e.isReparsePoint && Fits(child) {
      if !e.isDirectory {
        LoggedStops(t, Visited(Visit(child, e)));
      } else if Excluded(w, child) {
        LoggedStops(t, PathExcluded(child));
      } else {
        DirGrows(w, child, depth + 1, t);
      }
    }
  }

  /** After the device is removed or the scan cancelled nothing more is visited, skipped or excluded. */
  lemma NothingAfterStop(w: World, i: nat)
    requires i < |Run(w).log| && IsStop(Run(w).log[i])
    ensures i == |Run(w).log| - 1
  {
    DirGrows(w, w.root, 0, START);
  }

  // ---- a cancelled run is a prefix of the uncancelled run ----

  function NeverCancelled(w: World): World {
    w.(cancel := (n: nat) => false)
  }

  predicate WasCancelled(t: Trace) {
    t.log != [] && t.log[|t.log| - 1].Cancelled?
  }

  /** `t` either went the same way as `full`, or was cancelled somewhere on that way. */
  ghost predicate CutFrom(t: Trace, full: Trace) {
    if WasCancelled(t) then t.log[..|t.log| - 1] <= full.log else t == full
  }

  lemma CancelHere(w: World, t: Trace, full: Trace)
    requires t.log <= full.log
    ensures CutFrom(Logged(t, Cancelled), full)
  {
    assert Logged(t, Cancelled).log[..|t.log|] == t.log;
  }

  lemma {:induction false} DirCut(w: World, dir: cstring, depth: nat, t: Trace)
    requires depth <= MAX_DEPTH + 1 && StopsOnlyLast(t) && !Stopped(t)
    ensures CutFrom(WalkDir(w, dir, depth, t), WalkDir(NeverCancelled(w), dir, depth, t))
    decreases MAX_DEPTH + 1 - depth, 2
  {
    hide StopsOnlyLast;
    if depth <= MAX_DEPTH && w.open(dir).Success? {
      EntriesCut(w, dir, depth, w.open(dir).value.entries, w.open(dir).value.end, t);
    }
  }

  lemma {:induction false} EntriesCut(w: World, dir: cstring, depth: nat, entries: seq<Entry>, end: Status, t: Trace)
    requires depth <= MAX_DEPTH && StopsOnlyLast(t) && !Stopped(t)
    ensures CutFrom(WalkEntries(w, dir, depth, entries, end, t),
                    WalkEntries(NeverCancelled(w), dir, depth, entries, end, t))
    decreases MAX_DEPTH + 1 - depth, 1, |entries|
  {
    hide StopsOnlyLast, WalkEntry;
    var n := NeverCancelled(w);
    var polled := t.(polls := t.polls + 1);
    Untouched(t, t.polls + 1, t.probes);
    if w.cancel(t.polls) {
      EntriesGrow(n, dir, depth, entries, end, t);
      CancelHere(w, polled, WalkEntries(n, dir, depth, entries, end, t));
    } else if entries == [] {
      EndCut(w, dir, depth, end, t);
    } else {
      EntryGrows(w, dir, depth, entries[0], polled);
      EntryCut(w, dir, depth, entries[0], polled);
      var t' := WalkEntry(w, dir, depth, entries[0], polled);
      if WasCancelled(t') {
        RestOnlyAdds(n, dir, depth, entries, end, t);
      } else if !Stopped(t') {
        EntriesCut(w, dir, depth, entries[1..], end, t');
      }
      EntriesStep(w, dir, depth, entries, end, t);
      EntriesStep(n, dir, depth, entries, end, t);
      hide WalkEntries;
      assert WasCancelled(t') ==> WalkEntries(w, dir, depth, entries, end, t) == t';
    }
  }

  lemma EndCut(w: World, dir: cstring, depth: nat, end: Status, t: Trace)
    requires depth <= MAX_DEPTH && StopsOnlyLast(t) && !Stopped(t) && !w.cancel(t.polls)
    ensures CutFrom(WalkEntries(w, dir, depth, [], end, t), WalkEntries(NeverCancelled(w), dir, depth, [], end, t))
  {
    hide StopsOnlyLast;
  }

  lemma EntriesStep(w: World, dir: cstring, depth: nat, entries: seq<Entry>, end: Status, t: Trace)
    requires depth <= MAX_DEPTH && entries != [] && !w.cancel(t.polls)
    ensures var t' := WalkEntry(w, dir, depth, entries[0], t.(polls := t.polls + 1));
            WalkEntries(w, dir, depth, entries, end, t)
            == if Stopped(t') then t' else WalkEntries(w, dir, depth, entries[1..], end, t')
  {
    hide WalkEntry;
  }

  lemma RestOnlyAdds(w: World, dir: cstring, depth: nat, entries: seq<Entry>, end: Status, t: Trace)
    requires depth <= MAX_DEPTH && entries != [] && !w.cancel(t.polls) && StopsOnlyLast(t) && !Stopped(t)
    ensures WalkEntry(w, dir, depth, entries[0], t.(polls := t.polls + 1)).log
         <= WalkEntries(w, dir, depth, entries, end, t).log
  {
    hide StopsOnlyLast, WalkEntry;
    var polled := t.(polls := t.polls + 1);
    Untouched(t, t.polls + 1, t.probes);
    EntryGrows(w, dir, depth, entries[0], polled);
    var t' := WalkEntry(w, dir, depth, entries[0], polled);
    if !Stopped(t') {
      EntriesGrow(w, dir, depth, entries[1..], end, t');
    }
  }

  lemma {:induction false} EntryCut(w: World, dir: cstring, depth: nat, e: Entry, t: Trace)
    requires depth <= MAX_DEPTH && StopsOnlyLast(t) && !Stopped(t)
    ensures CutFrom(WalkEntry(w, dir, depth, e, t), WalkEntry(NeverCancelled(w), dir, depth, e, t))
    decreases MAX_DEPTH + 1 - depth, 0
  {
    hide StopsOnlyLast, WalkDir;
    if e.isDirectory && !e.isReparsePoint && Fits(Join(dir, e.name)) && !Excluded(w, Join(dir, e.name)) {
      DirCut(w, Join(dir, e.name), depth + 1, t);
    }
  }

  /** Whenever it is cancelled, a run has done what the uncancelled run does first, and no more. */
  lemma CancelledRunIsPrefix(w: World)
    ensures var t, full := Run(w), Run(NeverCancelled(w));
            if WasCancelled(t) then t.log[..|t.log| - 1] <= full.log else t == full
  {
    DirCut(w, w.root, 0, START);
  }
}
