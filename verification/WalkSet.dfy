/**
  What a walk that is not stopped visits: the files of a declarative set, each once
  (src/scanner/scanner.c, walk_dir).  A file is named by its position: the index of each entry on the
  way from the root.
 */
module WalkSet {
  import opened CText
  import opened Detection
  import opened Walk

  // ---- the log of an undisturbed walk ----

  function DirEvents(w: World, dir: cstring, depth: nat): seq<Event>
    requires depth <= MAX_DEPTH + 1
    decreases MAX_DEPTH + 1 - depth, 2
  {
    if depth > MAX_DEPTH then []
    else
      match w.open(dir)
      case Failure(_) => if depth == 0 then [] else [PathSkipped(dir)]
      case Success(listing) =>
        EntriesEvents(w, dir, depth, listing.entries) + if listing.end == NotFound then [] else [PathSkipped(dir)]
  }

  function EntriesEvents(w: World, dir: cstring, depth: nat, entries: seq<Entry>): seq<Event>
    requires depth <= MAX_DEPTH
    decreases MAX_DEPTH + 1 - depth, 1, |entries|
  {
    if entries == [] then []
    else EntryEvents(w, dir, depth, entries[0]) + EntriesEvents(w, dir, depth, entries[1..])
  }

  function EntryEvents(w: World, dir: cstring, depth: nat, e: Entry): seq<Event>
    requires depth <= MAX_DEPTH
    decreases MAX_DEPTH + 1 - depth, 0
  {
    var child := Join(dir, e.name);
    if e.isReparsePoint || !Fits(child) then []
    else if !e.isDirectory then [Visited(Visit(child, e))]
    else if Excluded(w, child) then [PathExcluded(child)]
    else DirEvents(w, child, depth + 1)
  }

  lemma {:induction false} DirLog(w: World, dir: cstring, depth: nat, t: Trace)
    requires depth <= MAX_DEPTH + 1 && !Stopped(WalkDir(w, dir, depth, t))
    ensures WalkDir(w, dir, depth, t).log == t.log + DirEvents(w, dir, depth)
    decreases MAX_DEPTH + 1 - depth, 2
  {
    if depth <= MAX_DEPTH && w.open(dir).Success? {
      EntriesLog(w, dir, depth, w.open(dir).value.entries, w.open(dir).value.end, t);
    }
  }

  lemma {:induction false} EntriesLog(w: World, dir: cstring, depth: nat, entries: seq<Entry>, end: Status, t: Trace)
    requires depth <= MAX_DEPTH && !Stopped(WalkEntries(w, dir, depth, entries, end, t))
    ensures WalkEntries(w, dir, depth, entries, end, t).log
         == t.log + (EntriesEvents(w, dir, depth, entries) + if end == NotFound then [] else [PathSkipped(dir)])
    decreases MAX_DEPTH + 1 - depth, 1, |entries|
  {
    hide WalkEntry, EntryEvents;
    if entries != [] {
      var polled := t.(polls := t.polls + 1);
      EntryLog(w, dir, depth, entries[0], polled);
      EntriesLog(w, dir, depth, entries[1..], end, WalkEntry(w, dir, depth, entries[0], polled));
    }
  }

  lemma {:induction false} EntryLog(w: World, dir: cstring, depth: nat, e: Entry, t: Trace)
    requires depth <= MAX_DEPTH && !Stopped(WalkEntry(w, dir, depth, e, t))
    ensures WalkEntry(w, dir, depth, e, t).log == t.log + EntryEvents(w, dir, depth, e)
    decreases MAX_DEPTH + 1 - depth, 0
  {
    hide WalkDir, DirEvents, Excluded, Fits, Join;
    var child := Join(dir, e.name);
    if e.isDirectory && !e.isReparsePoint && Fits(child) && !Excluded(w, child) {
      DirLog(w, child, depth + 1, t);
    }
  }

  // ---- counting a log ----

  function VisitsIn(log: seq<Event>): seq<Visit> {
    if log == [] then []
    else
      var e := log[|log| - 1];
      VisitsIn(log[..|log| - 1]) + if e.Visited? then [e.visit] else []
  }

  function SkippedIn(log: seq<Event>): nat {
    if log == [] then 0
    else SkippedIn(log[..|log| - 1]) + if log[|log| - 1].PathSkipped? then 1 else 0
  }

  function ExcludedIn(log: seq<Event>): nat {
    if log == [] then 0
    else ExcludedIn(log[..|log| - 1]) + if log[|log| - 1].PathExcluded? then 1 else 0
  }

  function TotalSize(visits: seq<Visit>): nat {
    if visits == [] then 0 else TotalSize(visits[..|visits| - 1]) + visits[|visits| - 1].entry.size
  }

  lemma {:induction false} VisitsConcat(a: seq<Event>, b: seq<Event>)
    ensures VisitsIn(a + b) == VisitsIn(a) + VisitsIn(b)
    decreases |b|
  {
    if b == [] {
      assert a + b == a;
    } else {
      assert (a + b)[..|a + b| - 1] == a + b[..|b| - 1];
      VisitsConcat(a, b[..|b| - 1]);
    }
  }

  // ---- the declarative set ----

  /**
    The position names a file the walk is meant to visit: every directory on the way can be opened,
    lies within the depth limit and is neither a reparse point nor excluded, and every path fits.
   */
  ghost predicate Eligible(w: World, dir: cstring, depth: nat, chain: seq<nat>)
    decreases |chain|
  {
    && depth <= MAX_DEPTH && chain != [] && w.open(dir).Success?
    && chain[0] < |w.open(dir).value.entries|
    && EligibleFrom(w, dir, depth, w.open(dir).value.entries[chain[0]], chain)
  }

  ghost predicate EligibleFrom(w: World, dir: cstring, depth: nat, e: Entry, chain: seq<nat>)
    requires chain != []
    decreases |chain|, 0
  {
    var child := Join(dir, e.name);
    && !e.isReparsePoint && Fits(child)
    && if |chain| == 1 then !e.isDirectory
       else e.isDirectory && !Excluded(w, child) && Eligible(w, child, depth + 1, chain[1..])
  }

  /** What the detectors are given for the file at a position. */
  ghost function VisitAt(w: World, dir: cstring, depth: nat, chain: seq<nat>): Visit
    requires Eligible(w, dir, depth, chain)
    decreases |chain|
  {
    var e := w.open(dir).value.entries[chain[0]];
    var child := Join(dir, e.name);
    assert EligibleFrom(w, dir, depth, e, chain);
    if |chain| == 1 then Visit(child, e) else VisitAt(w, child, depth + 1, chain[1..])
  }

  // ---- the positions in the order of the walk ----

  function Prefixed(i: nat, chains: seq<seq<nat>>): (r: seq<seq<nat>>)
    ensures |r| == |chains|
    ensures forall k | 0 <= k < |r| :: r[k] == [i] + chains[k]
  {
    seq(|chains|, k requires 0 <= k < |chains| => [i] + chains[k])
  }

  function DirChains(w: World, dir: cstring, depth: nat): seq<seq<nat>>
    requires depth <= MAX_DEPTH + 1
    decreases MAX_DEPTH + 1 - depth, 2
  {
    if depth > MAX_DEPTH || w.open(dir).Failure? then []
    else EntriesChains(w, dir, depth, w.open(dir).value.entries, 0)
  }

  function EntriesChains(w: World, dir: cstring, depth: nat, entries: seq<Entry>, i: nat): seq<seq<nat>>
    requires depth <= MAX_DEPTH && i <= |entries|
    decreases MAX_DEPTH + 1 - depth, 1, |entries| - i
  {
    if i == |entries| then []
    else EntryChains(w, dir, depth, entries[i], i) + EntriesChains(w, dir, depth, entries, i + 1)
  }

  function EntryChains(w: World, dir: cstring, depth: nat, e: Entry, i: nat): seq<seq<nat>>
    requires depth <= MAX_DEPTH
    decreases MAX_DEPTH + 1 - depth, 0
  {
    var child := Join(dir, e.name);
    if e.isReparsePoint || !Fits(child) then []
    else if !e.isDirectory then [[i]]
    else if Excluded(w, child) then []
    else Prefixed(i, DirChains(w, child, depth + 1))
  }

  ghost predicate Distinct<T(!new)>(s: seq<T>) {
    forall i, j | 0 <= i < j < |s| :: s[i] != s[j]
  }

  // ---- exactly the eligible positions, each once ----

  /** The chains are the eligible ones among those that start at entry `i` or later. */
  ghost predicate Covers(w: World, dir: cstring, depth: nat, entries: seq<Entry>, i: nat, chains: seq<seq<nat>>) {
    forall chain :: chain in chains
      <==> chain != [] && i <= chain[0] < |entries| && EligibleFrom(w, dir, depth, entries[chain[0]], chain)
  }

  lemma {:induction false} DirCovers(w: World, dir: cstring, depth: nat)
    requires depth <= MAX_DEPTH + 1
    ensures Distinct(DirChains(w, dir, depth))
    ensures forall chain :: chain in DirChains(w, dir, depth) <==> Eligible(w, dir, depth, chain)
    decreases MAX_DEPTH + 1 - depth, 2
  {
    hide EntriesChains;
    if depth <= MAX_DEPTH && w.open(dir).Success? {
      EntriesCover(w, dir, depth, w.open(dir).value.entries, 0);
    }
  }

  lemma {:induction false} EntriesCover(w: World, dir: cstring, depth: nat, entries: seq<Entry>, i: nat)
    requires depth <= MAX_DEPTH && i <= |entries|
    ensures Distinct(EntriesChains(w, dir, depth, entries, i))
    ensures Covers(w, dir, depth, entries, i, EntriesChains(w, dir, depth, entries, i))
    decreases MAX_DEPTH + 1 - depth, 1, |entries| - i
  {
    hide EntryChains, EligibleFrom;
    if i < |entries| {
      EntryCovers(w, dir, depth, entries[i], i);
      EntriesCover(w, dir, depth, entries, i + 1);
      var a, b := EntryChains(w, dir, depth, entries[i], i), EntriesChains(w, dir, depth, entries, i + 1);
      CoverConcat(w, dir, depth, entries, i, a, b);
    }
  }

  lemma CoverConcat(w: World, dir: cstring, depth: nat, entries: seq<Entry>, i: nat, a: seq<seq<nat>>, b: seq<seq<nat>>)
    requires i < |entries| && Distinct(a) && Distinct(b)
    requires forall chain :: chain in a <==> chain != [] && chain[0] == i && EligibleFrom(w, dir, depth, entries[i], chain)
    requires Covers(w, dir, depth, entries, i + 1, b)
    ensures Distinct(a + b) && Covers(w, dir, depth, entries, i, a + b)
  {
    hide EligibleFrom;
    forall x, y | 0 <= x < y < |a + b| ensures (a + b)[x] != (a + b)[y] {
      if x < |a| <= y {
        assert (a + b)[x] in a && (a + b)[y] in b;
      }
    }
  }

  lemma {:induction false} EntryCovers(w: World, dir: cstring, depth: nat, e: Entry, i: nat)
    requires depth <= MAX_DEPTH
    ensures Distinct(EntryChains(w, dir, depth, e, i))
    ensures forall chain :: chain in EntryChains(w, dir, depth, e, i)
              <==> chain != [] && chain[0] == i && EligibleFrom(w, dir, depth, e, chain)
    decreases MAX_DEPTH + 1 - depth, 0
  {
    hide DirChains, Eligible;
    var child := Join(dir, e.name);
    var chains := EntryChains(w, dir, depth, e, i);
    if e.isDirectory && !e.isReparsePoint && Fits(child) && !Excluded(w, child) {
      DirCovers(w, child, depth + 1);
      var below := DirChains(w, child, depth + 1);
      assert forall x | 0 <= x < |below| :: chains[x][1..] == below[x];
      forall chain ensures chain in chains <==> chain != [] && chain[0] == i && EligibleFrom(w, dir, depth, e, chain) {
        if chain in chains {
          var k :| 0 <= k < |chains| && chains[k] == chain;
          assert below[k] in below;
          NotEmpty(w, child, depth + 1, below[k]);
        }
        if chain != [] && chain[0] == i && EligibleFrom(w, dir, depth, e, chain) {
          assert Eligible(w, child, depth + 1, chain[1..]);
          assert chain[1..] in below;
          var k :| 0 <= k < |below| && below[k] == chain[1..];
          assert chain == [i] + chain[1..] == chains[k];
        }
      }
    } else {
      forall chain ensures chain in chains <==> chain != [] && chain[0] == i && EligibleFrom(w, dir, depth, e, chain) {
        if chain != [] && chain[0] == i && |chain| == 1 {
          assert chain == [i];
        }
      }
    }
  }

  lemma NotEmpty(w: World, dir: cstring, depth: nat, chain: seq<nat>)
    requires Eligible(w, dir, depth, chain)
    ensures chain != []
  {
  }

  // ---- the visits of the walk, position by position ----

  /** The k-th visit is the file at the k-th position. */
  ghost predicate Aligned(w: World, dir: cstring, depth: nat, chains: seq<seq<nat>>, visits: seq<Visit>) {
    && |visits| == |chains|
    && forall k | 0 <= k < |chains| :: Eligible(w, dir, depth, chains[k]) && visits[k] == VisitAt(w, dir, depth, chains[k])
  }

  lemma {:induction false} DirAligned(w: World, dir: cstring, depth: nat)
    requires depth <= MAX_DEPTH + 1
    ensures Aligned(w, dir, depth, DirChains(w, dir, depth), VisitsIn(DirEvents(w, dir, depth)))
    decreases MAX_DEPTH + 1 - depth, 2
  {
    hide Aligned;
    NothingAligned(w, dir, depth);
    if depth <= MAX_DEPTH {
      match w.open(dir) {
        case Failure(_) => NoVisit(PathSkipped(dir));
        case Success(listing) =>
          NoVisit(PathSkipped(dir));
          EntriesAligned(w, dir, depth, 0);
          assert listing.entries[0..] == listing.entries;
          var events := EntriesEvents(w, dir, depth, listing.entries);
          VisitsConcat(events, [PathSkipped(dir)]);
          assert events + [] == events;
          assert VisitsIn(events) + [] == VisitsIn(events);
      }
    }
  }

  lemma NothingAligned(w: World, dir: cstring, depth: nat)
    ensures Aligned(w, dir, depth, [], []) && VisitsIn([]) == []
  {
  }

  lemma NoVisit(e: Event)
    requires !e.Visited?
    ensures VisitsIn([e]) == []
  {
    assert [e][..0] == [];
  }

  lemma {:induction false} EntriesAligned(w: World, dir: cstring, depth: nat, i: nat)
    requires depth <= MAX_DEPTH && w.open(dir).Success? && i <= |w.open(dir).value.entries|
    ensures var entries := w.open(dir).value.entries;
            Aligned(w, dir, depth, EntriesChains(w, dir, depth, entries, i),
                    VisitsIn(EntriesEvents(w, dir, depth, entries[i..])))
    decreases MAX_DEPTH + 1 - depth, 1, |w.open(dir).value.entries| - i
  {
    hide Aligned, EntryChains, EntryEvents;
    var entries := w.open(dir).value.entries;
    NothingAligned(w, dir, depth);
    if i < |entries| {
      EntryAligned(w, dir, depth, i);
      EntriesAligned(w, dir, depth, i + 1);
      assert entries[i..][1..] == entries[i + 1..];
      var a, b := EntryEvents(w, dir, depth, entries[i]), EntriesEvents(w, dir, depth, entries[i + 1..]);
      VisitsConcat(a, b);
      AlignedConcat(w, dir, depth, EntryChains(w, dir, depth, entries[i], i), VisitsIn(a),
                    EntriesChains(w, dir, depth, entries, i + 1), VisitsIn(b));
    }
  }

  lemma AlignedConcat(w: World, dir: cstring, depth: nat,
                      a: seq<seq<nat>>, va: seq<Visit>, b: seq<seq<nat>>, vb: seq<Visit>)
    requires Aligned(w, dir, depth, a, va) && Aligned(w, dir, depth, b, vb)
    ensures Aligned(w, dir, depth, a + b, va + vb)
  {
    hide Eligible, VisitAt;
  }

  lemma {:induction false} EntryAligned(w: World, dir: cstring, depth: nat, i: nat)
    requires depth <= MAX_DEPTH && w.open(dir).Success? && i < |w.open(dir).value.entries|
    ensures var e := w.open(dir).value.entries[i];
            Aligned(w, dir, depth, EntryChains(w, dir, depth, e, i), VisitsIn(EntryEvents(w, dir, depth, e)))
    decreases MAX_DEPTH + 1 - depth, 0
  {
    hide DirChains, DirEvents, Aligned, Excluded, Fits, Join, VisitsIn, Prefixed;
    NothingAligned(w, dir, depth);
    var e := w.open(dir).value.entries[i];
    var child := Join(dir, e.name);
    if !e.isReparsePoint && Fits(child) {
      if !e.isDirectory {
        FileAligned(w, dir, depth, i);
      } else if Excluded(w, child) {
        NoVisit(PathExcluded(child));
      } else {
        DirAligned(w, child, depth + 1);
        PrefixAligned(w, dir, depth, i, DirChains(w, child, depth + 1), VisitsIn(DirEvents(w, child, depth + 1)));
      }
    }
  }

  lemma FileAligned(w: World, dir: cstring, depth: nat, i: nat)
    requires depth <= MAX_DEPTH && w.open(dir).Success? && i < |w.open(dir).value.entries|
    requires var e := w.open(dir).value.entries[i];
             !e.isReparsePoint && Fits(Join(dir, e.name)) && !e.isDirectory
    ensures var e := w.open(dir).value.entries[i];
            Aligned(w, dir, depth, [[i]], VisitsIn([Visited(Visit(Join(dir, e.name), e))]))
  {
    var e := w.open(dir).value.entries[i];
    var event := Visited(Visit(Join(dir, e.name), e));
    assert [event][..0] == [];
    assert EligibleFrom(w, dir, depth, e, [i]);
    assert Eligible(w, dir, depth, [i]);
  }

  lemma PrefixAligned(w: World, dir: cstring, depth: nat, i: nat, chains: seq<seq<nat>>, visits: seq<Visit>)
    requires depth <= MAX_DEPTH && w.open(dir).Success? && i < |w.open(dir).value.entries|
    requires var e := w.open(dir).value.entries[i];
             var child := Join(dir, e.name);
             !e.isReparsePoint && Fits(child) && e.isDirectory && !Excluded(w, child)
             && Aligned(w, child, depth + 1, chains, visits)
    ensures Aligned(w, dir, depth, Prefixed(i, chains), visits)
  {
    hide VisitAt, Eligible, EligibleFrom;
    forall k | 0 <= k < |chains|
      ensures Eligible(w, dir, depth, Prefixed(i, chains)[k])
           && visits[k] == VisitAt(w, dir, depth, Prefixed(i, chains)[k])
    {
      OneStepDown(w, dir, depth, i, chains[k]);
    }
  }

  lemma OneStepDown(w: World, dir: cstring, depth: nat, i: nat, chain: seq<nat>)
    requires depth <= MAX_DEPTH && w.open(dir).Success? && i < |w.open(dir).value.entries|
    requires var e := w.open(dir).value.entries[i];
             var child := Join(dir, e.name);
             !e.isReparsePoint && Fits(child) && e.isDirectory && !Excluded(w, child)
             && Eligible(w, child, depth + 1, chain)
    ensures Eligible(w, dir, depth, [i] + chain)
    ensures VisitAt(w, dir, depth, [i] + chain)
         == VisitAt(w, Join(dir, w.open(dir).value.entries[i].name), depth + 1, chain)
  {
    var e := w.open(dir).value.entries[i];
    var whole := [i] + chain;
    NotEmpty(w, Join(dir, e.name), depth + 1, chain);
    assert whole[1..] == chain && whole[0] == i && |whole| > 1;
    assert EligibleFrom(w, dir, depth, e, whole);
  }

  lemma {:induction false} DistinctCount<T(!new)>(s: seq<T>)
    requires Distinct(s)
    ensures |set x | x in s| == |s|
  {
    if s != [] {
      var n := |s| - 1;
      DistinctCount(s[..n]);
      assert (set x | x in s) == (set x | x in s[..n]) + {s[n]};
    } else {
      assert (set x | x in s) == {};
    }
  }

  /**
    A walk that is not stopped calls the detectors exactly once for each eligible file and for
    nothing else, in the order of the positions.
   */
  lemma WalkVisitsTheSet(w: World)
    requires !Stopped(Run(w))
    ensures var chains, visits := DirChains(w, w.root, 0), VisitsIn(Run(w).log);
            && Distinct(chains)
            && (forall chain :: chain in chains <==> Eligible(w, w.root, 0, chain))
            && Aligned(w, w.root, 0, chains, visits)
            && |visits| == |set chain | chain in chains|
  {
    hide WalkDir, DirEvents, DirChains, Eligible, Distinct;
    DirLog(w, w.root, 0, START);
    assert [] + DirEvents(w, w.root, 0) == DirEvents(w, w.root, 0);
    DirAligned(w, w.root, 0);
    DirCovers(w, w.root, 0);
    DistinctCount(DirChains(w, w.root, 0));
  }
}
