/**
  One scan (usbs_scanner_scan in src/scanner/scanner.c): the walk, then every detector's check or, when
  the walk did not finish, none.
 */
module Scanner {
  import opened CText
  import opened ScanModel
  import opened Detection
  import opened Walk
  import opened WalkSet
  import WalkStops
  import Decimal
  import T = Traversal

  /** A detector runs once over the volume, or is called for each file of the walk. */
  datatype Detector = WholeCheck(id: cstring, run: Check -> Check) | PerFile(id: cstring, onFile: (Check, Visit) -> Check)

  // ---- the checks of a finished and of an unfinished walk ----

  function Slots(registry: seq<Detector>): seq<T.Slot> {
    if registry == [] then []
    else
      var d := registry[|registry| - 1];
      Slots(registry[..|registry| - 1]) + if d.PerFile? then [T.Slot(d.id, d.onFile, InitialCheck(d.id))] else []
  }

  function WholeRan(registry: seq<Detector>): seq<Check> {
    if registry == [] then []
    else
      var d := registry[|registry| - 1];
      WholeRan(registry[..|registry| - 1]) + if d.WholeCheck? then [d.run(InitialCheck(d.id))] else []
  }

  function WholeSkipped(registry: seq<Detector>, reason: cstring): seq<Check> {
    if registry == [] then []
    else
      var d := registry[|registry| - 1];
      WholeSkipped(registry[..|registry| - 1], reason)
      + if d.WholeCheck? then [SetSkipped(InitialCheck(d.id), reason)] else []
  }

  /** A count in decimal. */
  function Number(n: nat): (s: cstring)
    ensures s == Decimal.IntText(n)
  {
    NoNul(n);
    Decimal.IntText(n)
  }

  lemma NoNul(n: nat)
    ensures NUL !in Decimal.IntText(n)
  {
    hide Decimal.Digits;
    forall c | c in Decimal.IntText(n) ensures c != NUL {
      var k :| 0 <= k < |Decimal.Digits(n)| && Decimal.Digits(n)[k] == c;
      assert Decimal.IsDigit(Decimal.Digits(n)[k]);
    }
  }

  const POLICY: cstring := "internal-drive location policy: "
  const GENERATED: cstring := " match(es) in OS-generated "
  const DEPENDENCY: cstring := "or dependency locations not reported, "
  const LOWERED: cstring := " reported at lowered severity"

  function PolicyText(suppressed: nat, lowered: nat): cstring {
    POLICY + Number(suppressed) + GENERATED + DEPENDENCY + Number(lowered) + LOWERED
  }

  /** describe_location_policy: appended to the check's own message, cut to the message's size. */
  function Described(c: Check): Check {
    if (c.suppressed == 0 && c.lowered == 0) || |c.message| + 1 >= 256 then c
    else
      var text: cstring := (if c.message != "" then "; " else "") + PolicyText(c.suppressed, c.lowered);
      c.(message := c.message + Truncated(text, 256 - |c.message|))
  }

  function SlotsRan(slots: seq<T.Slot>, visits: seq<Visit>): (r: seq<Check>)
    ensures |r| == |slots|
    ensures forall i | 0 <= i < |r| :: r[i] == Described(T.After(slots[i], visits))
  {
    seq(|slots|, i requires 0 <= i < |slots| => Described(T.After(slots[i], visits)))
  }

  function SlotsSkipped(slots: seq<T.Slot>, reason: cstring): (r: seq<Check>)
    ensures |r| == |slots|
    ensures forall i | 0 <= i < |r| :: r[i] == SetSkipped(InitialCheck(slots[i].id), reason)
  {
    seq(|slots|, i requires 0 <= i < |slots| => SetSkipped(InitialCheck(slots[i].id), reason))
  }

  const FILES: cstring := " file(s), "
  const BYTES: cstring := " byte(s)"
  const SKIPS: cstring := " location(s) skipped "
  const DENIED: cstring := "(access denied or unavailable)"
  const EXCLUSIONS: cstring := " location(s) excluded "
  const FIXTURES: cstring := "(USB Sentinel test fixtures)"

  function SkipText(skipped: nat): cstring {
    if skipped > 0 then ", " + Number(skipped) + SKIPS + DENIED else ""
  }

  function ExclusionText(excluded: nat): cstring {
    if excluded > 0 then ", " + Number(excluded) + EXCLUSIONS + FIXTURES else ""
  }

  /** The message of file_traversal; cut like every message. */
  function TraversalMessage(outcome: cstring, files: nat, bytes: nat, skipped: nat, excluded: nat): cstring {
    Truncated(outcome + ": " + Number(files) + FILES + Number(bytes) + BYTES + SkipText(skipped) + ExclusionText(excluded), 256)
  }

  function Outcome(t: Trace): cstring {
    if WasCancelled(t) then "cancelled" else if Stopped(t) then "device disconnected" else "completed"
  }

  function TraversalCheck(walked: Status, t: Trace): Check {
    var c := InitialCheck("file_traversal");
    if walked != Fine then SetFailed(c, StatusText(walked))
    else
      var visits := VisitsIn(t.log);
      c.(message := TraversalMessage(Outcome(t), |visits| % T.TWO_TO_THE_64, TotalSize(visits) % T.TWO_TO_THE_64,
                                     SkippedIn(t.log) % T.TWO_TO_THE_64, ExcludedIn(t.log) % T.TWO_TO_THE_64))
  }

  function ReasonFor(walked: Status, cancelled: bool): cstring {
    CStr(if walked != Fine then "volume could not be read"
         else if cancelled then "scan cancelled before this check ran"
         else "device disconnected before this check ran")
  }

  /** Why the detectors of an unfinished walk are skipped. */
  function Reason(walked: Status, t: Trace): cstring {
    ReasonFor(walked, WasCancelled(t))
  }

  /** The walk reached its end: the root opened, nobody cancelled, the device stayed. */
  predicate Complete(w: World) {
    WalkStatus(w) == Fine && !Stopped(Run(w))
  }

  /** The root opened, and in the whole run no poll was answered "cancel" and no probe found the root gone. */
  ghost predicate UndisturbedWalk(w: World) {
    && WalkStatus(w) == Fine
    && (forall n | 0 <= n < Run(w).polls :: !w.cancel(n))
    && (forall n | 0 <= n < Run(w).probes :: w.reachable(n))
  }

  lemma CompleteIff(w: World)
    ensures Complete(w) <==> UndisturbedWalk(w)
  {
    hide Walk.Run, SkippedIn, WalkStops.Found;
    WalkStops.RemovedIff(w);
    WalkStops.CancelledIff(w);
  }

  function Checks(registry: seq<Detector>, w: World): seq<Check> {
    [TraversalCheck(WalkStatus(w), Run(w))] + DetectorChecks(registry, w)
  }

  function DetectorChecks(registry: seq<Detector>, w: World): seq<Check> {
    if Complete(w) then WholeRan(registry) + SlotsRan(Slots(registry), VisitsIn(Run(w).log))
    else
      var reason := Reason(WalkStatus(w), Run(w));
      WholeSkipped(registry, reason) + SlotsSkipped(Slots(registry), reason)
  }

  // ---- the orchestration ----

  method PrepareSlots(registry: seq<Detector>) returns (slots: seq<T.Slot>)
    ensures slots == Slots(registry)
  {
    slots := [];
    for i := 0 to |registry|
      invariant slots == Slots(registry[..i])
    {
      assert registry[..i + 1][..i] == registry[..i];
      if registry[i].PerFile? {
        slots := slots + [T.Slot(registry[i].id, registry[i].onFile, InitialCheck(registry[i].id))];
      }
    }
    assert registry[..|registry|] == registry;
  }

  method RunWholeChecks(registry: seq<Detector>) returns (checks: seq<Check>)
    ensures checks == WholeRan(registry)
  {
    checks := [];
    for i := 0 to |registry|
      invariant checks == WholeRan(registry[..i])
    {
      assert registry[..i + 1][..i] == registry[..i];
      if registry[i].WholeCheck? {
        checks := checks + [registry[i].run(InitialCheck(registry[i].id))];
      }
    }
    assert registry[..|registry|] == registry;
  }

  method SkipWholeChecks(registry: seq<Detector>, reason: cstring) returns (checks: seq<Check>)
    ensures checks == WholeSkipped(registry, reason)
  {
    checks := [];
    for i := 0 to |registry|
      invariant checks == WholeSkipped(registry[..i], reason)
    {
      assert registry[..i + 1][..i] == registry[..i];
      if registry[i].WholeCheck? {
        checks := checks + [SetSkipped(InitialCheck(registry[i].id), reason)];
      }
    }
    assert registry[..|registry|] == registry;
  }

  /** The slots' results, each with the policy described. */
  method CollectSlots(slots: seq<T.Slot>, filled: seq<T.Slot>, ghost visits: seq<Visit>) returns (checks: seq<Check>)
    requires filled == T.SlotsAfter(slots, visits)
    ensures checks == SlotsRan(slots, visits)
  {
    hide Described, T.After;
    checks := [];
    for i := 0 to |filled|
      invariant checks == SlotsRan(slots, visits)[..i]
    {
      checks := checks + [Described(filled[i].result)];
    }
  }

  method SkipSlots(slots: seq<T.Slot>, reason: cstring) returns (checks: seq<Check>)
    ensures checks == SlotsSkipped(slots, reason)
  {
    checks := [];
    for i := 0 to |slots|
      invariant checks == SlotsSkipped(slots, reason)[..i]
    {
      checks := checks + [SetSkipped(InitialCheck(slots[i].id), reason)];
    }
  }

  method DescribeTraversal(walked: Status, state: T.State) returns (c: Check)
    requires state.Valid()
    ensures c == TraversalCheck(walked, state.trace)
  {
    hide VisitsIn, SkippedIn, ExcludedIn, TotalSize, TraversalMessage, StatusText, T.SlotsAfter;
    c := InitialCheck("file_traversal");
    if walked != Fine {
      c := SetFailed(c, StatusText(walked));
    } else {
      var outcome: cstring :=
        if state.cancelled then "cancelled" else if state.deviceRemoved then "device disconnected" else "completed";
      c := c.(message := TraversalMessage(outcome, state.fileCount, state.byteCount,
                                          state.pathsSkipped, state.pathsExcluded));
    }
  }

  /** The walk and the checks of usbs_scanner_scan. */
  method Scan(registry: seq<Detector>, w: World)
    returns (checks: seq<Check>, status: ScanStatus, pathsSkipped: nat, pathsExcluded: nat)
    ensures checks == Checks(registry, w)
    ensures status == Completed <==> UndisturbedWalk(w)
    ensures (forall n: nat :: !w.cancel(n) && w.reachable(n)) ==> status == (if WalkStatus(w) == Fine then Completed else Aborted)
    ensures pathsSkipped == SkippedIn(Run(w).log) % T.TWO_TO_THE_64
    ensures pathsExcluded == ExcludedIn(Run(w).log) % T.TWO_TO_THE_64
  {
    hide Walk.WalkDir, VisitsIn, SkippedIn, ExcludedIn, TotalSize, T.SlotsAfter, Slots, WholeRan, WholeSkipped;
    hide TraversalCheck, SlotsRan, SlotsSkipped, ReasonFor;
    var slots := PrepareSlots(registry);
    var state := new T.State(w, slots);
    var walked := state.WalkDir(w.root, 0);
    assert walked == WalkStatus(w) && state.trace == Run(w);
    var traversal := DescribeTraversal(walked, state);
    pathsSkipped, pathsExcluded := state.pathsSkipped, state.pathsExcluded;
    var incomplete := walked != Fine || state.cancelled || state.deviceRemoved;
    assert incomplete <==> !Complete(w);
    CompleteIff(w);
    if !incomplete {
      var ran := RunWholeChecks(registry);
      var filled := CollectSlots(slots, state.slots, VisitsIn(Run(w).log));
      checks := [traversal] + (ran + filled);
      status := Completed;
    } else {
      var reason := ReasonFor(walked, state.cancelled);
      var skipped := SkipWholeChecks(registry, reason);
      var emptied := SkipSlots(slots, reason);
      checks := [traversal] + (skipped + emptied);
      status := Aborted;
    }
  }

  // ---- the envelope ----

  /** What the registry promises of its detectors: a check keeps its own id. */
  ghost predicate KeepsIds(registry: seq<Detector>) {
    forall d | d in registry ::
      (d.WholeCheck? ==> d.run(InitialCheck(d.id)).id == d.id)
      && (d.PerFile? ==> forall c: Check, v: Visit :: d.onFile(c, v).id == c.id)
  }

  function Ids(checks: seq<Check>): (ids: seq<cstring>)
    ensures |ids| == |checks|
    ensures forall i | 0 <= i < |ids| :: ids[i] == checks[i].id
  {
    seq(|checks|, i requires 0 <= i < |checks| => checks[i].id)
  }

  function DetectorIds(registry: seq<Detector>): (ids: seq<cstring>)
    ensures |ids| == |registry|
    ensures forall i | 0 <= i < |ids| :: ids[i] == registry[i].id
  {
    seq(|registry|, i requires 0 <= i < |registry| => registry[i].id)
  }

  /** The whole-check detectors of a registry in order, and the per-file ones. */
  function Chosen(registry: seq<Detector>, whole: bool): seq<cstring> {
    if registry == [] then []
    else
      var d := registry[|registry| - 1];
      Chosen(registry[..|registry| - 1], whole) + if d.WholeCheck? == whole then [d.id] else []
  }

  lemma {:induction false} ChosenAreAll(registry: seq<Detector>)
    ensures multiset(Chosen(registry, true)) + multiset(Chosen(registry, false)) == multiset(DetectorIds(registry))
    decreases |registry|
  {
    if registry == [] {
      assert DetectorIds(registry) == [];
    } else {
      var n := |registry| - 1;
      ChosenAreAll(registry[..n]);
      assert DetectorIds(registry) == DetectorIds(registry[..n]) + [registry[n].id];
    }
  }

  lemma {:induction false} SlotIds(registry: seq<Detector>)
    ensures |Slots(registry)| == |Chosen(registry, false)|
    ensures forall i | 0 <= i < |Slots(registry)| ::
              var slot := Slots(registry)[i];
              slot.id == Chosen(registry, false)[i] && slot.result == InitialCheck(slot.id)
              && PerFile(slot.id, slot.onFile) in registry
    decreases |registry|
  {
    if registry != [] {
      var n := |registry| - 1;
      SlotIds(registry[..n]);
      var d := registry[n];
      assert d.PerFile? ==> PerFile(d.id, d.onFile) == d && d in registry;
      assert forall e | e in registry[..n] :: e in registry;
    }
  }

  lemma {:induction false} WholeIds(registry: seq<Detector>, reason: cstring)
    requires KeepsIds(registry)
    ensures Ids(WholeRan(registry)) == Chosen(registry, true) == Ids(WholeSkipped(registry, reason))
    ensures forall c | c in WholeSkipped(registry, reason) :: c == Check(c.id, Skipped, Truncated(reason, 128), "", [], 0, 0)
    decreases |registry|
  {
    if registry == [] {
      assert Ids([]) == [];
    } else {
      var n := |registry| - 1;
      assert registry[n] in registry;
      WholeIds(registry[..n], reason);
      IdsSnoc(WholeRan(registry[..n]), registry[n].id);
      IdsSnoc(WholeSkipped(registry[..n], reason), registry[n].id);
    }
  }

  lemma IdsSnoc(checks: seq<Check>, id: cstring)
    ensures forall c: Check | c.id == id :: Ids(checks + [c]) == Ids(checks) + [id]
  {
  }

  lemma {:induction false} AfterKeepsId(slot: T.Slot, visits: seq<Visit>)
    requires forall c: Check, v: Visit :: slot.onFile(c, v).id == c.id
    ensures T.After(slot, visits).id == slot.result.id
    decreases |visits|
  {
    if visits != [] {
      AfterKeepsId(slot, visits[..|visits| - 1]);
    }
  }

  lemma SlotCheckIds(registry: seq<Detector>, visits: seq<Visit>, reason: cstring)
    requires KeepsIds(registry)
    ensures Ids(SlotsRan(Slots(registry), visits)) == Chosen(registry, false)
    ensures Ids(SlotsSkipped(Slots(registry), reason)) == Chosen(registry, false)
  {
    hide Slots, Chosen, T.After;
    SlotIds(registry);
    var slots := Slots(registry);
    forall i | 0 <= i < |slots| ensures Described(T.After(slots[i], visits)).id == slots[i].id {
      AfterKeepsId(slots[i], visits);
    }
  }

  lemma IdsConcat(a: seq<Check>, b: seq<Check>)
    ensures Ids(a + b) == Ids(a) + Ids(b)
  {
  }

  /**
    Every scan reports file_traversal first and then each registered detector exactly once, the
    whole-volume ones before the per-file ones, each kind in the order of the registry.
   */
  lemma EveryDetectorOnce(registry: seq<Detector>, w: World)
    requires KeepsIds(registry)
    ensures var checks := Checks(registry, w);
            && checks[0].id == "file_traversal"
            && Ids(checks[1..]) == Chosen(registry, true) + Chosen(registry, false)
            && multiset(Ids(checks[1..])) == multiset(DetectorIds(registry))
  {
    hide Slots, Chosen, WholeRan, WholeSkipped, Walk.Run, VisitsIn, Reason, TraversalMessage, StatusText;
    var reason := Reason(WalkStatus(w), Run(w));
    var slots, visits := Slots(registry), VisitsIn(Run(w).log);
    WholeIds(registry, reason);
    SlotCheckIds(registry, visits, reason);
    ChosenAreAll(registry);
    IdsConcat(WholeRan(registry), SlotsRan(slots, visits));
    IdsConcat(WholeSkipped(registry, reason), SlotsSkipped(slots, reason));
    assert Checks(registry, w)[1..] == DetectorChecks(registry, w);
  }

  /** Where the check of the i-th detector stands among the detectors' checks. */
  function Place(registry: seq<Detector>, i: nat): nat
    requires i < |registry|
  {
    if registry[i].WholeCheck? then |Chosen(registry[..i], true)|
    else |Chosen(registry, true)| + |Chosen(registry[..i], false)|
  }

  /** What a detector made of its check, file by file. */
  ghost predicate History(d: Detector, visits: seq<Visit>, checks: seq<Check>)
    requires d.PerFile?
  {
    && |checks| == |visits| + 1 && checks[0] == Check(d.id, Ran, "", "", [], 0, 0)
    && forall n | 0 <= n < |visits| :: checks[n + 1] == d.onFile(checks[n], visits[n])
  }

  lemma {:induction false} WholeRanAt(registry: seq<Detector>, i: nat)
    requires i < |registry|
    ensures |WholeRan(registry)| == |Chosen(registry, true)|
    ensures var d, k := registry[i], |Chosen(registry[..i], true)|;
            d.WholeCheck? ==> k < |WholeRan(registry)| && WholeRan(registry)[k] == d.run(Check(d.id, Ran, "", "", [], 0, 0))
    decreases |registry|
  {
    var n := |registry| - 1;
    if i < n {
      WholeRanAt(registry[..n], i);
      assert registry[..n][..i] == registry[..i];
    } else {
      WholeRanCount(registry[..n]);
    }
  }

  lemma {:induction false} WholeRanCount(registry: seq<Detector>)
    ensures |WholeRan(registry)| == |Chosen(registry, true)|
    decreases |registry|
  {
    if registry != [] {
      WholeRanCount(registry[..|registry| - 1]);
    }
  }

  lemma {:induction false} SlotAt(registry: seq<Detector>, i: nat)
    requires i < |registry| && registry[i].PerFile?
    ensures var d, k := registry[i], |Chosen(registry[..i], false)|;
            k < |Slots(registry)| && Slots(registry)[k] == T.Slot(d.id, d.onFile, Check(d.id, Ran, "", "", [], 0, 0))
    decreases |registry|
  {
    var n := |registry| - 1;
    SlotIds(registry[..n]);
    if i < n {
      SlotAt(registry[..n], i);
      assert registry[..n][..i] == registry[..i];
    }
  }

  lemma {:induction false} AfterHasHistory(slot: T.Slot, visits: seq<Visit>) returns (checks: seq<Check>)
    requires slot.result == Check(slot.id, Ran, "", "", [], 0, 0)
    ensures History(PerFile(slot.id, slot.onFile), visits, checks) && checks[|visits|] == T.After(slot, visits)
    decreases |visits|
  {
    if visits == [] {
      checks := [slot.result];
    } else {
      var before := AfterHasHistory(slot, visits[..|visits| - 1]);
      checks := before + [T.After(slot, visits)];
    }
  }

  /** The check of a per-file detector after `visits`. */
  ghost predicate Made(d: Detector, visits: seq<Visit>, c: Check)
    requires d.PerFile?
  {
    exists checks :: History(d, visits, checks) && c == Described(checks[|visits|])
  }

  /**
    After a finished walk each detector's own check is reported: what it makes of the volume, or of the
    files one after the other, from an empty check on.
   */
  lemma FinishedWalkRunsAll(registry: seq<Detector>, w: World, i: nat)
    requires UndisturbedWalk(w) && i < |registry|
    ensures var d, k := registry[i], Place(registry, i);
            && 1 + k < |Checks(registry, w)|
            && (d.WholeCheck? ==> Checks(registry, w)[1 + k] == d.run(Check(d.id, Ran, "", "", [], 0, 0)))
            && (d.PerFile? ==> Made(d, VisitsIn(Run(w).log), Checks(registry, w)[1 + k]))
  {
    hide Slots, Chosen, WholeRan, WholeSkipped, Walk.Run, VisitsIn, TraversalCheck, Described, T.After, Made;
    CompleteIff(w);
    WholeRanAt(registry, i);
    var d, visits := registry[i], VisitsIn(Run(w).log);
    if d.PerFile? {
      SlotAt(registry, i);
      var k := |Chosen(registry[..i], false)|;
      SlotMade(d, Slots(registry)[k], visits);
      assert DetectorChecks(registry, w)[Place(registry, i)] == SlotsRan(Slots(registry), visits)[k];
    }
  }

  lemma SlotMade(d: Detector, slot: T.Slot, visits: seq<Visit>)
    requires d.PerFile? && slot == T.Slot(d.id, d.onFile, Check(d.id, Ran, "", "", [], 0, 0))
    ensures Made(d, visits, Described(T.After(slot, visits)))
  {
    var checks := AfterHasHistory(slot, visits);
    assert PerFile(slot.id, slot.onFile) == d;
  }

  lemma AllSkipped(registry: seq<Detector>, reason: cstring, c: Check)
    requires KeepsIds(registry)
    requires c in WholeSkipped(registry, reason) + SlotsSkipped(Slots(registry), reason)
    ensures c == Check(c.id, Skipped, Truncated(reason, 128), "", [], 0, 0)
  {
    hide Slots, WholeSkipped, KeepsIds;
    WholeIds(registry, reason);
  }

  /** All or nothing: after an unfinished walk every detector is skipped, whatever it had found. */
  lemma UnfinishedWalkSkipsAll(registry: seq<Detector>, w: World, i: nat)
    requires KeepsIds(registry) && !UndisturbedWalk(w) && 1 <= i < |Checks(registry, w)|
    ensures var c := Checks(registry, w)[i];
            && c == Check(c.id, Skipped, c.skipReason, "", [], 0, 0)
            && c.skipReason == if WalkStatus(w) != Fine then "volume could not be read"
                               else if exists n :: 0 <= n < Run(w).polls && w.cancel(n)
                               then "scan cancelled before this check ran"
                               else "device disconnected before this check ran"
  {
    hide Slots, WholeRan, WholeSkipped, SlotsSkipped, SlotsRan, Walk.Run, TraversalCheck, KeepsIds, Reason, ReasonFor;
    var c := Checks(registry, w)[i];
    CompleteIff(w);
    assert c == DetectorChecks(registry, w)[i - 1];
    AllSkipped(registry, Reason(WalkStatus(w), Run(w)), c);
    ReasonIs(w);
  }

  lemma ReasonIs(w: World)
    ensures Truncated(Reason(WalkStatus(w), Run(w)), 128)
         == if WalkStatus(w) != Fine then "volume could not be read"
            else if exists n :: 0 <= n < Run(w).polls && w.cancel(n) then "scan cancelled before this check ran"
            else "device disconnected before this check ran"
  {
    hide Walk.Run, CStr, WalkStatus, WasCancelled;
    WalkStops.CancelledIff(w);
    ReasonText("volume could not be read");
    ReasonText("scan cancelled before this check ran");
    ReasonText("device disconnected before this check ran");
  }

  lemma ReasonText(text: string)
    requires |text| < 128 && NUL !in text
    ensures Truncated(CStr(text), 128) == text
  {
    CStrOfNulFree(text);
  }

  /**
    The message of file_traversal, whose counters have at most twenty digits each, is never cut: the
    outcome, then files before bytes, then the skips and the exclusions where there are any.
   */
  lemma MessageIsComplete(outcome: cstring, files: nat, bytes: nat, skipped: nat, excluded: nat)
    requires |outcome| <= 19
    requires files < T.TWO_TO_THE_64 && bytes < T.TWO_TO_THE_64 && skipped < T.TWO_TO_THE_64 && excluded < T.TWO_TO_THE_64
    ensures var message := TraversalMessage(outcome, files, bytes, skipped, excluded);
            message == outcome + ": " + Number(files) + " file(s), " + Number(bytes) + " byte(s)"
              + (if skipped > 0 then ", " + Number(skipped) + " location(s) skipped " + "(access denied or unavailable)" else "")
              + (if excluded > 0 then ", " + Number(excluded) + " location(s) excluded " + "(USB Sentinel test fixtures)" else "")
  {
    hide Number;
    Decimal.IntTextLength(files);
    Decimal.IntTextLength(bytes);
    Decimal.IntTextLength(skipped);
    Decimal.IntTextLength(excluded);
  }

  /** What file_traversal reports: the failure to open the root, or how far the walk got and what it counted. */
  lemma TraversalTells(registry: seq<Detector>, w: World)
    ensures var c, t := Checks(registry, w)[0], Run(w);
            var outcome := if exists n :: 0 <= n < t.polls && w.cancel(n) then "cancelled"
                           else if exists n :: 0 <= n < t.probes && !w.reachable(n) then "device disconnected"
                           else "completed";
            && c.id == "file_traversal" && c.findings == [] && c.skipReason == "" && c.suppressed == c.lowered == 0
            && (forall error | w.open(w.root) == Failure(error) && error != Fine ::
                  c.status == NotRun && c.message == StatusText(error))
            && (w.open(w.root).Success? ==>
                  && c.status == Ran
                  && c.message == TraversalMessage(outcome, |VisitsIn(t.log)| % T.TWO_TO_THE_64,
                       TotalSize(VisitsIn(t.log)) % T.TWO_TO_THE_64, SkippedIn(t.log) % T.TWO_TO_THE_64,
                       ExcludedIn(t.log) % T.TWO_TO_THE_64))
  {
    hide Walk.Run, VisitsIn, TotalSize, SkippedIn, ExcludedIn, TraversalMessage, DetectorChecks, WalkStops.Found;
    WalkStops.RemovedIff(w);
    WalkStops.CancelledIff(w);
    StatusTexts(WalkStatus(w));
  }

  lemma StatusTexts(s: Status)
    ensures |StatusText(s)| < 256
    ensures StatusText(InvalidArg) == "USBS_ERR_INVALID_ARG" && StatusText(NotFound) == "USBS_ERR_NOT_FOUND"
    ensures StatusText(IoError) == "USBS_ERR_IO" && StatusText(AccessDenied) == "USBS_ERR_ACCESS_DENIED"
    ensures StatusText(NoMemory) == "USBS_ERR_NO_MEMORY" && StatusText(Unsupported) == "USBS_ERR_UNSUPPORTED"
    ensures StatusText(Internal) == "USBS_ERR_INTERNAL"
  {
  }

  /** What the policy did is told after the check's own message, as far as the message has room. */
  lemma PolicyIsTold(c: Check)
    ensures c.suppressed == 0 && c.lowered == 0 ==> Described(c) == c
    ensures c.suppressed + c.lowered > 0 ==>
              var told := c.message + ((if c.message == "" then "" else "; ")
                + ("internal-drive location policy: " + Number(c.suppressed) + " match(es) in OS-generated "
                   + "or dependency locations not reported, " + Number(c.lowered) + " reported at lowered severity"));
              && Described(c) == c.(message := Described(c).message)
              && Described(c).message == if |c.message| >= 255 then c.message
                                         else if |told| <= 255 then told else told[..255]
  {
    hide Number;
    if c.suppressed + c.lowered > 0 && |c.message| < 255 {
      Appended(c.message, (if c.message == "" then "" else "; ") + PolicyText(c.suppressed, c.lowered), 256);
    }
  }

  lemma Appended(message: cstring, text: cstring, cap: nat)
    requires |message| < cap
    ensures var all := message + text;
            message + Truncated(text, cap - |message|) == if |all| < cap then all else all[..cap - 1]
  {
  }
}
