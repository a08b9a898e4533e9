/**
  The registered detectors (src/detectors/registry.c) in one scan: what a finished scan of an internal
  drive says, beside what the strict rules would have said of the same files.
 */
module Registry {
  import opened CText
  import opened ScanModel
  import opened Detection
  import opened Walk
  import opened WalkSet
  import S = Scanner
  import T = Traversal
  import Filename
  import LnkInspect

  /** The scan of one volume: its bus, and what its files deliver when they are opened. */
  datatype Volume = Volume(bus: Bus, contents: cstring -> Option<LnkInspect.Content>)

  function OnName(ctx: Context): (Check, Visit) -> Check {
    (c: Check, visit: Visit) => Filename.Inspected(c, ctx, visit)
  }

  function OnLnk(ctx: Context, v: Volume): (Check, Visit) -> Check {
    (c: Check, visit: Visit) => LnkInspect.Inspected(c, ctx, LnkInspect.FileVisit(visit, v.contents(visit.path)))
  }

  const AUTORUN: cstring := "autorun_inspection"
  const FILENAME: cstring := "suspicious_filename"
  const LNK: cstring := "lnk_inspection"
  const HASH: cstring := "hash_match_example"

  /** Autorun inspection runs once; the others see every file. */
  function Detectors(ctx: Context, v: Volume, autorun: Check -> Check, onHash: (Check, Visit) -> Check): seq<S.Detector> {
    [
      S.WholeCheck(AUTORUN, autorun),
      S.PerFile(FILENAME, OnName(ctx)),
      S.PerFile(LNK, OnLnk(ctx, v)),
      S.PerFile(HASH, onHash)
    ]
  }

  /** What is asked of the two detectors that are not spelled out here. */
  ghost predicate OthersKeepIds(autorun: Check -> Check, onHash: (Check, Visit) -> Check) {
    autorun(InitialCheck(AUTORUN)).id == AUTORUN && forall c: Check, visit: Visit :: onHash(c, visit).id == c.id
  }

  lemma NameKeepsIds(ctx: Context)
    ensures forall c: Check, visit: Visit :: OnName(ctx)(c, visit).id == c.id
  {
    hide Filename.Judge, TunedKind;
    forall c: Check, visit: Visit ensures OnName(ctx)(c, visit).id == c.id {
      assert OnName(ctx)(c, visit) == Filename.Inspected(c, ctx, visit);
    }
  }

  lemma LnkKeepsIds(ctx: Context, v: Volume)
    ensures forall c: Check, visit: Visit :: OnLnk(ctx, v)(c, visit).id == c.id
  {
    hide LnkInspect.Judge, TunedKind;
    forall c: Check, visit: Visit ensures OnLnk(ctx, v)(c, visit).id == c.id {
      var file := LnkInspect.FileVisit(visit, v.contents(visit.path));
      assert OnLnk(ctx, v)(c, visit) == LnkInspect.Inspected(c, ctx, file);
    }
  }

  lemma AllKeepIds(ctx: Context, v: Volume, autorun: Check -> Check, onHash: (Check, Visit) -> Check)
    requires OthersKeepIds(autorun, onHash)
    ensures S.KeepsIds(Detectors(ctx, v, autorun, onHash))
  {
    hide OnName, OnLnk, AUTORUN, FILENAME, LNK, HASH;
    NameKeepsIds(ctx);
    LnkKeepsIds(ctx, v);
    var r := Detectors(ctx, v, autorun, onHash);
    forall d | d in r
      ensures d.WholeCheck? ==> d.run(InitialCheck(d.id)).id == d.id
      ensures d.PerFile? ==> forall c: Check, visit: Visit :: d.onFile(c, visit).id == c.id
    {
      assert d == r[0] || d == r[1] || d == r[2] || d == r[3];
    }
  }

  /** One more detector at the end of a registry. */
  lemma OneMoreDetector(r: seq<S.Detector>, d: S.Detector)
    ensures S.Slots(r + [d])
         == if d.PerFile? then S.Slots(r) + [T.Slot(d.id, d.onFile, InitialCheck(d.id))] else S.Slots(r)
    ensures S.WholeRan(r + [d])
         == if d.WholeCheck? then S.WholeRan(r) + [d.run(InitialCheck(d.id))] else S.WholeRan(r)
    ensures S.Chosen(r + [d], true) == if d.WholeCheck? then S.Chosen(r, true) + [d.id] else S.Chosen(r, true)
    ensures S.Chosen(r + [d], false) == if d.PerFile? then S.Chosen(r, false) + [d.id] else S.Chosen(r, false)
  {
    assert (r + [d])[..|r|] == r;
  }

  lemma NoDetector()
    ensures S.Slots([]) == [] && S.WholeRan([]) == [] && S.Chosen([], true) == [] && S.Chosen([], false) == []
  {
  }

  /** The slots and the checks of one whole-volume detector and three per-file ones. */
  lemma FourDetectors(d0: S.Detector, d1: S.Detector, d2: S.Detector, d3: S.Detector)
    requires d0.WholeCheck? && d1.PerFile? && d2.PerFile? && d3.PerFile?
    ensures var r := [d0, d1, d2, d3];
            && S.Slots(r) == [T.Slot(d1.id, d1.onFile, InitialCheck(d1.id)), T.Slot(d2.id, d2.onFile, InitialCheck(d2.id)),
                              T.Slot(d3.id, d3.onFile, InitialCheck(d3.id))]
            && |S.WholeRan(r)| == 1
            && S.Chosen(r, true) == [d0.id] && S.Chosen(r, false) == [d1.id, d2.id, d3.id]
  {
    hide S.Slots, S.WholeRan, S.Chosen;
    NoDetector();
    OneMoreDetector([], d0);
    OneMoreDetector([d0], d1);
    OneMoreDetector([d0, d1], d2);
    OneMoreDetector([d0, d1, d2], d3);
    assert [] + [d0] == [d0] && [d0] + [d1] == [d0, d1] && [d0, d1] + [d2] == [d0, d1, d2];
    assert [d0, d1, d2] + [d3] == [d0, d1, d2, d3];
  }

  lemma TheDetectors(ctx: Context, v: Volume, autorun: Check -> Check, onHash: (Check, Visit) -> Check)
    ensures var r := Detectors(ctx, v, autorun, onHash);
            && S.Slots(r) == [T.Slot(FILENAME, OnName(ctx), InitialCheck(FILENAME)),
                              T.Slot(LNK, OnLnk(ctx, v), InitialCheck(LNK)),
                              T.Slot(HASH, onHash, InitialCheck(HASH))]
            && |S.WholeRan(r)| == 1
            && S.Chosen(r, true) == [AUTORUN] && S.Chosen(r, false) == [FILENAME, LNK, HASH]
  {
    hide S.Slots, S.WholeRan, S.Chosen, OnName, OnLnk, AUTORUN, FILENAME, LNK, HASH;
    FourDetectors(S.WholeCheck(AUTORUN, autorun), S.PerFile(FILENAME, OnName(ctx)), S.PerFile(LNK, OnLnk(ctx, v)),
                  S.PerFile(HASH, onHash));
  }

  function Lnks(visits: seq<Visit>, v: Volume): (files: seq<LnkInspect.FileVisit>)
    ensures |files| == |visits|
    ensures forall i | 0 <= i < |files| :: files[i] == LnkInspect.FileVisit(visits[i], v.contents(visits[i].path))
  {
    seq(|visits|, i requires 0 <= i < |visits| => LnkInspect.FileVisit(visits[i], v.contents(visits[i].path)))
  }

  lemma {:induction false} NameSlot(slot: T.Slot, ctx: Context, visits: seq<Visit>)
    requires slot.onFile == OnName(ctx)
    ensures T.After(slot, visits) == Filename.InspectedAll(slot.result, ctx, visits)
    decreases |visits|
  {
    hide Filename.Inspected;
    if visits != [] {
      NameSlot(slot, ctx, visits[..|visits| - 1]);
    }
  }

  lemma {:induction false} LnkSlot(slot: T.Slot, ctx: Context, v: Volume, visits: seq<Visit>)
    requires slot.onFile == OnLnk(ctx, v)
    ensures T.After(slot, visits) == LnkInspect.InspectedAll(slot.result, ctx, Lnks(visits, v))
    decreases |visits|
  {
    hide LnkInspect.Inspected;
    if visits != [] {
      LnkSlot(slot, ctx, v, visits[..|visits| - 1]);
      assert Lnks(visits, v)[..|visits| - 1] == Lnks(visits[..|visits| - 1], v);
    }
  }

  /** Describing the policy changes the message alone. */
  lemma DescribedKeeps(c: Check)
    ensures S.Described(c).findings == c.findings && S.Described(c).suppressed == c.suppressed
    ensures S.Described(c).lowered == c.lowered && S.Described(c).status == c.status
  {
  }

  /** The filename and the shortcut check of a finished scan. */
  lemma FinishedChecks(w: World, v: Volume, autorun: Check -> Check, onHash: (Check, Visit) -> Check)
    requires S.Complete(w)
    ensures var ctx := Context(w.root, v.bus);
            var checks := S.Checks(Detectors(ctx, v, autorun, onHash), w);
            var visits := VisitsIn(Run(w).log);
            && |checks| == 5
            && checks[2] == S.Described(Filename.InspectedAll(InitialCheck(FILENAME), ctx, visits))
            && checks[3] == S.Described(LnkInspect.InspectedAll(InitialCheck(LNK), ctx, Lnks(visits, v)))
  {
    hide S.Slots, S.WholeRan, S.Complete, S.TraversalCheck, S.Described, VisitsIn, Walk.Run, T.After;
    hide Filename.InspectedAll, LnkInspect.InspectedAll, Detectors, OnName, OnLnk, AUTORUN, FILENAME, LNK, HASH;
    var ctx := Context(w.root, v.bus);
    var registry := Detectors(ctx, v, autorun, onHash);
    var visits := VisitsIn(Run(w).log);
    TheDetectors(ctx, v, autorun, onHash);
    var slots := S.Slots(registry);
    NameSlot(slots[0], ctx, visits);
    LnkSlot(slots[1], ctx, v, visits);
    var checks := S.Checks(registry, w);
    var ran := S.SlotsRan(slots, visits);
    assert S.DetectorChecks(registry, w) == S.WholeRan(registry) + ran;
    assert checks[2] == ran[0] && checks[3] == ran[1];
  }

  /**
    A finished scan loses no finding without counting it: its filename and shortcut checks, with what
    they count as suppressed, account for every finding the strict rules give on the same files, in
    their order, and the filename check's `lowered` counts exactly its findings below High.
   */
  lemma ScanLosesNothing(w: World, v: Volume, autorun: Check -> Check, onHash: (Check, Visit) -> Check)
    requires S.Complete(w)
    ensures var ctx := Context(w.root, v.bus);
            var checks := S.Checks(Detectors(ctx, v, autorun, onHash), w);
            var visits := VisitsIn(Run(w).log);
            var names := Filename.InspectedAll(InitialCheck(FILENAME), Strict(ctx), visits);
            var links := LnkInspect.InspectedAll(InitialCheck(LNK), Strict(ctx), Lnks(visits, v));
            && |checks| == 5
            && |names.findings| == |checks[2].findings| + checks[2].suppressed
            && checks[2].lowered == BelowHigh(checks[2].findings)
            && Subsequence(Filename.PathsOf(checks[2].findings), Filename.PathsOf(names.findings))
            && |links.findings| == |checks[3].findings| + checks[3].suppressed
            && Subsequence(checks[3].findings, links.findings)
  {
    hide S.Checks, S.Complete, S.Described, VisitsIn, Walk.Run, FILENAME, LNK;
    hide Filename.InspectedAll, LnkInspect.InspectedAll, BelowHigh, Detectors, Subsequence, Filename.PathsOf;
    var ctx := Context(w.root, v.bus);
    var visits := VisitsIn(Run(w).log);
    FinishedChecks(w, v, autorun, onHash);
    DescribedKeeps(Filename.InspectedAll(InitialCheck(FILENAME), ctx, visits));
    DescribedKeeps(LnkInspect.InspectedAll(InitialCheck(LNK), ctx, Lnks(visits, v)));
    Filename.NothingUncounted(ctx, FILENAME, visits);
    LnkInspect.NothingUncounted(ctx, LNK, Lnks(visits, v));
  }

  /** The report of any scan names the traversal and the four detectors, in this order. */
  lemma ReportNamesEveryDetector(w: World, v: Volume, autorun: Check -> Check, onHash: (Check, Visit) -> Check)
    requires OthersKeepIds(autorun, onHash)
    ensures var checks := S.Checks(Detectors(Context(w.root, v.bus), v, autorun, onHash), w);
            && checks[0].id == "file_traversal"
            && S.Ids(checks[1..]) == ["autorun_inspection", "suspicious_filename", "lnk_inspection", "hash_match_example"]
  {
    hide S.DetectorChecks, S.TraversalCheck, S.Chosen, S.Slots, S.WholeRan, S.Ids, S.KeepsIds, Detectors, OnName, OnLnk,
         AUTORUN, FILENAME, LNK, HASH, OthersKeepIds;
    var ctx := Context(w.root, v.bus);
    AllKeepIds(ctx, v, autorun, onHash);
    S.EveryDetectorOnce(Detectors(ctx, v, autorun, onHash), w);
    TheDetectors(ctx, v, autorun, onHash);
    IdsAre();
  }

  lemma IdsAre()
    ensures AUTORUN == "autorun_inspection" && FILENAME == "suspicious_filename" && LNK == "lnk_inspection"
    ensures HASH == "hash_match_example"
  {
  }
}
