/**
  The state the web handler thread shares with one scan worker (src/gui_web/gui_web_app.c,
  src/gui/gui_worker.c), at the granularity of the mutex's critical sections and of the unlocked
  work between them.
 */
module WebApp {
  import opened CText

  /** A heap-allocated usbs_scan_result_t. */
  type ResultId = nat

  /** The reading of a progress report: which scan's worker wrote it, None for the zeroed record. */
  datatype Progress = Progress(files: nat, bytes: nat, writer: Option<nat>)

  const NO_PROGRESS := Progress(0, 0, None)

  /** The mutex-guarded fields. `cancelFor` names the scan the flag was raised for. */
  datatype Shared = Shared(
    busy: bool,
    done: bool,
    doneStatus: Status,
    doneResult: Option<ResultId>,
    cancel: bool,
    cancelFor: nat,
    progress: Progress)

  const CREATED := Shared(false, false, Fine, None, false, 0, NO_PROGRESS)

  // ---- the critical sections ----

  /** handle_scan_start's second section, once the previous result has been freed. */
  function SetUp(a: Shared): Shared {
    a.(doneResult := None, cancel := false, progress := NO_PROGRESS, busy := true, done := false, doneStatus := Fine)
  }

  function StartFailed(a: Shared): Shared {
    a.(busy := false)
  }

  function RequestCancel(a: Shared, scan: nat): Shared {
    if a.busy then a.(cancel := true, cancelFor := scan) else a
  }

  function OnProgress(a: Shared, p: Progress): Shared {
    a.(progress := p)
  }

  function OnDone(a: Shared, status: Status, result: Option<ResultId>): Shared {
    a.(doneResult := result, doneStatus := status, done := true, busy := false)
  }

  /** The object behind the handlers; each method is one critical section. */
  class App {
    var busy: bool
    var done: bool
    var doneStatus: Status
    var doneResult: Option<ResultId>
    var cancel: bool
    ghost var cancelFor: nat
    var progress: Progress

    ghost function View(): Shared
      reads this
    {
      Shared(busy, done, doneStatus, doneResult, cancel, cancelFor, progress)
    }

    constructor ()
      ensures View() == CREATED
    {
      busy, done, doneStatus, doneResult, cancel, progress := false, false, Fine, None, false, NO_PROGRESS;
      cancelFor := 0;
    }

    method ReadBusy() returns (alreadyBusy: bool)
      ensures alreadyBusy == View().busy
    {
      alreadyBusy := busy;
    }

    /** free_done_result_locked: what the caller must release. */
    method TakeDoneResult() returns (freed: Option<ResultId>)
      modifies this`doneResult
      ensures freed == old(doneResult) && doneResult == None
    {
      freed := doneResult;
      if doneResult.Some? {
        doneResult := None;
      }
    }

    method SetUpScan() returns (freed: Option<ResultId>)
      modifies this
      ensures View() == SetUp(old(View())) && freed == old(doneResult)
      ensures busy && !done && doneStatus == Fine && doneResult == None && !cancel && progress == Progress(0, 0, None)
    {
      freed := TakeDoneResult();
      cancel := false;
      progress := NO_PROGRESS;
      busy := true;
      done := false;
      doneStatus := Fine;
    }

    method ClearBusy()
      modifies this`busy
      ensures View() == StartFailed(old(View())) && !busy
    {
      busy := false;
    }

    method HandleCancel(ghost scan: nat)
      modifies this`cancel, this`cancelFor
      ensures View() == RequestCancel(old(View()), scan)
      ensures old(busy) ==> cancel
      ensures !old(busy) ==> cancel == old(cancel)
    {
      if busy {
        cancel := true;
        cancelFor := scan;
      }
    }

    method OnScanProgress(p: Progress)
      modifies this`progress
      ensures View() == OnProgress(old(View()), p) && progress == p
    {
      progress := p;
    }

    method OnScanDone(status: Status, result: Option<ResultId>) returns (freed: Option<ResultId>)
      modifies this
      ensures View() == OnDone(old(View()), status, result) && freed == old(doneResult)
      ensures !busy && done && doneStatus == status && doneResult == result
      ensures cancel == old(cancel) && progress == old(progress)
    {
      freed := TakeDoneResult();
      doneResult := result;
      doneStatus := status;
      done := true;
      busy := false;
    }

    method ReadForReport() returns (finished: bool, result: Option<ResultId>)
      ensures finished == View().done && result == View().doneResult
    {
      finished, result := done, doneResult;
    }
  }

  // ---- both threads ----

  /** Where the single handler thread is. */
  datatype Handler =
    | Serving
    | StartChecked                     // busy was read false and the mutex released
    | StartReady                       // fields set up, worker not created yet
    | StartRefused                     // the thread could not be created
    | Reporting(result: ResultId)      // building the response from the result, mutex released
    | Stopping                         // shutdown waits for the worker
    | Stopped
    | Gone                             // the shared state has been freed

  /** A scan thread: it allocates its result, scans, and reports exactly once. */
  datatype Worker =
    | Starting(scan: nat)
    | Scanning(scan: nat, result: ResultId, sawCancel: bool)
    | Finished(scan: nat, status: Status, outcome: Option<ResultId>)

  datatype State = State(
    app: Shared,
    handler: Handler,
    workers: seq<Worker>,
    scan: nat,                 // scans set up so far
    live: set<ResultId>,       // allocated results
    freed: set<ResultId>,
    next: ResultId,
    created: seq<nat>,         // scans that got a thread, in order
    reported: seq<nat>,        // scans whose on_done ran, in order
    fault: bool)               // a freed object was touched or freed again

  const INITIAL := State(CREATED, Serving, [], 0, {}, {}, 0, [], [], false)

  datatype Action =
    | StartCheck
    | StartReject
    | StartSetUp
    | StartCreate(created: bool)
    | StartClear
    | Cancel
    | ReportOpen
    | ReportRead
    | ReportClose
    | Shutdown
    | ShutdownPoll
    | FreeApp
    | WorkerAllocate(i: nat, granted: bool)
    | WorkerProgress(i: nat, files: nat, bytes: nat)
    | WorkerPoll(i: nat)
    | WorkerScanned(i: nat, status: Status)
    | WorkerSave(i: nat)
    | WorkerDone(i: nat)

  function Free(s: State, r: Option<ResultId>): State {
    match r
    case None => s
    case Some(id) =>
      if id in s.live then s.(live := s.live - {id}, freed := s.freed + {id}) else s.(fault := true)
  }

  function Touch(s: State, id: ResultId): State {
    if id in s.live then s else s.(fault := true)
  }

  /** Any use of the shared fields; after they are freed that is a fault. */
  function Use(s: State): State {
    if s.handler.Gone? then s.(fault := true) else s
  }

  function SetWorker(s: State, i: nat, w: Worker): State
    requires i < |s.workers|
  {
    s.(workers := s.workers[i := w])
  }

  /** One step of the handler thread; None when it is not at that point. */
  function HandlerStep(s: State, a: Action): Option<State> {
    match (s.handler, a)
    case (Serving, StartCheck) => Some(if s.app.busy then s else s.(handler := StartChecked))
    case (StartChecked, StartReject) => Some(s.(handler := Serving))
    case (StartChecked, StartSetUp) =>
      Some(Free(s, s.app.doneResult).(app := SetUp(s.app), handler := StartReady, scan := s.scan + 1))
    case (StartReady, StartCreate(created)) =>
      Some(if created then
             s.(handler := Serving, workers := s.workers + [Starting(s.scan)], created := s.created + [s.scan])
           else s.(handler := StartRefused))
    case (StartRefused, StartClear) => Some(s.(app := StartFailed(s.app), handler := Serving))
    case (Serving, Cancel) => Some(s.(app := RequestCancel(s.app, s.scan)))
    case (Serving, ReportOpen) =>
      Some(if s.app.done && s.app.doneResult.Some? then s.(handler := Reporting(s.app.doneResult.value)) else s)
    case (Reporting(id), ReportRead) => Some(Touch(s, id))
    case (Reporting(_), ReportClose) => Some(s.(handler := Serving))
    case (Serving, Shutdown) => Some(s.(app := RequestCancel(s.app, s.scan), handler := Stopping))
    case (Stopping, ShutdownPoll) => Some(if s.app.busy then s else s.(handler := Stopped))
    case (Stopped, FreeApp) => Some(Free(s, s.app.doneResult).(app := s.app.(doneResult := None), handler := Gone))
    case _ => None
  }

  /** One step of the i-th worker thread. */
  function WorkerStep(s: State, a: Action): Option<State> {
    match a
    case WorkerAllocate(i, granted) =>
      if i < |s.workers| && s.workers[i].Starting? then
        var w := s.workers[i];
        Some(if granted then
               SetWorker(s, i, Scanning(w.scan, s.next, false)).(live := s.live + {s.next}, next := s.next + 1)
             else SetWorker(s, i, Finished(w.scan, NoMemory, None)))
      else None
    case WorkerProgress(i, files, bytes) =>
      if i < |s.workers| && s.workers[i].Scanning? then
        Some(Use(s.(app := OnProgress(s.app, Progress(files, bytes, Some(s.workers[i].scan))))))
      else None
    case WorkerPoll(i) =>
      if i < |s.workers| && s.workers[i].Scanning? then
        Some(Use(SetWorker(s, i, s.workers[i].(sawCancel := s.workers[i].sawCancel || s.app.cancel))))
      else None
    case WorkerScanned(i, status) =>
      if i < |s.workers| && s.workers[i].Scanning? then
        var w := s.workers[i];
        Some(if status == Fine then SetWorker(s, i, Finished(w.scan, Fine, Some(w.result)))
             else SetWorker(Free(s, Some(w.result)), i, Finished(w.scan, status, None)))
      else None
    case WorkerSave(i) =>
      if i < |s.workers| && s.workers[i].Finished? && s.workers[i].outcome.Some? then
        Some(Use(Touch(s, s.workers[i].outcome.value)))
      else None
    case WorkerDone(i) =>
      if i < |s.workers| && s.workers[i].Finished? then
        var w := s.workers[i];
        Some(Use(Free(s, s.app.doneResult)).(
             app := OnDone(s.app, w.status, w.outcome),
             workers := s.workers[..i] + s.workers[i + 1..],
             reported := s.reported + [w.scan]))
      else None
    case _ => None
  }

  function Step(s: State, a: Action): Option<State> {
    if HandlerStep(s, a).Some? then HandlerStep(s, a) else WorkerStep(s, a)
  }

  /** The state after an interleaving; None when it is not one. */
  function After(s: State, actions: seq<Action>): Option<State>
    decreases |actions|
  {
    if actions == [] then Some(s)
    else
      match Step(s, actions[0])
      case None => None
      case Some(s') => After(s', actions[1..])
  }

  // ---- the invariant ----

  /** The handler is between setting `busy` and creating the worker, or undoing that. */
  ghost predicate SettingUp(s: State) {
    s.handler.StartReady? || s.handler.StartRefused?
  }

  /** The result a worker owns. */
  function Owned(w: Worker): set<ResultId> {
    match w
    case Starting(_) => {}
    case Scanning(_, result, _) => {result}
    case Finished(_, _, outcome) => if outcome.Some? then {outcome.value} else {}
  }

  function OwnedByWorkers(s: State): set<ResultId> {
    if s.workers == [] then {} else Owned(s.workers[0])
  }

  function OwnedByApp(s: State): set<ResultId> {
    if s.app.doneResult.Some? then {s.app.doneResult.value} else {}
  }

  ghost predicate OneWorker(s: State) {
    && |s.workers| <= 1
    && (SettingUp(s) ==> s.app.busy && s.workers == [])
    && (!SettingUp(s) ==> (s.app.busy <==> |s.workers| == 1))
    && (s.workers != [] ==> s.workers[0].scan == s.scan)
  }

  ghost predicate Flags(s: State) {
    && (s.app.done ==> !s.app.busy)
    && (s.app.busy ==> s.app.doneResult.None?)
    && (s.app.doneResult.Some? ==> s.app.done)
    && (s.handler.StartChecked? || s.handler.Stopped? || s.handler.Gone? ==> !s.app.busy)
    && (s.handler.Reporting? ==> s.app.doneResult == Some(s.handler.result))
    && (s.handler.Gone? ==> s.app.doneResult.None?)
    && (s.app.done && !s.handler.Gone? ==> (s.app.doneStatus == Fine <==> s.app.doneResult.Some?))
    && (s.workers != [] && s.workers[0].Finished? ==>
          (s.workers[0].status == Fine <==> s.workers[0].outcome.Some?))
  }

  /** Every allocated result has exactly one owner, and nothing freed is owned. */
  ghost predicate Ownership(s: State) {
    && s.live == OwnedByApp(s) + OwnedByWorkers(s)
    && OwnedByApp(s) !! OwnedByWorkers(s)
    && s.live !! s.freed
    && (forall id | id in s.live || id in s.freed :: id < s.next)
    && (forall id | 0 <= id < s.next :: id in s.live || id in s.freed)
  }

  /** Nothing of an earlier scan is visible to the current one. */
  ghost predicate NoCrossing(s: State) {
    && (s.app.progress.writer.Some? ==> s.app.progress.writer.value == s.scan)
    && (s.app.cancel ==> s.app.cancelFor == s.scan)
    && (s.workers != [] && s.workers[0].Scanning? && s.workers[0].sawCancel ==> s.app.cancelFor == s.scan)
  }

  ghost predicate Ascending(created: seq<nat>, scan: nat) {
    && (forall j, k | 0 <= j < k < |created| :: created[j] < created[k])
    && (forall j | 0 <= j < |created| :: created[j] <= scan)
  }

  lemma AscendingMore(created: seq<nat>, scan: nat)
    requires Ascending(created, scan)
    ensures Ascending(created, scan + 1) && scan + 1 !in created
    ensures scan !in created ==> Ascending(created + [scan], scan)
  {
  }

  /** Each scan that got a thread reports once, in order; only the current one may be outstanding. */
  ghost predicate ReportedOnce(s: State) {
    && s.created == s.reported + (if s.workers != [] then [s.scan] else [])
    && Ascending(s.created, s.scan)
    && (SettingUp(s) ==> s.scan !in s.created)
  }

  ghost predicate Inv(s: State) {
    OneWorker(s) && Flags(s) && Ownership(s) && NoCrossing(s) && ReportedOnce(s) && !s.fault
  }

  lemma HandlerKeepsFlags(s: State, a: Action)
    requires Inv(s) && HandlerStep(s, a).Some?
    ensures var s' := HandlerStep(s, a).value;
            OneWorker(s') && Flags(s') && NoCrossing(s')
  {
    hide Ownership, ReportedOnce;
  }

  lemma HandlerKeepsOwnership(s: State, a: Action)
    requires Inv(s) && HandlerStep(s, a).Some?
    ensures Ownership(HandlerStep(s, a).value) && !HandlerStep(s, a).value.fault
  {
    hide NoCrossing, ReportedOnce;
  }

  lemma HandlerKeepsReported(s: State, a: Action)
    requires Inv(s) && HandlerStep(s, a).Some?
    ensures ReportedOnce(HandlerStep(s, a).value)
  {
    hide NoCrossing, Ownership, Ascending;
    AscendingMore(s.created, s.scan);
  }

  lemma WorkerKeepsFlags(s: State, a: Action)
    requires Inv(s) && WorkerStep(s, a).Some?
    ensures var s' := WorkerStep(s, a).value;
            OneWorker(s') && Flags(s') && NoCrossing(s')
  {
    hide Ownership, ReportedOnce;
  }

  lemma WorkerKeepsOwnership(s: State, a: Action)
    requires Inv(s) && WorkerStep(s, a).Some?
    ensures Ownership(WorkerStep(s, a).value) && !WorkerStep(s, a).value.fault
  {
    hide NoCrossing, ReportedOnce;
  }

  lemma WorkerKeepsReported(s: State, a: Action)
    requires Inv(s) && WorkerStep(s, a).Some?
    ensures ReportedOnce(WorkerStep(s, a).value)
  {
    hide NoCrossing, Ownership, Flags, Ascending;
    AscendingMore(s.created, s.scan);
  }

  lemma StepKeepsInv(s: State, a: Action)
    requires Inv(s) && Step(s, a).Some?
    ensures Inv(Step(s, a).value)
  {
    hide NoCrossing, Ownership, Flags, OneWorker, ReportedOnce, HandlerStep, WorkerStep;
    if HandlerStep(s, a).Some? {
      HandlerKeepsFlags(s, a);
      HandlerKeepsOwnership(s, a);
      HandlerKeepsReported(s, a);
    } else {
      WorkerKeepsFlags(s, a);
      WorkerKeepsOwnership(s, a);
      WorkerKeepsReported(s, a);
    }
  }

  lemma {:induction false} RunKeepsInv(s: State, actions: seq<Action>)
    requires Inv(s) && After(s, actions).Some?
    ensures Inv(After(s, actions).value)
    decreases |actions|
  {
    if actions != [] {
      StepKeepsInv(s, actions[0]);
      RunKeepsInv(Step(s, actions[0]).value, actions[1..]);
    }
  }

  // ---- what holds after every interleaving ----

  /** At most one worker is live, and outside set-up exactly when `busy`; the flags never contradict. */
  lemma AtMostOneWorker(actions: seq<Action>)
    requires After(INITIAL, actions).Some?
    ensures var s := After(INITIAL, actions).value;
            && |s.workers| <= 1
            && (!SettingUp(s) ==> (s.app.busy <==> |s.workers| == 1))
            && (s.app.done ==> !s.app.busy)
            && (s.app.busy ==> s.app.doneResult.None?)
  {
    RunKeepsInv(INITIAL, actions);
  }

  /** Nothing is freed twice or used after being freed, whatever the interleaving. */
  lemma NoFault(actions: seq<Action>)
    requires After(INITIAL, actions).Some?
    ensures !After(INITIAL, actions).value.fault
  {
    RunKeepsInv(INITIAL, actions);
  }

  /** Every result ever allocated is either owned by exactly one side or has been freed. */
  lemma NoResultIsLost(actions: seq<Action>, id: ResultId)
    requires After(INITIAL, actions).Some? && id < After(INITIAL, actions).value.next
    ensures var s := After(INITIAL, actions).value;
            (id in OwnedByApp(s) && id !in OwnedByWorkers(s) && id !in s.freed)
            || (id !in OwnedByApp(s) && id in OwnedByWorkers(s) && id !in s.freed)
            || (id !in OwnedByApp(s) && id !in OwnedByWorkers(s) && id in s.freed)
  {
    RunKeepsInv(INITIAL, actions);
  }

  /** The unlocked check-then-set of `busy` is safe: when the fields are set up, it is still false. */
  lemma CheckThenSetIsSafe(actions: seq<Action>)
    requires After(INITIAL, actions).Some? && After(INITIAL, actions).value.handler.StartChecked?
    ensures var s := After(INITIAL, actions).value; !s.app.busy && s.workers == []
  {
    RunKeepsInv(INITIAL, actions);
  }

  /** No step of either thread frees or replaces the result a report is being built from. */
  lemma ReportedResultStays(actions: seq<Action>, a: Action)
    requires After(INITIAL, actions).Some? && After(INITIAL, actions).value.handler.Reporting?
    requires Step(After(INITIAL, actions).value, a).Some?
    ensures var s := After(INITIAL, actions).value;
            var s' := Step(s, a).value;
            s.handler.result in s.live && s.handler.result in s'.live && s'.app.doneResult == Some(s.handler.result)
  {
    hide After, Step, Inv;
    RunKeepsInv(INITIAL, actions);
    ReportingStays(After(INITIAL, actions).value, a);
  }

  lemma ReportingStays(s: State, a: Action)
    requires Inv(s) && s.handler.Reporting? && Step(s, a).Some?
    ensures var s' := Step(s, a).value;
            s.handler.result in s.live && s.handler.result in s'.live && s'.app.doneResult == Some(s.handler.result)
  {
    hide ReportedOnce, NoCrossing, HandlerStep, WorkerStep;
    NoWorkerSteps(s, a);
    HandlerLeavesReported(s, a);
  }

  lemma HandlerLeavesReported(s: State, a: Action)
    requires Inv(s) && s.handler.Reporting? && HandlerStep(s, a).Some?
    ensures var s' := HandlerStep(s, a).value;
            s.handler.result in s'.live && s'.app.doneResult == Some(s.handler.result)
  {
    hide ReportedOnce, NoCrossing;
  }

  /** A result is reported only while no worker is live. */
  lemma NoWorkerSteps(s: State, a: Action)
    requires Inv(s) && s.handler.Reporting?
    ensures s.workers == [] && WorkerStep(s, a).None?
  {
    hide ReportedOnce, NoCrossing, Ownership;
  }

  /** Progress shown and cancellation seen always belong to the current scan. */
  lemma NothingCrossesScans(actions: seq<Action>)
    requires After(INITIAL, actions).Some?
    ensures var s := After(INITIAL, actions).value;
            && (s.app.progress.writer == None || s.app.progress.writer == Some(s.scan))
            && (s.workers != [] && s.workers[0].Scanning? && s.workers[0].sawCancel ==>
                  s.workers[0].scan == s.app.cancelFor == s.scan)
  {
    RunKeepsInv(INITIAL, actions);
  }

  /** Every scan that got a thread reports exactly once; none is outstanding when none is live. */
  lemma DoneExactlyOnce(actions: seq<Action>)
    requires After(INITIAL, actions).Some?
    ensures var s := After(INITIAL, actions).value;
            && (s.workers == [] ==> s.reported == s.created)
            && (forall j, k | 0 <= j < |s.reported| && 0 <= k < |s.reported| && s.reported[j] == s.reported[k] :: j == k)
            && (forall j | 0 <= j < |s.reported| :: s.reported[j] in s.created)
  {
    RunKeepsInv(INITIAL, actions);
    var s := After(INITIAL, actions).value;
    assert forall j | 0 <= j < |s.reported| :: s.created[j] == s.reported[j];
  }

  /** Shutdown leaves no worker behind, and freeing the state releases every result. */
  lemma ShutdownIsClean(actions: seq<Action>)
    requires After(INITIAL, actions).Some?
    ensures var s := After(INITIAL, actions).value;
            && (s.handler.Stopped? || s.handler.Gone? ==> s.workers == [])
            && (s.handler.Gone? ==> s.live == {} && forall id | 0 <= id < s.next :: id in s.freed)
  {
    RunKeepsInv(INITIAL, actions);
  }
}
