/**
  The request handlers and the scan thread's callbacks (src/gui_web/gui_web_app.c), each a whole,
  put together from the critical sections: undisturbed, each is a run of the two-thread machine.
 */
module WebHandlers {
  import opened CText
  import opened ScanModel
  import opened WebApp
  import J = JsonSyntax
  import Report
  import WebJson

  /** The machine in a state in which the handler thread is idle and the shared fields are `app`. */
  ghost predicate Idle(s: State, app: Shared) {
    s.handler.Serving? && s.app == app
  }

  /** `actions` lead from `s` to a state in which the handler thread is idle and the fields are `app`. */
  ghost predicate LeadsTo(s: State, actions: seq<Action>, app: Shared) {
    After(s, actions).Some? && Idle(After(s, actions).value, app)
  }

  lemma Continue(s: State, a: Action, rest: seq<Action>)
    ensures After(s, [a] + rest) == if Step(s, a).None? then None else After(Step(s, a).value, rest)
  {
    hide Step;
    assert ([a] + rest)[1..] == rest;
  }

  lemma Arrived(s: State)
    ensures After(s, []) == Some(s)
  {
  }

  lemma {:induction false} AfterConcat(s: State, a: seq<Action>, b: seq<Action>)
    ensures After(s, a + b) == if After(s, a).None? then None else After(After(s, a).value, b)
    decreases |a|
  {
    hide Step;
    if a == [] {
      assert a + b == b;
    } else {
      assert (a + b)[1..] == a[1..] + b;
      if Step(s, a[0]).Some? {
        AfterConcat(Step(s, a[0]).value, a[1..], b);
      }
    }
  }

  /** One step before others. */
  lemma Steps(s: State, a: Action, b: seq<Action>, t: State)
    requires Step(s, a) == Some(t)
    ensures After(s, [a] + b) == After(t, b)
    ensures b == [] ==> After(s, [a]) == Some(t)
  {
    hide Step;
    Continue(s, a, b);
    Arrived(t);
    if b == [] {
      assert [a] + b == [a];
    }
  }

  // ---- starting a scan ----

  /** What the handler finds out about a request between the two critical sections, and after them. */
  datatype Request = Request(named: bool, found: bool, mounted: bool, allocates: bool, creates: bool)

  /** The steps of handling a start. */
  function StartSteps(q: Request, busy: bool): seq<Action> {
    if !q.named then []
    else if busy then [StartCheck]
    else if !q.found || !q.mounted || !q.allocates then [StartCheck, StartReject]
    else if q.creates then [StartCheck, StartSetUp, StartCreate(true)]
    else [StartCheck, StartSetUp, StartCreate(false), StartClear]
  }

  function StartResult(a: Shared, q: Request): Shared {
    if !q.named || a.busy || !q.found || !q.mounted || !q.allocates then a
    else if q.creates then SetUp(a) else StartFailed(SetUp(a))
  }

  /** The critical sections of a start, in a row, are a run of the machine. */
  lemma StartLeads(s: State, a: Shared, q: Request)
    requires Idle(s, a)
    ensures LeadsTo(s, StartSteps(q, a.busy), StartResult(a, q))
  {
    hide After, SetUp, StartFailed;
    Arrived(s);
    if q.named {
      var checked := Step(s, StartCheck).value;
      if a.busy {
        Steps(s, StartCheck, [], checked);
      } else if !q.found || !q.mounted || !q.allocates {
        var rejected := Step(checked, StartReject).value;
        Steps(s, StartCheck, [StartReject], checked);
        Steps(checked, StartReject, [], rejected);
        assert [StartCheck] + [StartReject] == [StartCheck, StartReject];
      } else {
        SetUpLeads(s, a, q.creates);
        assert [StartCheck, StartSetUp, StartCreate(true)] + [] == [StartCheck, StartSetUp, StartCreate(true)];
        assert [StartCheck, StartSetUp, StartCreate(false)] + [StartClear]
            == [StartCheck, StartSetUp, StartCreate(false), StartClear];
      }
    }
  }

  lemma SetUpLeads(s: State, a: Shared, creates: bool)
    requires Idle(s, a) && !a.busy
    ensures var end := if creates then [] else [StartClear];
            LeadsTo(s, [StartCheck, StartSetUp, StartCreate(creates)] + end,
                    if creates then SetUp(a) else StartFailed(SetUp(a)))
  {
    hide After, SetUp, StartFailed;
    var end := if creates then [] else [StartClear];
    var checked := Step(s, StartCheck).value;
    var ready := Step(checked, StartSetUp).value;
    var made := Step(ready, StartCreate(creates)).value;
    Steps(s, StartCheck, [StartSetUp, StartCreate(creates)] + end, checked);
    Steps(checked, StartSetUp, [StartCreate(creates)] + end, ready);
    Steps(ready, StartCreate(creates), end, made);
    assert [StartCheck, StartSetUp, StartCreate(creates)] + end == [StartCheck] + ([StartSetUp, StartCreate(creates)] + end);
    assert [StartSetUp, StartCreate(creates)] + end == [StartSetUp] + ([StartCreate(creates)] + end);
    if creates {
      Arrived(made);
    } else {
      Steps(made, StartClear, [], Step(made, StartClear).value);
    }
  }

  /**
    handle_scan_start: a request that is turned down leaves the fields and the last result as they
    were; one that gets as far as the set-up drops the last result, and is busy exactly when it is
    accepted.
   */
  method HandleScanStart(app: App, q: Request, ghost s: State) returns (code: nat, freed: Option<ResultId>)
    requires Idle(s, app.View())
    modifies app
    ensures code == if !q.named then 400 else if old(app.busy) then 409 else if !q.found then 404
                    else if !q.mounted then 409 else if q.allocates && q.creates then 202 else 500
    ensures code in {400, 404, 409} || !q.allocates ==> app.View() == old(app.View()) && freed == None
    ensures code == 202 ==> app.busy && !app.done && app.doneResult == None && freed == old(app.doneResult)
    ensures code == 500 ==> !app.busy
    ensures LeadsTo(s, StartSteps(q, old(app.busy)), app.View())
  {
    hide After;
    StartLeads(s, app.View(), q);
    code, freed := 202, None;
    if !q.named {
      return 400, None;
    }
    var alreadyBusy := app.ReadBusy();
    if alreadyBusy {
      return 409, None;
    }
    if !q.found {
      return 404, None;
    }
    if !q.mounted {
      return 409, None;
    }
    if !q.allocates {
      return 500, None;
    }
    freed := app.SetUpScan();
    if !q.creates {
      app.ClearBusy();
      code := 500;
    }
  }

  // ---- the last report ----

  function ReportSteps(app: Shared): seq<Action> {
    if app.done && app.doneResult.Some? then [ReportOpen, ReportRead, ReportClose] else [ReportOpen]
  }

  lemma ReportLeads(s: State, a: Shared)
    requires Idle(s, a)
    ensures LeadsTo(s, ReportSteps(a), a)
  {
    hide After;
    var opening := Step(s, ReportOpen).value;
    Steps(s, ReportOpen, [], opening);
    if a.done && a.doneResult.Some? {
      var read := Step(opening, ReportRead).value;
      Steps(s, ReportOpen, [ReportRead, ReportClose], opening);
      Steps(opening, ReportRead, [ReportClose], read);
      Steps(read, ReportClose, [], Step(read, ReportClose).value);
      assert [ReportOpen] + [ReportRead, ReportClose] == [ReportOpen, ReportRead, ReportClose];
      assert [ReportRead] + [ReportClose] == [ReportRead, ReportClose];
    }
  }

  /** handle_report: the JSON report of the last scan's result, when there is one; it never fails. */
  method HandleReport(app: App, results: ResultId -> ScanResult, version: cstring, ghost s: State)
    returns (answer: Option<string>)
    requires Idle(s, app.View())
    ensures answer == if app.done && app.doneResult.Some?
                      then Some(J.Render(Report.ReportTree(results(app.doneResult.value), version))) else None
    ensures LeadsTo(s, ReportSteps(app.View()), app.View())
  {
    hide After, J.Render, Report.ReportTree;
    ReportLeads(s, app.View());
    var finished, result := app.ReadForReport();
    if !finished || result.None? {
      return None;
    }
    var text := Report.BuildJson(results(result.value), version);
    return Some(text.value);
  }

  /** handle_progress: the text of the fields as they are when the mutex is held. */
  method HandleProgress(app: App) returns (answer: string)
    ensures answer == J.Render(J.Object(WebJson.ProgressMembers(app.busy, app.done, app.progress.files,
                                                                app.progress.bytes, app.doneStatus)))
  {
    var text := WebJson.BuildProgress(app.busy, app.done, app.progress.files, app.progress.bytes, app.doneStatus);
    return text.value;
  }

  // ---- the callbacks of a scan thread ----

  /** What the scan reports while it runs, and how it ends. */
  datatype Course = Course(allocates: bool, reports: seq<(nat, nat)>, status: Status)

  function Progressed(reports: seq<(nat, nat)>): seq<Action> {
    seq(|reports|, i requires 0 <= i < |reports| => WorkerProgress(0, reports[i].0, reports[i].1))
  }

  /** The steps of the only worker, from its allocation to the end of on_scan_done. */
  function ThreadSteps(c: Course): seq<Action> {
    if !c.allocates then [WorkerAllocate(0, false), WorkerDone(0)]
    else [WorkerAllocate(0, true)] + Progressed(c.reports) + [WorkerScanned(0, c.status), WorkerDone(0)]
  }

  /** The worker has its result, and the shared fields are `app`. */
  ghost predicate Running(s: State, app: Shared, scan: nat, result: ResultId) {
    s.workers == [Scanning(scan, result, false)] && s.app == app
  }

  /** One call of on_scan_progress. */
  lemma ProgressStep(s: State, app: Shared, scan: nat, result: ResultId, files: nat, bytes: nat)
    requires Running(s, app, scan, result)
    ensures var t := Step(s, WorkerProgress(0, files, bytes));
            t.Some? && Running(t.value, OnProgress(app, Progress(files, bytes, Some(scan))), scan, result)
  {
  }

  /** The scan's end: a result that is not delivered is freed by the thread. */
  lemma DoneSteps(s: State, app: Shared, scan: nat, result: ResultId, status: Status)
    requires Running(s, app, scan, result)
    ensures var t := After(s, [WorkerScanned(0, status), WorkerDone(0)]);
            && t.Some? && t.value.workers == []
            && t.value.app == OnDone(app, status, if status == Fine then Some(result) else None)
  {
    hide After;
    var scanned := Step(s, WorkerScanned(0, status)).value;
    Steps(s, WorkerScanned(0, status), [WorkerDone(0)], scanned);
    Steps(scanned, WorkerDone(0), [], Step(scanned, WorkerDone(0)).value);
    assert [WorkerScanned(0, status)] + [WorkerDone(0)] == [WorkerScanned(0, status), WorkerDone(0)];
  }

  lemma NoMemorySteps(s: State, app: Shared, scan: nat)
    requires s.app == app && s.workers == [Starting(scan)]
    ensures var t := After(s, [WorkerAllocate(0, false), WorkerDone(0)]);
            t.Some? && t.value.workers == [] && t.value.app == OnDone(app, NoMemory, None)
  {
    hide After;
    var refused := Step(s, WorkerAllocate(0, false)).value;
    Steps(s, WorkerAllocate(0, false), [WorkerDone(0)], refused);
    Steps(refused, WorkerDone(0), [], Step(refused, WorkerDone(0)).value);
    assert [WorkerAllocate(0, false)] + [WorkerDone(0)] == [WorkerAllocate(0, false), WorkerDone(0)];
  }

  lemma AllocateStep(s: State, app: Shared, scan: nat) returns (t: State)
    requires s.app == app && s.workers == [Starting(scan)]
    ensures After(s, [WorkerAllocate(0, true)]) == Some(t) && Running(t, app, scan, s.next)
  {
    hide After;
    t := Step(s, WorkerAllocate(0, true)).value;
    Steps(s, WorkerAllocate(0, true), [], t);
  }

  /** One more call of on_scan_progress at the end of a run. */
  lemma ProgressSnoc(s: State, steps: seq<Action>, t: State, app: Shared, scan: nat, result: ResultId, files: nat, bytes: nat)
    returns (t': State)
    requires After(s, steps) == Some(t) && Running(t, app, scan, result)
    ensures After(s, steps + [WorkerProgress(0, files, bytes)]) == Some(t')
    ensures Running(t', OnProgress(app, Progress(files, bytes, Some(scan))), scan, result)
  {
    hide After, Running, OnProgress, Step;
    ProgressStep(t, app, scan, result, files, bytes);
    t' := Step(t, WorkerProgress(0, files, bytes)).value;
    Steps(t, WorkerProgress(0, files, bytes), [], t');
    AfterConcat(s, steps, [WorkerProgress(0, files, bytes)]);
  }

  /**
    The calls the scan thread makes back: the fields show the last progress reported while it runs,
    and in the end its status and its result, if it is given one; the last result is handed out.
   */
  method RunScan(app: App, c: Course, scan: nat, result: ResultId, ghost s: State) returns (freed: Option<ResultId>)
    requires s.app == app.View() && s.workers == [Starting(scan)] && s.next == result
    modifies app
    ensures !app.busy && app.done && app.doneStatus == if c.allocates then c.status else NoMemory
    ensures app.doneResult == if c.allocates && c.status == Fine then Some(result) else None
    ensures freed == old(app.doneResult)
    ensures var t := After(s, ThreadSteps(c));
            t.Some? && t.value.app == app.View() && t.value.workers == []
  {
    hide After, Running, Step;
    if !c.allocates {
      NoMemorySteps(s, app.View(), scan);
      freed := app.OnScanDone(NoMemory, None);
      return;
    }
    ghost var steps := [WorkerAllocate(0, true)];
    ghost var t := AllocateStep(s, app.View(), scan);
    for i := 0 to |c.reports|
      invariant steps == [WorkerAllocate(0, true)] + Progressed(c.reports)[..i]
      invariant After(s, steps) == Some(t) && Running(t, app.View(), scan, result)
      invariant app.doneResult == old(app.doneResult)
    {
      var (files, bytes) := c.reports[i];
      t := ProgressSnoc(s, steps, t, app.View(), scan, result, files, bytes);
      app.OnScanProgress(Progress(files, bytes, Some(scan)));
      steps := steps + [WorkerProgress(0, files, bytes)];
    }
    DoneSteps(t, app.View(), scan, result, c.status);
    AfterConcat(s, steps, [WorkerScanned(0, c.status), WorkerDone(0)]);
    assert Progressed(c.reports)[..|c.reports|] == Progressed(c.reports);
    freed := app.OnScanDone(c.status, if c.status == Fine then Some(result) else None);
  }
}
