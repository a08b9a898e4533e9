/**
  When the cancel flag is up (src/gui_web/gui_web_app.c, handle_cancel and gui_web_app_shutdown):
  after every interleaving, exactly when the user cancelled or the server shut down while busy and no
  scan was set up since; a worker that polls then sees it.
 */
module WebCancel {
  import opened CText
  import opened WebApp

  /** Cancel and Shutdown both ask a running scan to stop. */
  predicate Asks(a: Action) {
    a.Cancel? || a.Shutdown?
  }

  lemma {:induction false} LastStep(s: State, actions: seq<Action>, a: Action)
    ensures After(s, actions + [a])
         == if After(s, actions).None? then None else Step(After(s, actions).value, a)
    decreases |actions|
  {
    hide Step;
    var all := actions + [a];
    if actions == [] {
      assert all[1..] == [];
      assert Step(s, a).Some? ==> After(Step(s, a).value, []) == Step(s, a);
    } else {
      assert all[1..] == actions[1..] + [a];
      if Step(s, actions[0]).Some? {
        LastStep(Step(s, actions[0]).value, actions[1..], a);
      }
    }
  }

  /** What one step does to the flag. */
  lemma FlagStep(s: State, a: Action)
    requires Step(s, a).Some?
    ensures Step(s, a).value.app.cancel <==> !a.StartSetUp? && (s.app.cancel || (Asks(a) && s.app.busy))
  {
  }

  /** The step that raised the flag: a request to stop in a busy state, and no set-up after it. */
  ghost predicate RaisedAt(actions: seq<Action>, k: nat) {
    && k < |actions| && Asks(actions[k])
    && After(INITIAL, actions[..k]).Some? && After(INITIAL, actions[..k]).value.app.busy
    && forall j | k < j < |actions| :: !actions[j].StartSetUp?
  }

  lemma RaisedSnoc(actions: seq<Action>, a: Action, k: nat)
    ensures k < |actions| ==> (RaisedAt(actions + [a], k) <==> RaisedAt(actions, k) && !a.StartSetUp?)
    ensures k == |actions| && After(INITIAL, actions).Some? ==>
              (RaisedAt(actions + [a], k) <==> Asks(a) && After(INITIAL, actions).value.app.busy)
  {
    hide After;
    var all := actions + [a];
    if k < |actions| {
      assert all[..k] == actions[..k] && all[|actions|] == a;
      assert forall j | k < j < |actions| :: all[j] == actions[j];
    } else if k == |actions| {
      assert all[..k] == actions;
    }
  }

  /** The flag is up if and only if it was raised and no scan has been set up since. */
  lemma {:induction false} FlagIff(actions: seq<Action>)
    requires After(INITIAL, actions).Some?
    ensures After(INITIAL, actions).value.app.cancel <==> exists k :: RaisedAt(actions, k)
    decreases |actions|
  {
    hide After, Step, RaisedAt;
    if actions == [] {
      NeverRaised();
    } else {
      var n := |actions| - 1;
      var (before, a) := (actions[..n], actions[n]);
      assert before + [a] == actions;
      LastStep(INITIAL, before, a);
      FlagIff(before);
      FlagStep(After(INITIAL, before).value, a);
      RaisedSnoc(before, a, n);
      if k :| RaisedAt(before, k) {
        RaisedBefore(before, k);
        RaisedSnoc(before, a, k);
      }
      if k :| RaisedAt(actions, k) {
        RaisedBefore(actions, k);
        RaisedSnoc(before, a, k);
      }
    }
  }

  lemma NeverRaised()
    ensures After(INITIAL, []) == Some(INITIAL) && !INITIAL.app.cancel && forall k :: !RaisedAt([], k)
  {
  }

  lemma RaisedBefore(actions: seq<Action>, k: nat)
    requires RaisedAt(actions, k)
    ensures k < |actions|
  {
  }

  /**
    However the threads are interleaved after a cancel or a shutdown in a busy state, as long as no new
    scan is set up the flag stays up, and the next poll of a worker that scans sees it.
   */
  lemma CancelReachesWorker(before: seq<Action>, ask: Action, rest: seq<Action>)
    requires Asks(ask) && After(INITIAL, before + [ask] + rest).Some?
    requires After(INITIAL, before).Some? && After(INITIAL, before).value.app.busy
    requires forall j | 0 <= j < |rest| :: !rest[j].StartSetUp?
    ensures var s := After(INITIAL, before + [ask] + rest).value;
            && s.app.cancel
            && forall i | 0 <= i < |s.workers| && s.workers[i].Scanning? ::
                 var polled := Step(s, WorkerPoll(i));
                 polled.Some? && i < |polled.value.workers| && polled.value.workers[i].Scanning? && polled.value.workers[i].sawCancel
  {
    hide After, HandlerStep;
    var all := before + [ask] + rest;
    assert all[..|before|] == before && all[|before|] == ask;
    assert forall j | |before| < j < |all| :: all[j] == rest[j - |before| - 1];
    assert RaisedAt(all, |before|);
    FlagIff(all);
    PollIsNoHandlerStep(After(INITIAL, all).value);
  }

  lemma PollIsNoHandlerStep(s: State)
    ensures forall i: nat :: HandlerStep(s, WorkerPoll(i)).None?
  {
  }

  /** A worker has seen a cancel only if one was asked for while it was the scan that ran. */
  lemma {:induction false} SeenWasAsked(actions: seq<Action>)
    requires After(INITIAL, actions).Some?
    ensures var s := After(INITIAL, actions).value;
            s.workers != [] && s.workers[0].Scanning? && s.workers[0].sawCancel ==> s.app.cancel
    decreases |actions|
  {
    hide After, Step, Inv;
    if actions == [] {
      NeverRaised();
    } else {
      var n := |actions| - 1;
      var (before, a) := (actions[..n], actions[n]);
      assert before + [a] == actions;
      LastStep(INITIAL, before, a);
      SeenWasAsked(before);
      InitialInv();
      RunKeepsInv(INITIAL, before);
      SeenStep(After(INITIAL, before).value, a);
    }
  }

  lemma InitialInv()
    ensures Inv(INITIAL)
  {
  }

  ghost predicate SeenIsUp(s: State) {
    s.workers != [] && s.workers[0].Scanning? && s.workers[0].sawCancel ==> s.app.cancel
  }

  lemma SeenStep(s: State, a: Action)
    requires Inv(s) && SeenIsUp(s) && Step(s, a).Some?
    ensures SeenIsUp(Step(s, a).value)
  {
    hide Ownership, ReportedOnce, NoCrossing;
  }
}
