/** The object behind the steps: a map of entries and the counters and flags that
    its asynchronous continuations update. `runs` and `callers` stand for the
    entry objects and promises the source allocates, in order of creation. */
module WebViewSessions {
  import opened Wrappers
  import opened SessionSteps
  import T = SessionTheorems

  class WebViewSessions {
    var pending: map<string, nat>
    var runs: seq<Run>
    var callers: seq<Caller>
    var closed: bool

    constructor ()
      ensures View() == Initial() && Valid()
    {
      pending, runs, callers, closed := map[], [], [], false;
    }

    function View(): Sessions
      reads this
    {
      Sessions(pending, runs, callers, closed)
    }

    ghost predicate Valid()
      reads this
    {
      Inv(View())
    }

    /** check() up to its first await. */
    method Check(origin: string, interactive: bool, state: string, aborted: bool) returns (id: nat)
      requires Valid()
      modifies this`callers
      ensures Valid() && View() == DoCheck(old(View()), Event.Check(origin, interactive, state, aborted))
      ensures id == old(|callers|)
    {
      CheckKeeps(View(), Event.Check(origin, interactive, state, aborted));
      id := |callers|;
      var stopped := aborted || closed;
      callers := callers + [Caller(origin, interactive, state, stopped, if stopped then Answered(Cancelled) else Resolving)];
    }

    method Subscribe(id: nat, run: nat, forSession: bool)
      requires id < |callers| && run < |runs|
      modifies this`callers, this`runs
      ensures View() == SessionSteps.Subscribe(old(View()), id, if forSession then Joined(run) else Waiting(run))
    {
      runs := runs[run := runs[run].(users := runs[run].users + 1)];
      callers := callers[id := callers[id].(progress := if forSession then Joined(run) else Waiting(run))];
    }

    /** The finish closure of subscribe(). */
    method Finish(id: nat, next: Progress)
      requires id < |callers| && Subscribed(callers[id]) && callers[id].progress.run < |runs|
      modifies this`callers, this`runs
      ensures View() == SessionSteps.Finish(old(View()), id, next)
    {
      var r := callers[id].progress.run;
      callers := callers[id := callers[id].(progress := next)];
      var users := runs[r].users - 1;
      runs := runs[r := runs[r].(users := users)];
      if users == 0 { runs := runs[r := runs[r].(aborted := true)]; }
    }

    /** check() once the address is resolved. */
    method Resolve(id: nat)
      requires Valid()
      modifies this
      ensures Valid() && View() == DoResolve(old(View()), id)
    {
      ResolveKeeps(View(), id);
      if id >= |callers| || !callers[id].progress.Resolving? { return; }
      var c := callers[id];
      if c.cancelled {
        callers := callers[id := c.(progress := Answered(Cancelled))];
        return;
      }
      if c.origin in pending {
        var entry := runs[pending[c.origin]];
        if entry.aborted || (c.interactive && !entry.interactive) || entry.state != c.state {
          Subscribe(id, pending[c.origin], false);
          return;
        }
      } else {
        runs := runs + [Run(c.origin, c.interactive, c.state, 0, false, Active, None)];
        pending := pending[c.origin := |runs| - 1];
      }
      Subscribe(id, pending[c.origin], true);
    }

    method Refuse(id: nat)
      requires Valid()
      modifies this`callers
      ensures Valid() && View() == DoRefuse(old(View()), id)
    {
      StepKeeps(View(), Event.Refuse(id));
      if id < |callers| && callers[id].progress.Resolving? {
        callers := callers[id := callers[id].(progress := Answered(Failed))];
      }
    }

    method Settle(run: nat, session: Option<string>)
      requires Valid()
      modifies this`runs
      ensures Valid() && View() == DoSettle(old(View()), run, session)
    {
      SettleKeeps(View(), run, session);
      if run < |runs| && runs[run].phase.Active? {
        runs := runs[run := runs[run].(phase := Settled, session := session)];
      }
    }

    /** The finally callback; `owned` is the value of its guard. */
    method Clear(run: nat) returns (owned: bool)
      requires Valid() && run < |runs| && runs[run].phase.Settled?
      modifies this`runs, this`pending
      ensures Valid() && View() == DoClear(old(View()), run)
      ensures owned && runs[run].origin !in pending
    {
      ClearKeeps(View(), run);
      GuardAlwaysHolds(View(), run);
      var origin := runs[run].origin;
      owned := origin in pending && pending[origin] == run;
      if owned { pending := pending - {origin}; }
      runs := runs[run := runs[run].(phase := Cleared)];
    }

    /** The end of a run reaches one subscriber. */
    method Deliver(id: nat)
      requires Valid()
      modifies this`callers, this`runs
      ensures Valid() && View() == DoDeliver(old(View()), id)
      ensures forall a :: T.HasAnswer(View(), id, a) <==>
                          T.HasAnswer(old(View()), id, a) || T.Gives(old(View()), Event.Deliver(id), id, a)
    {
      DeliverKeeps(View(), id);
      forall a { T.AnswerStep(View(), Event.Deliver(id), id, a); }
      if id >= |callers| || !Subscribed(callers[id]) { return; }
      assert CallerOk(View(), callers[id]);
      var r := callers[id].progress.run;
      if !runs[r].phase.Cleared? { return; }
      if callers[id].progress.Waiting? {
        Finish(id, Resolving);
      } else {
        var session := runs[r].session;
        Finish(id, Answered(if session.Some? then Session(r, session.value) else Failed));
      }
    }

    method Cancel(id: nat)
      requires Valid()
      modifies this`callers, this`runs
      ensures Valid() && View() == DoCancel(old(View()), id)
    {
      CancelKeeps(View(), id);
      if id >= |callers| { return; }
      assert CallerOk(View(), callers[id]);
      callers := callers[id := callers[id].(cancelled := true)];
      if Subscribed(callers[id]) { Finish(id, Answered(Cancelled)); }
    }

    /** close(): the abort reaches the callers one by one. */
    method Close()
      requires Valid()
      modifies this
      ensures Valid() && View() == DoClose(old(View()))
      ensures forall c | c in callers :: c.cancelled && !Subscribed(c)
    {
      ghost var start := View();
      CloseKeeps(start);
      CancelIgnoresClosed(start, 0);
      var i := 0;
      while i < |callers|
        invariant i <= |callers| && Valid()
        invariant closed == start.closed
        invariant CancelFrom(start, 0) == CancelFrom(View(), i)
      {
        Cancel(i);
        i := i + 1;
      }
      closed := true;
      forall c | c in callers ensures c.cancelled && !Subscribed(c) {
        var j :| 0 <= j < |callers| && callers[j] == c;
        assert CallerOk(View(), callers[j]);
      }
    }
  }
}
