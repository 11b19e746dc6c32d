/** The shared session checks of components/content/webview.ts as steps between
    await points. A run is one helper process; callers share it, cancel on their
    own, and wait for it to end when it does not suit them. */
module SessionSteps {
  import opened Wrappers

  /** Unsettled, settled with its finally callback still queued, or gone. */
  datatype Phase = Active | Settled | Cleared

  datatype Run = Run(origin: string, interactive: bool, state: string, users: int, aborted: bool,
                     phase: Phase, session: Option<string>)

  datatype Answer = Session(run: nat, session: string) | Failed | Cancelled

  /** A call of check(): resolving its address, subscribed to a run in order to
      return its session or only to wait for its end, or answered. */
  datatype Progress = Resolving | Joined(run: nat) | Waiting(run: nat) | Answered(answer: Answer)

  datatype Caller = Caller(origin: string, interactive: bool, state: string, cancelled: bool, progress: Progress)

  datatype Sessions = Sessions(pending: map<string, nat>, runs: seq<Run>, callers: seq<Caller>, closed: bool)

  datatype Event =
    | Check(origin: string, interactive: bool, state: string, aborted: bool)
    | Refuse(caller: nat)
    | Resolve(caller: nat)
    | Settle(run: nat, session: Option<string>)
    | Clear(run: nat)
    | Deliver(caller: nat)
    | Cancel(caller: nat)
    | Close

  function Initial(): Sessions {
    Sessions(map[], [], [], false)
  }

  predicate SubscribedTo(c: Caller, run: nat) {
    (c.progress.Joined? || c.progress.Waiting?) && c.progress.run == run
  }

  predicate Subscribed(c: Caller) {
    c.progress.Joined? || c.progress.Waiting?
  }

  predicate Suits(c: Caller, run: Run) {
    c.origin == run.origin && c.state == run.state && (c.interactive ==> run.interactive)
  }

  function SetProgress(s: Sessions, i: nat, p: Progress): Sessions
    requires i < |s.callers|
  {
    s.(callers := s.callers[i := s.callers[i].(progress := p)])
  }

  /** subscribe(): one more user. */
  function Subscribe(s: Sessions, i: nat, p: Progress): Sessions
    requires i < |s.callers| && (p.Joined? || p.Waiting?) && p.run < |s.runs|
  {
    var run := s.runs[p.run];
    SetProgress(s, i, p).(runs := s.runs[p.run := run.(users := run.users + 1)])
  }

  /** finish(): one user fewer, and the last one aborts the run. */
  function Finish(s: Sessions, i: nat, p: Progress): Sessions
    requires i < |s.callers| && Subscribed(s.callers[i]) && s.callers[i].progress.run < |s.runs|
  {
    var r := s.callers[i].progress.run;
    var run := s.runs[r];
    var left := run.users - 1;
    SetProgress(s, i, p).(runs := s.runs[r := run.(users := left, aborted := run.aborted || left == 0)])
  }

  function DoCheck(s: Sessions, e: Event): Sessions
    requires e.Check?
  {
    var stopped := e.aborted || s.closed;
    s.(callers := s.callers + [Caller(e.origin, e.interactive, e.state, stopped,
                                      if stopped then Answered(Cancelled) else Resolving)])
  }

  /** From the resolved address to the subscription, with no await between. */
  function DoResolve(s: Sessions, i: nat): Sessions {
    if i >= |s.callers| || !s.callers[i].progress.Resolving? then s
    else
      var c := s.callers[i];
      if c.cancelled then SetProgress(s, i, Answered(Cancelled))
      else if c.origin in s.pending then
        var r := s.pending[c.origin];
        if r >= |s.runs| then s
        else
          var entry := s.runs[r];
          if entry.aborted || (c.interactive && !entry.interactive) || entry.state != c.state
          then Subscribe(s, i, Waiting(r))
          else Subscribe(s, i, Joined(r))
      else
        var r := |s.runs|;
        var started := s.(runs := s.runs + [Run(c.origin, c.interactive, c.state, 0, false, Active, None)],
                          pending := s.pending[c.origin := r]);
        Subscribe(started, i, Joined(r))
  }

  function DoRefuse(s: Sessions, i: nat): Sessions {
    if i >= |s.callers| || !s.callers[i].progress.Resolving? then s else SetProgress(s, i, Answered(Failed))
  }

  function DoSettle(s: Sessions, r: nat, session: Option<string>): Sessions {
    if r >= |s.runs| || !s.runs[r].phase.Active? then s
    else s.(runs := s.runs[r := s.runs[r].(phase := Settled, session := session)])
  }

  predicate OwnsEntry(s: Sessions, r: nat)
    requires r < |s.runs|
  {
    s.runs[r].origin in s.pending && s.pending[s.runs[r].origin] == r
  }

  /** The finally callback, with its identity guard. */
  function DoClear(s: Sessions, r: nat): Sessions {
    if r >= |s.runs| || !s.runs[r].phase.Settled? then s
    else s.(runs := s.runs[r := s.runs[r].(phase := Cleared)],
            pending := if OwnsEntry(s, r) then s.pending - {s.runs[r].origin} else s.pending)
  }

  /** A subscriber's continuation once the run is over. */
  function DoDeliver(s: Sessions, i: nat): Sessions {
    if i >= |s.callers| || !Subscribed(s.callers[i]) || s.callers[i].progress.run >= |s.runs| then s
    else
      var r := s.callers[i].progress.run;
      var run := s.runs[r];
      if !run.phase.Cleared? then s
      else if s.callers[i].progress.Waiting? then Finish(s, i, Resolving)
      else Finish(s, i, Answered(if run.session.Some? then Session(r, run.session.value) else Failed))
  }

  function DoCancel(s: Sessions, i: nat): Sessions {
    if i >= |s.callers| then s
    else
      var flagged := s.(callers := s.callers[i := s.callers[i].(cancelled := true)]);
      if Subscribed(s.callers[i]) && s.callers[i].progress.run < |s.runs| then Finish(flagged, i, Answered(Cancelled))
      else flagged
  }

  /** lifetime.abort() reaches every caller's signal. */
  function CancelFrom(s: Sessions, i: nat): Sessions
    decreases |s.callers| - i
  {
    if i >= |s.callers| then s else CancelFrom(DoCancel(s, i), i + 1)
  }

  function DoClose(s: Sessions): Sessions {
    CancelFrom(s.(closed := true), 0)
  }

  function Step(s: Sessions, e: Event): Sessions {
    match e
    case Check(_, _, _, _) => DoCheck(s, e)
    case Refuse(i) => DoRefuse(s, i)
    case Resolve(i) => DoResolve(s, i)
    case Settle(r, session) => DoSettle(s, r, session)
    case Clear(r) => DoClear(s, r)
    case Deliver(i) => DoDeliver(s, i)
    case Cancel(i) => DoCancel(s, i)
    case Close => DoClose(s)
  }

  function Execute(s: Sessions, events: seq<Event>): Sessions
    decreases |events|
  {
    if events == [] then s else Execute(Step(s, events[0]), events[1..])
  }

  // ----- The invariant of every interleaving -----

  function Users(callers: seq<Caller>, run: nat): nat {
    if callers == [] then 0
    else Users(callers[..|callers| - 1], run) + (if SubscribedTo(callers[|callers| - 1], run) then 1 else 0)
  }

  ghost predicate CallerOk(s: Sessions, c: Caller) {
    && (Subscribed(c) ==> c.progress.run < |s.runs| && !c.cancelled)
    && (c.progress.Joined? ==> Suits(c, s.runs[c.progress.run]) && !s.runs[c.progress.run].aborted)
    && (c.progress.Answered? && c.progress.answer.Session? ==>
        && c.progress.answer.run < |s.runs|
        && Suits(c, s.runs[c.progress.answer.run])
        && s.runs[c.progress.answer.run].phase.Cleared?
        && s.runs[c.progress.answer.run].session == Some(c.progress.answer.session))
    && (s.closed ==> c.cancelled)
  }

  ghost predicate Inv(s: Sessions) {
    && (forall o | o in s.pending :: s.pending[o] < |s.runs| && s.runs[s.pending[o]].origin == o
                                     && !s.runs[s.pending[o]].phase.Cleared?)
    && (forall r | 0 <= r < |s.runs| && !s.runs[r].phase.Cleared? :: OwnsEntry(s, r))
    && (forall r | 0 <= r < |s.runs| :: s.runs[r].users == Users(s.callers, r))
    && (forall i | 0 <= i < |s.callers| :: CallerOk(s, s.callers[i]))
  }

  lemma {:induction false} UsersUpdate(callers: seq<Caller>, i: nat, c: Caller, run: nat)
    requires i < |callers|
    ensures Users(callers[i := c], run)
            == Users(callers, run) - (if SubscribedTo(callers[i], run) then 1 else 0) + (if SubscribedTo(c, run) then 1 else 0)
    decreases |callers|
  {
    var init := callers[..|callers| - 1];
    if i == |callers| - 1 {
      assert callers[i := c][..|callers| - 1] == init;
    } else {
      assert callers[i := c][..|callers| - 1] == init[i := c];
      UsersUpdate(init, i, c, run);
    }
  }

  lemma {:induction false} UsersZero(callers: seq<Caller>, run: nat)
    ensures Users(callers, run) == 0 <==> forall i | 0 <= i < |callers| :: !SubscribedTo(callers[i], run)
    decreases |callers|
  {
    if callers != [] { UsersZero(callers[..|callers| - 1], run); }
  }

  lemma {:induction false} UsersFresh(callers: seq<Caller>, run: nat)
    requires forall i | 0 <= i < |callers| :: Subscribed(callers[i]) ==> callers[i].progress.run < run
    ensures Users(callers, run) == 0
  {
    UsersZero(callers, run);
  }

  lemma SubscribeKeeps(s: Sessions, i: nat, p: Progress)
    requires Inv(s) && i < |s.callers| && s.callers[i].progress.Resolving? && !s.callers[i].cancelled
    requires (p.Joined? || p.Waiting?) && p.run < |s.runs|
    requires p.Joined? ==> Suits(s.callers[i], s.runs[p.run]) && !s.runs[p.run].aborted
    ensures Inv(Subscribe(s, i, p))
  {
    var t := Subscribe(s, i, p);
    forall r | 0 <= r < |t.runs| ensures t.runs[r].users == Users(t.callers, r) {
      UsersUpdate(s.callers, i, t.callers[i], r);
    }
    forall j | 0 <= j < |t.callers| ensures CallerOk(t, t.callers[j]) {
      assert CallerOk(s, s.callers[j]);
    }
    forall r | 0 <= r < |t.runs| && !t.runs[r].phase.Cleared? ensures OwnsEntry(t, r) {
      assert OwnsEntry(s, r);
    }
  }

  /** The last user out aborts the run, so nobody is left to be harmed. */
  lemma FinishKeeps(s: Sessions, s': Sessions, i: nat, p: Progress)
    requires Inv(s) && i < |s.callers| && Subscribed(s.callers[i])
    requires s' == s || s' == s.(callers := s.callers[i := s.callers[i].(cancelled := true)])
    requires !p.Joined? && !p.Waiting?
    requires s' == s ==> CallerOk(s, s.callers[i].(progress := p))
    requires s' != s ==> p == Answered(Cancelled)
    ensures Inv(Finish(s', i, p))
  {
    var t := Finish(s', i, p);
    var r0 := s.callers[i].progress.run;
    forall r | 0 <= r < |t.runs| ensures t.runs[r].users == Users(t.callers, r) {
      UsersUpdate(s.callers, i, t.callers[i], r);
      assert t.callers == s.callers[i := t.callers[i]];
    }
    UsersZero(t.callers, r0);
    forall j | 0 <= j < |t.callers| ensures CallerOk(t, t.callers[j]) {
      assert CallerOk(s, s.callers[j]);
      if j != i && SubscribedTo(s.callers[j], r0) {
        assert SubscribedTo(t.callers[j], r0) && Users(t.callers, r0) > 0;
      }
    }
    forall r | 0 <= r < |t.runs| && !t.runs[r].phase.Cleared? ensures OwnsEntry(t, r) {
      assert OwnsEntry(s, r);
    }
  }

  lemma ResolveKeeps(s: Sessions, i: nat)
    requires Inv(s)
    ensures Inv(DoResolve(s, i))
  {
    if i < |s.callers| && s.callers[i].progress.Resolving? {
      var c := s.callers[i];
      assert CallerOk(s, c);
      if c.cancelled {
        ProgressKeeps(s, i, Answered(Cancelled));
      } else if c.origin in s.pending {
        var r := s.pending[c.origin];
        var entry := s.runs[r];
        if entry.aborted || (c.interactive && !entry.interactive) || entry.state != c.state {
          SubscribeKeeps(s, i, Waiting(r));
        } else {
          SubscribeKeeps(s, i, Joined(r));
        }
      } else {
        StartKeeps(s, i);
      }
    }
  }

  lemma ProgressKeeps(s: Sessions, i: nat, p: Progress)
    requires Inv(s) && i < |s.callers| && s.callers[i].progress.Resolving?
    requires p == Answered(Cancelled) || p == Answered(Failed)
    ensures Inv(SetProgress(s, i, p))
  {
    var t := SetProgress(s, i, p);
    forall r | 0 <= r < |t.runs| ensures t.runs[r].users == Users(t.callers, r) {
      UsersUpdate(s.callers, i, t.callers[i], r);
    }
    forall j | 0 <= j < |t.callers| ensures CallerOk(t, t.callers[j]) {
      assert CallerOk(s, s.callers[j]);
    }
    forall r | 0 <= r < |t.runs| && !t.runs[r].phase.Cleared? ensures OwnsEntry(t, r) {
      assert OwnsEntry(s, r);
    }
  }

  lemma StartKeeps(s: Sessions, i: nat)
    requires Inv(s) && i < |s.callers| && s.callers[i].progress.Resolving? && !s.callers[i].cancelled
    requires s.callers[i].origin !in s.pending
    ensures Inv(DoResolve(s, i))
  {
    var c := s.callers[i];
    var r := |s.runs|;
    var t := s.(runs := s.runs + [Run(c.origin, c.interactive, c.state, 0, false, Active, None)],
                pending := s.pending[c.origin := r]);
    forall j | 0 <= j < |t.callers| ensures CallerOk(t, t.callers[j]) {
      assert CallerOk(s, s.callers[j]);
    }
    UsersFresh(s.callers, r);
    forall q | 0 <= q < |t.runs| && !t.runs[q].phase.Cleared? ensures OwnsEntry(t, q) {
      if q < r { assert OwnsEntry(s, q); }
    }
    SubscribeKeeps(t, i, Joined(r));
  }

  lemma SettleKeeps(s: Sessions, r: nat, session: Option<string>)
    requires Inv(s)
    ensures Inv(DoSettle(s, r, session))
  {
    var t := DoSettle(s, r, session);
    forall j | 0 <= j < |t.callers| ensures CallerOk(t, t.callers[j]) {
      assert CallerOk(s, s.callers[j]);
    }
    forall q | 0 <= q < |t.runs| && !t.runs[q].phase.Cleared? ensures OwnsEntry(t, q) {
      assert OwnsEntry(s, q);
    }
  }

  /** The identity guard of the finally callback never fails. */
  lemma GuardAlwaysHolds(s: Sessions, r: nat)
    requires Inv(s) && r < |s.runs| && s.runs[r].phase.Settled?
    ensures OwnsEntry(s, r)
  {
  }

  lemma ClearKeeps(s: Sessions, r: nat)
    requires Inv(s)
    ensures Inv(DoClear(s, r))
  {
    if r < |s.runs| && s.runs[r].phase.Settled? {
      GuardAlwaysHolds(s, r);
      var t := DoClear(s, r);
      forall j | 0 <= j < |t.callers| ensures CallerOk(t, t.callers[j]) {
        assert CallerOk(s, s.callers[j]);
      }
      forall q | 0 <= q < |t.runs| && !t.runs[q].phase.Cleared? ensures OwnsEntry(t, q) {
        assert OwnsEntry(s, q) && OwnsEntry(s, r);
      }
    }
  }

  lemma DeliverKeeps(s: Sessions, i: nat)
    requires Inv(s)
    ensures Inv(DoDeliver(s, i))
  {
    if i < |s.callers| && Subscribed(s.callers[i]) {
      assert CallerOk(s, s.callers[i]);
      var r := s.callers[i].progress.run;
      var run := s.runs[r];
      if run.phase.Cleared? {
        if s.callers[i].progress.Waiting? {
          FinishKeeps(s, s, i, Resolving);
        } else {
          FinishKeeps(s, s, i, Answered(if run.session.Some? then Session(r, run.session.value) else Failed));
        }
      }
    }
  }

  lemma CancelKeeps(s: Sessions, i: nat)
    requires Inv(s)
    ensures Inv(DoCancel(s, i))
    ensures i < |s.callers| ==> DoCancel(s, i).callers[i].cancelled && !Subscribed(DoCancel(s, i).callers[i])
    ensures |DoCancel(s, i).callers| == |s.callers| && DoCancel(s, i).closed == s.closed
  {
    if i < |s.callers| {
      assert CallerOk(s, s.callers[i]);
      var flagged := s.(callers := s.callers[i := s.callers[i].(cancelled := true)]);
      if Subscribed(s.callers[i]) {
        FinishKeeps(s, flagged, i, Answered(Cancelled));
      } else {
        forall r | 0 <= r < |s.runs| ensures s.runs[r].users == Users(flagged.callers, r) {
          UsersUpdate(s.callers, i, flagged.callers[i], r);
        }
        forall j | 0 <= j < |flagged.callers| ensures CallerOk(flagged, flagged.callers[j]) {
          assert CallerOk(s, s.callers[j]);
        }
        forall r | 0 <= r < |s.runs| && !s.runs[r].phase.Cleared? ensures OwnsEntry(flagged, r) {
          assert OwnsEntry(s, r);
        }
      }
    }
  }

  /** Cancelling the callers one after another keeps everything but the demand
      that a closed object has only cancelled callers, which it establishes. */
  lemma {:induction false} CancelFromKeeps(s: Sessions, i: nat)
    requires Inv(s) && !s.closed && i <= |s.callers|
    requires forall j | 0 <= j < i :: s.callers[j].cancelled
    ensures var t := CancelFrom(s, i);
            Inv(t) && !t.closed && forall j | 0 <= j < |t.callers| :: t.callers[j].cancelled
    decreases |s.callers| - i
  {
    if i < |s.callers| {
      CancelKeeps(s, i);
      CancelFromKeeps(DoCancel(s, i), i + 1);
    }
  }

  lemma {:induction false} CancelIgnoresClosed(s: Sessions, i: nat)
    ensures CancelFrom(s.(closed := true), i) == CancelFrom(s, i).(closed := true)
    decreases |s.callers| - i
  {
    if i < |s.callers| {
      assert DoCancel(s.(closed := true), i) == DoCancel(s, i).(closed := true);
      CancelIgnoresClosed(DoCancel(s, i), i + 1);
    }
  }

  lemma {:induction false} CancelFromAgain(s: Sessions, i: nat)
    requires Inv(s)
    ensures Inv(CancelFrom(s, i))
    decreases |s.callers| - i
  {
    if i < |s.callers| {
      CancelKeeps(s, i);
      CancelFromAgain(DoCancel(s, i), i + 1);
    }
  }

  lemma {:induction false} CancelFromClosed(s: Sessions, i: nat)
    ensures CancelFrom(s, i).closed == s.closed
    decreases |s.callers| - i
  {
    if i < |s.callers| { CancelFromClosed(DoCancel(s, i), i + 1); }
  }

  /** Closing leaves every caller cancelled and unsubscribed. */
  lemma CloseEnds(s: Sessions)
    requires Inv(s)
    ensures DoClose(s).closed && forall c | c in DoClose(s).callers :: c.cancelled && !Subscribed(c)
  {
    CloseKeeps(s);
    CancelFromClosed(s.(closed := true), 0);
    var t := DoClose(s);
    forall c | c in t.callers ensures c.cancelled && !Subscribed(c) {
      var j :| 0 <= j < |t.callers| && t.callers[j] == c;
      assert CallerOk(t, t.callers[j]);
    }
  }

  lemma CloseKeeps(s: Sessions)
    requires Inv(s)
    ensures Inv(DoClose(s))
  {
    if s.closed {
      assert s.(closed := true) == s;
      CancelFromAgain(s, 0);
    } else {
      CancelFromKeeps(s, 0);
      CancelIgnoresClosed(s, 0);
      var t := CancelFrom(s, 0);
      forall r | 0 <= r < |t.runs| && !t.runs[r].phase.Cleared? ensures OwnsEntry(t.(closed := true), r) {
        assert OwnsEntry(t, r);
      }
      forall j | 0 <= j < |t.callers| ensures CallerOk(t.(closed := true), t.callers[j]) {
        assert CallerOk(t, t.callers[j]);
      }
    }
  }

  lemma CheckKeeps(s: Sessions, e: Event)
    requires Inv(s) && e.Check?
    ensures Inv(DoCheck(s, e))
  {
    var t := DoCheck(s, e);
    assert t.callers[..|t.callers| - 1] == s.callers;
    forall j | 0 <= j < |t.callers| ensures CallerOk(t, t.callers[j]) {
      if j < |s.callers| { assert CallerOk(s, s.callers[j]); }
    }
    forall r | 0 <= r < |t.runs| && !t.runs[r].phase.Cleared? ensures OwnsEntry(t, r) {
      assert OwnsEntry(s, r);
    }
  }

  lemma StepKeeps(s: Sessions, e: Event)
    requires Inv(s)
    ensures Inv(Step(s, e))
  {
    match e
    case Check(_, _, _, _) => CheckKeeps(s, e);
    case Refuse(i) => if i < |s.callers| && s.callers[i].progress.Resolving? { ProgressKeeps(s, i, Answered(Failed)); }
    case Resolve(i) => ResolveKeeps(s, i);
    case Settle(r, session) => SettleKeeps(s, r, session);
    case Clear(r) => ClearKeeps(s, r);
    case Deliver(i) => DeliverKeeps(s, i);
    case Cancel(i) => CancelKeeps(s, i);
    case Close => CloseKeeps(s);
  }

  lemma {:induction false} ExecuteKeeps(s: Sessions, events: seq<Event>)
    requires Inv(s)
    ensures Inv(Execute(s, events))
    decreases |events|
  {
    if events != [] {
      StepKeeps(s, events[0]);
      ExecuteKeeps(Step(s, events[0]), events[1..]);
    }
  }

  // ----- What callers may rely on -----

  /** In every interleaving: one unsettled run per origin; as many users as
      unfinished subscribers; a session that is returned comes from a run of the
      caller's origin and state, interactive if the caller asked for it; and the
      identity guard of every finally callback still to come is true. */
  lemma EveryInterleaving(events: seq<Event>)
    ensures var s := Execute(Initial(), events);
            && (forall a, b | 0 <= a < |s.runs| && 0 <= b < |s.runs| && s.runs[a].phase.Active? && s.runs[b].phase.Active?
                              && s.runs[a].origin == s.runs[b].origin :: a == b)
            && (forall r | 0 <= r < |s.runs| :: s.runs[r].users == Users(s.callers, r))
            && (forall i | 0 <= i < |s.callers| && s.callers[i].progress.Answered? && s.callers[i].progress.answer.Session? ::
                  var a := s.callers[i].progress.answer;
                  && a.run < |s.runs| && Suits(s.callers[i], s.runs[a.run])
                  && s.runs[a.run].session == Some(a.session))
            && (forall r | 0 <= r < |s.runs| && s.runs[r].phase.Settled? :: OwnsEntry(s, r))
  {
    ExecuteKeeps(Initial(), events);
    var s := Execute(Initial(), events);
    forall a, b | 0 <= a < |s.runs| && 0 <= b < |s.runs| && s.runs[a].phase.Active? && s.runs[b].phase.Active?
                  && s.runs[a].origin == s.runs[b].origin
      ensures a == b
    {
      assert OwnsEntry(s, a) && OwnsEntry(s, b);
    }
    forall i | 0 <= i < |s.callers| && s.callers[i].progress.Answered? && s.callers[i].progress.answer.Session?
      ensures var a := s.callers[i].progress.answer;
              a.run < |s.runs| && Suits(s.callers[i], s.runs[a.run]) && s.runs[a.run].session == Some(a.session)
    {
      assert CallerOk(s, s.callers[i]);
    }
  }

  /** No step of any interleaving aborts a run while anyone is subscribed to it,
      so a cancellation never stops the run that another caller is to get its
      session from. */
  lemma AbortSparesSubscribers(events: seq<Event>, e: Event, r: nat)
    requires r < |Execute(Initial(), events).runs| && !Execute(Initial(), events).runs[r].aborted
    requires r < |Step(Execute(Initial(), events), e).runs| && Step(Execute(Initial(), events), e).runs[r].aborted
    ensures var t := Step(Execute(Initial(), events), e);
            forall i | 0 <= i < |t.callers| :: !SubscribedTo(t.callers[i], r)
  {
    ExecuteKeeps(Initial(), events);
    AbortSpares(Execute(Initial(), events), e, r);
  }

  lemma AbortSpares(s: Sessions, e: Event, r: nat)
    requires Inv(s) && r < |s.runs| && !s.runs[r].aborted
    requires r < |Step(s, e).runs| && Step(s, e).runs[r].aborted
    ensures forall i | 0 <= i < |Step(s, e).callers| :: !SubscribedTo(Step(s, e).callers[i], r)
  {
    StepKeeps(s, e);
    var t := Step(s, e);
    if e.Close? {
      CloseEnds(s);
    } else {
      UsersZero(t.callers, r);
    }
  }

  lemma OthersCannotStop(s: Sessions, e: Event, i: nat)
    requires Inv(s) && i < |s.callers| && s.callers[i].progress.Joined?
    requires !e.Close? && e != Cancel(i) && e != Deliver(i)
    ensures var t := Step(s, e);
            && i < |t.callers| && t.callers[i] == s.callers[i]
            && s.callers[i].progress.run < |t.runs| && !t.runs[s.callers[i].progress.run].aborted
  {
    StepKeeps(s, e);
    var t := Step(s, e);
    assert CallerOk(s, s.callers[i]);
    assert CallerOk(t, t.callers[i]);
  }

  /** Neither the caller's own signal nor the object's. */
  predicate OfOthers(events: seq<Event>, i: nat) {
    forall k | 0 <= k < |events| :: !events[k].Close? && events[k] != Cancel(i) && events[k] != Deliver(i)
  }

  lemma {:induction false} StaysJoined(s: Sessions, events: seq<Event>, i: nat)
    requires Inv(s) && i < |s.callers| && s.callers[i].progress.Joined? && OfOthers(events, i)
    ensures var t := Execute(s, events);
            && i < |t.callers| && t.callers[i] == s.callers[i]
            && s.callers[i].progress.run < |t.runs| && !t.runs[s.callers[i].progress.run].aborted
    decreases |events|
  {
    if events == [] {
      assert CallerOk(s, s.callers[i]);
    } else {
      StepKeeps(s, events[0]);
      OthersCannotStop(s, events[0], i);
      StaysJoined(Step(s, events[0]), events[1..], i);
    }
  }

  /** Once a caller is subscribed for a session, nothing that others do, in any
      number and order, answers it or aborts its run. */
  lemma OthersNeverStop(before: seq<Event>, after: seq<Event>, i: nat)
    requires i < |Execute(Initial(), before).callers| && Execute(Initial(), before).callers[i].progress.Joined?
    requires OfOthers(after, i)
    ensures var s := Execute(Initial(), before);
            var t := Execute(s, after);
            && i < |t.callers| && t.callers[i] == s.callers[i]
            && s.callers[i].progress.run < |t.runs| && !t.runs[s.callers[i].progress.run].aborted
  {
    ExecuteKeeps(Initial(), before);
    StaysJoined(Execute(Initial(), before), after, i);
  }
}
