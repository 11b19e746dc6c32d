/** How the calls of check() end, told from the events of a whole run: which
    session a caller gets, where a failure comes from, what a cancellation
    reaches, and that waiting for an unsuitable helper loses nothing. */
module SessionTheorems {
  import opened Wrappers
  import opened SessionSteps

  // ----- Runs of events -----

  lemma {:induction false} ExecuteConcat(s: Sessions, a: seq<Event>, b: seq<Event>)
    ensures Execute(s, a + b) == Execute(Execute(s, a), b)
    decreases |a|
  {
    if a == [] {
      assert a + b == b;
    } else {
      assert (a + b)[0] == a[0] && (a + b)[1..] == a[1..] + b;
      ExecuteConcat(Step(s, a[0]), a[1..], b);
    }
  }

  lemma ExecuteOne(s: Sessions, e: Event)
    ensures Execute(s, [e]) == Step(s, e)
  {
    assert [e][1..] == [];
    assert Execute(Step(s, e), []) == Step(s, e);
  }

  lemma ExecuteSnoc(s: Sessions, events: seq<Event>, e: Event)
    ensures Execute(s, events + [e]) == Step(Execute(s, events), e)
  {
    ExecuteConcat(s, events, [e]);
    ExecuteOne(Execute(s, events), e);
  }

  // ----- A run of the helper ends as its events say -----

  predicate Settles(e: Event, r: nat) {
    e.Settle? && e.run == r
  }

  /** The first settlement of r among the events. */
  function Outcome(events: seq<Event>, r: nat): Option<Option<string>> {
    if events == [] then None
    else if Settles(events[0], r) then Some(events[0].session)
    else Outcome(events[1..], r)
  }

  /** The finally callback of r runs after that settlement. */
  predicate ThenCleared(events: seq<Event>, r: nat) {
    events != [] && if Settles(events[0], r) then Clear(r) in events[1..] else ThenCleared(events[1..], r)
  }

  /** With what a run is over once the events have passed: nothing while its
      finally callback has not run. */
  function EndOf(run: Run, events: seq<Event>, r: nat): Option<Option<string>> {
    match run.phase
    case Active => if ThenCleared(events, r) then Outcome(events, r) else None
    case Settled => if Clear(r) in events then Some(run.session) else None
    case Cleared => Some(run.session)
  }

  ghost predicate SameRequest(a: Run, b: Run) {
    a.origin == b.origin && a.interactive == b.interactive && a.state == b.state
  }

  lemma {:induction false} CancellingKeepsRuns(s: Sessions, i: nat, r: nat)
    requires r < |s.runs|
    ensures var t := CancelFrom(s, i);
            && |t.runs| == |s.runs| && SameRequest(t.runs[r], s.runs[r])
            && t.runs[r].phase == s.runs[r].phase && t.runs[r].session == s.runs[r].session
    decreases |s.callers| - i
  {
    if i < |s.callers| { CancellingKeepsRuns(DoCancel(s, i), i + 1, r); }
  }

  lemma RunStep(s: Sessions, e: Event, r: nat)
    requires r < |s.runs|
    ensures var t := Step(s, e);
            && r < |t.runs| && SameRequest(t.runs[r], s.runs[r])
            && (Settles(e, r) && s.runs[r].phase.Active? ==> t.runs[r].phase.Settled? && t.runs[r].session == e.session)
            && (e == Clear(r) && s.runs[r].phase.Settled? ==> t.runs[r].phase.Cleared? && t.runs[r].session == s.runs[r].session)
            && (!(Settles(e, r) && s.runs[r].phase.Active?) && !(e == Clear(r) && s.runs[r].phase.Settled?) ==>
                  t.runs[r].phase == s.runs[r].phase && t.runs[r].session == s.runs[r].session)
  {
    if e.Close? { CancellingKeepsRuns(s.(closed := true), 0, r); }
  }

  /** A run is over exactly when it has settled and its finally callback has run,
      and its result is the one of its first settlement, whatever else happens. */
  lemma {:induction false} RunEnds(s: Sessions, events: seq<Event>, r: nat)
    requires r < |s.runs|
    ensures var t := Execute(s, events);
            && r < |t.runs| && SameRequest(t.runs[r], s.runs[r])
            && (t.runs[r].phase.Cleared? <==> EndOf(s.runs[r], events, r).Some?)
            && (t.runs[r].phase.Cleared? ==> EndOf(s.runs[r], events, r) == Some(t.runs[r].session))
    decreases |events|
  {
    if events != [] {
      var u := Step(s, events[0]);
      RunStep(s, events[0], r);
      RunEnds(u, events[1..], r);
      assert events == [events[0]] + events[1..];
      assert EndOf(s.runs[r], events, r) == EndOf(u.runs[r], events[1..], r);
    }
  }

  // ----- What a caller sees of the others -----

  /** A caller after its own signal or the object's has fired. */
  function Signalled(c: Caller): Caller {
    c.(cancelled := true, progress := if Subscribed(c) then Answered(Cancelled) else c.progress)
  }

  lemma {:induction false} SignalsReachAll(s: Sessions, i: nat, j: nat)
    requires Inv(s) && j < |s.callers|
    ensures var t := CancelFrom(s, i);
            |t.callers| == |s.callers| && t.callers[j] == if j < i then s.callers[j] else Signalled(s.callers[j])
    decreases |s.callers| - i
  {
    if i < |s.callers| {
      assert CallerOk(s, s.callers[i]);
      CancelKeeps(s, i);
      SignalsReachAll(DoCancel(s, i), i + 1, j);
    }
  }

  lemma ClosingReachesAll(s: Sessions, j: nat)
    requires Inv(s) && j < |s.callers|
    ensures |DoClose(s).callers| == |s.callers| && DoClose(s).callers[j] == Signalled(s.callers[j])
  {
    SignalsReachAll(s, 0, j);
    CancelIgnoresClosed(s, 0);
  }

  /** Neither an event of the caller's own call nor the end of the object. */
  predicate Elsewhere(e: Event, i: nat) {
    !e.Close? && e != Cancel(i) && e != Deliver(i) && e != Resolve(i) && e != Refuse(i)
  }

  predicate AllElsewhere(events: seq<Event>, i: nat) {
    forall k | 0 <= k < |events| :: Elsewhere(events[k], i)
  }

  lemma OthersLeaveAlone(s: Sessions, e: Event, i: nat)
    requires i < |s.callers| && (Elsewhere(e, i) || (Subscribed(s.callers[i]) && (e == Resolve(i) || e == Refuse(i))))
    ensures i < |Step(s, e).callers| && Step(s, e).callers[i] == s.callers[i]
  {
  }

  lemma {:induction false} Untouched(s: Sessions, events: seq<Event>, i: nat)
    requires i < |s.callers|
    requires AllElsewhere(events, i) || (Subscribed(s.callers[i]) && OfOthers(events, i))
    ensures i < |Execute(s, events).callers| && Execute(s, events).callers[i] == s.callers[i]
    decreases |events|
  {
    if events != [] {
      OthersLeaveAlone(s, events[0], i);
      Untouched(Step(s, events[0]), events[1..], i);
    }
  }

  // ----- The answer of a caller -----

  function AnswerOf(r: nat, session: Option<string>): Answer {
    if session.Some? then Session(r, session.value) else Failed
  }

  /** A caller joined to a run keeps waiting while others do anything at all; its
      delivery answers it exactly when the run is over by then, and the answer is
      the session the run settled with, or a failure if it settled without one. */
  lemma JoinedIsAnswered(before: seq<Event>, others: seq<Event>, i: nat)
    requires i < |Execute(Initial(), before).callers| && Execute(Initial(), before).callers[i].progress.Joined?
    requires OfOthers(others, i)
    ensures var s := Execute(Initial(), before);
            var c := s.callers[i];
            var r := c.progress.run;
            var t := Execute(Initial(), before + others + [Deliver(i)]);
            && r < |s.runs| && Suits(c, s.runs[r]) && i < |t.callers|
            && t.callers[i] == match EndOf(s.runs[r], others, r)
                               case None => c
                               case Some(x) => c.(progress := Answered(AnswerOf(r, x)))
  {
    var s := Execute(Initial(), before);
    ExecuteKeeps(Initial(), before);
    assert CallerOk(s, s.callers[i]);
    var r := s.callers[i].progress.run;
    RunEnds(s, others, r);
    Untouched(s, others, i);
    ExecuteConcat(Initial(), before, others);
    ExecuteSnoc(Initial(), before + others, Deliver(i));
  }

  /** The event e answers caller i with a: the ways a call of check() can end. */
  ghost predicate Gives(s: Sessions, e: Event, i: nat, a: Answer) {
    if i >= |s.callers| then
      i == |s.callers| && e.Check? && (e.aborted || s.closed) && a == Cancelled
    else
      var c := s.callers[i];
      match c.progress
      case Resolving =>
        (e == Refuse(i) && a == Failed) || (e == Resolve(i) && c.cancelled && a == Cancelled)
      case Joined(r) =>
        || ((e == Cancel(i) || e == Close) && a == Cancelled)
        || (e == Deliver(i) && r < |s.runs| && s.runs[r].phase.Cleared? && a == AnswerOf(r, s.runs[r].session))
      case Waiting(r) => (e == Cancel(i) || e == Close) && a == Cancelled
      case Answered(_) => false
  }

  ghost predicate HasAnswer(s: Sessions, i: nat, a: Answer) {
    i < |s.callers| && s.callers[i].progress == Answered(a)
  }

  lemma AnswerStep(s: Sessions, e: Event, i: nat, a: Answer)
    requires Inv(s)
    ensures HasAnswer(Step(s, e), i, a) <==> HasAnswer(s, i, a) || Gives(s, e, i, a)
  {
    if e.Close? {
      CloseAnswers(s, i, a);
    } else if e.Deliver? || e.Cancel? {
      FinishAnswers(s, e, i, a);
    } else if i < |s.callers| {
      assert CallerOk(s, s.callers[i]);
    }
  }

  lemma FinishAnswers(s: Sessions, e: Event, i: nat, a: Answer)
    requires Inv(s) && (e.Deliver? || e.Cancel?)
    ensures HasAnswer(Step(s, e), i, a) <==> HasAnswer(s, i, a) || Gives(s, e, i, a)
  {
    if i < |s.callers| { assert CallerOk(s, s.callers[i]); }
  }

  lemma CloseAnswers(s: Sessions, i: nat, a: Answer)
    requires Inv(s)
    ensures HasAnswer(DoClose(s), i, a) <==> HasAnswer(s, i, a) || Gives(s, Close, i, a)
  {
    if i < |s.callers| {
      ClosingReachesAll(s, i);
    } else if |s.callers| > 0 {
      ClosingReachesAll(s, 0);
    }
  }

  ghost predicate AnsweredIn(events: seq<Event>, i: nat, a: Answer) {
    exists k :: 0 <= k < |events| && Gives(Execute(Initial(), events[..k]), events[k], i, a)
  }

  /** Over every run: a caller has an answer exactly when one event of the run gave
      it that answer. A failure comes from a refused address or the delivery of a
      run without a session, and from nothing else. */
  lemma {:induction false} AnsweredExactly(events: seq<Event>, i: nat, a: Answer)
    ensures HasAnswer(Execute(Initial(), events), i, a) <==> AnsweredIn(events, i, a)
    decreases |events|
  {
    if events != [] {
      var n := |events| - 1;
      var init, e := events[..n], events[n];
      AnsweredExactly(init, i, a);
      ExecuteKeeps(Initial(), init);
      assert events == init + [e];
      ExecuteSnoc(Initial(), init, e);
      AnswerStep(Execute(Initial(), init), e, i, a);
      assert forall k | 0 <= k < n :: events[..k] == init[..k] && events[k] == init[k];
    }
  }

  // ----- Who is cancelled -----

  /** The calls of check() among the events, in order. */
  function Checks(events: seq<Event>): seq<Event> {
    if events == [] then []
    else Checks(events[..|events| - 1]) + (if events[|events| - 1].Check? then [events[|events| - 1]] else [])
  }

  /** The signal of call i has fired: its own before the call, its own after it, or
      the object's at any time. */
  predicate SignalFired(events: seq<Event>, i: nat) {
    events != [] &&
    var init, e := events[..|events| - 1], events[|events| - 1];
    || SignalFired(init, i)
    || e.Close?
    || (e == Cancel(i) && i < |Checks(init)|)
    || (e.Check? && |Checks(init)| == i && e.aborted)
  }

  ghost predicate CallerMatches(c: Caller, e: Event) {
    e.Check? && c.origin == e.origin && c.interactive == e.interactive && c.state == e.state
  }

  lemma {:induction false} ChecksAreChecks(events: seq<Event>)
    ensures forall e | e in Checks(events) :: e.Check?
    decreases |events|
  {
    if events != [] { ChecksAreChecks(events[..|events| - 1]); }
  }

  lemma {:induction false} ClosedExactly(events: seq<Event>)
    ensures Execute(Initial(), events).closed <==> Close in events
    decreases |events|
  {
    if events != [] {
      var n := |events| - 1;
      var init, e := events[..n], events[n];
      ClosedExactly(init);
      ExecuteKeeps(Initial(), init);
      assert events == init + [e];
      ExecuteSnoc(Initial(), init, e);
      ClosedStep(Execute(Initial(), init), e);
    }
  }

  lemma ClosedStep(s: Sessions, e: Event)
    requires Inv(s)
    ensures Step(s, e).closed <==> s.closed || e.Close?
  {
    if e.Close? { CloseEnds(s); }
  }

  lemma {:induction false} ClosingFires(events: seq<Event>, i: nat)
    requires Close in events
    ensures SignalFired(events, i)
    decreases |events|
  {
    var n := |events| - 1;
    if events[n] != Close {
      assert events == events[..n] + [events[n]];
      ClosingFires(events[..n], i);
    }
  }

  /** Over every run: each call keeps the address, the mode and the state it was
      made with, and is cancelled exactly when a signal of its own has fired. */
  lemma {:induction false} CancelledExactly(events: seq<Event>, i: nat)
    ensures var s := Execute(Initial(), events);
            && |s.callers| == |Checks(events)|
            && (i < |s.callers| ==>
                  && CallerMatches(s.callers[i], Checks(events)[i])
                  && (s.callers[i].cancelled <==> SignalFired(events, i)))
            && (i >= |s.callers| ==> (SignalFired(events, i) <==> Close in events))
    decreases |events|
  {
    if events != [] {
      var n := |events| - 1;
      var init, e := events[..n], events[n];
      CancelledExactly(init, i);
      ExecuteKeeps(Initial(), init);
      ClosedExactly(init);
      assert events == init + [e];
      ExecuteSnoc(Initial(), init, e);
      CallerStep(Execute(Initial(), init), e, i);
    }
  }

  /** What one event does to the list of calls and to call i. */
  ghost predicate CallersAfter(s: Sessions, t: Sessions, e: Event, i: nat) {
    && |t.callers| == |s.callers| + (if e.Check? then 1 else 0)
    && (i < |s.callers| ==>
          && t.callers[i].origin == s.callers[i].origin && t.callers[i].interactive == s.callers[i].interactive
          && t.callers[i].state == s.callers[i].state
          && (t.callers[i].cancelled <==> s.callers[i].cancelled || e == Cancel(i) || e.Close?))
    && (e.Check? ==> CallerMatches(t.callers[|s.callers|], e)
                     && (t.callers[|s.callers|].cancelled <==> e.aborted || s.closed))
  }

  lemma CallerStep(s: Sessions, e: Event, i: nat)
    requires Inv(s)
    ensures CallersAfter(s, Step(s, e), e, i)
  {
    if e.Close? {
      CloseCallers(s, i);
    } else if e.Resolve? || e.Deliver? || e.Cancel? {
      SubscriptionStep(s, e, i);
    }
  }

  lemma SubscriptionStep(s: Sessions, e: Event, i: nat)
    requires e.Resolve? || e.Deliver? || e.Cancel?
    ensures CallersAfter(s, Step(s, e), e, i)
  {
  }

  lemma CloseCallers(s: Sessions, i: nat)
    requires Inv(s)
    ensures |DoClose(s).callers| == |s.callers|
    ensures i < |s.callers| ==> DoClose(s).callers[i] == Signalled(s.callers[i])
  {
    if i < |s.callers| { ClosingReachesAll(s, i); }
    if |s.callers| > 0 { ClosingReachesAll(s, 0); }
  }

  // ----- Waiting for an unsuitable run -----

  /** check() may share an entry: not aborted, of the same state, and interactive
      if the caller asked for that. */
  predicate MayShare(c: Caller, run: Run) {
    !run.aborted && run.state == c.state && (c.interactive ==> run.interactive)
  }

  /** Resolving subscribes a caller to the entry of its origin, for its session
      exactly if it may share it; without an entry a run of its own starts. */
  lemma ResolveExact(s: Sessions, i: nat)
    requires Inv(s) && i < |s.callers| && s.callers[i].progress.Resolving? && !s.callers[i].cancelled
    ensures var c := s.callers[i];
            var t := Step(s, Resolve(i));
            && i < |t.callers|
            && (c.origin in s.pending ==>
                  var r := s.pending[c.origin];
                  && |t.runs| == |s.runs| && SameRequest(t.runs[r], s.runs[r]) && t.runs[r].phase == s.runs[r].phase
                  && t.callers[i] == c.(progress := if MayShare(c, s.runs[r]) then Joined(r) else Waiting(r)))
            && (c.origin !in s.pending ==>
                  var r := |s.runs|;
                  && t.callers[i] == c.(progress := Joined(r))
                  && t.runs == s.runs + [Run(c.origin, c.interactive, c.state, 1, false, Active, None)])
  {
    assert CallerOk(s, s.callers[i]);
  }

  /** A caller waiting for a run that does not suit it: nothing others do answers
      it, and once that run is over it asks again, with the same request. */
  lemma WaiterAsksAgain(before: seq<Event>, others: seq<Event>, later: seq<Event>, i: nat)
    requires i < |Execute(Initial(), before).callers| && Execute(Initial(), before).callers[i].progress.Waiting?
    requires OfOthers(others, i) && AllElsewhere(later, i)
    ensures var s := Execute(Initial(), before);
            var c := s.callers[i];
            var r := c.progress.run;
            var t := Execute(Initial(), before + others + [Deliver(i)] + later);
            && r < |s.runs| && i < |t.callers|
            && (EndOf(s.runs[r], others, r).Some? ==> t.callers[i] == c.(progress := Resolving))
            && (EndOf(s.runs[r], others, r).None? ==> t.callers[i] == c)
  {
    var s := Execute(Initial(), before);
    ExecuteKeeps(Initial(), before);
    assert CallerOk(s, s.callers[i]);
    RunEnds(s, others, s.callers[i].progress.run);
    Untouched(s, others, i);
    ExecuteConcat(Initial(), before, others);
    ExecuteSnoc(Initial(), before + others, Deliver(i));
    ExecuteConcat(Initial(), before + others + [Deliver(i)], later);
    Untouched(Execute(Initial(), before + others + [Deliver(i)]), later, i);
  }

  /** No entry stands in the way of the caller. */
  ghost predicate FindsSuitable(s: Sessions, c: Caller) {
    c.origin in s.pending ==> s.pending[c.origin] < |s.runs| && MayShare(c, s.runs[s.pending[c.origin]])
  }

  /** A caller that waited for a run that did not suit it, and that nobody cancels,
      is later joined to a run that does, and the end of that run is its answer. */
  lemma WaiterIsAnswered(before: seq<Event>, others: seq<Event>, later: seq<Event>, last: seq<Event>, i: nat)
    requires i < |Execute(Initial(), before).callers| && Execute(Initial(), before).callers[i].progress.Waiting?
    requires OfOthers(others, i) && AllElsewhere(later, i) && OfOthers(last, i)
    ensures var s := Execute(Initial(), before);
            var c := s.callers[i];
            var asked := before + others + [Deliver(i)] + later;
            var u := Execute(Initial(), asked + [Resolve(i)]);
            var t := Execute(Initial(), asked + [Resolve(i)] + last + [Deliver(i)]);
            c.progress.run < |s.runs| && EndOf(s.runs[c.progress.run], others, c.progress.run).Some?
            && FindsSuitable(Execute(Initial(), asked), c) ==>
              && i < |u.callers| && u.callers[i].progress.Joined? && i < |t.callers|
              && var q := u.callers[i].progress.run;
                 && q < |u.runs| && Suits(c, u.runs[q])
                 && t.callers[i] == match EndOf(u.runs[q], last, q)
                                    case None => c.(progress := Joined(q))
                                    case Some(x) => c.(progress := Answered(AnswerOf(q, x)))
  {
    var s := Execute(Initial(), before);
    var c := s.callers[i];
    WaiterAsksAgain(before, others, later, i);
    ExecuteKeeps(Initial(), before);
    assert CallerOk(s, c);
    var asked := before + others + [Deliver(i)] + later;
    var u := Execute(Initial(), asked);
    ExecuteKeeps(Initial(), asked);
    if EndOf(s.runs[c.progress.run], others, c.progress.run).Some? && FindsSuitable(u, c) {
      ResolveExact(u, i);
      ExecuteSnoc(Initial(), asked, Resolve(i));
      JoinedIsAnswered(asked + [Resolve(i)], last, i);
    }
  }

  /** Neither cancelled nor answered, and not joined to a run that has already
      settled without a session. */
  ghost predicate Hopeful(s: Sessions, i: nat) {
    && Inv(s) && i < |s.callers| && !s.callers[i].cancelled && !s.callers[i].progress.Answered?
    && (s.callers[i].progress.Joined? ==>
          var r := s.callers[i].progress.run;
          r < |s.runs| && (s.runs[r].phase.Active? || s.runs[r].session.Some?))
  }

  predicate Kind(e: Event, i: nat) {
    e != Cancel(i) && !e.Close? && e != Refuse(i)
  }

  predicate AllKind(events: seq<Event>, i: nat) {
    forall k | 0 <= k < |events| :: Kind(events[k], i)
  }

  ghost predicate CanEnd(s: Sessions, i: nat) {
    exists events: seq<Event>, q: nat, x: string ::
      && AllKind(events, i)
      && HasAnswer(Execute(s, events), i, Session(q, x))
      && q < |Execute(s, events).runs| && i < |s.callers| && Suits(s.callers[i], Execute(s, events).runs[q])
  }

  lemma CanEndEarlier(s: Sessions, e: Event, i: nat)
    requires i < |s.callers| && Kind(e, i) && CanEnd(Step(s, e), i)
    requires i < |Step(s, e).callers| && Step(s, e).callers[i] == s.callers[i].(progress := Step(s, e).callers[i].progress)
    ensures CanEnd(s, i)
  {
    var events: seq<Event>, q: nat, x: string :|
      && AllKind(events, i)
      && HasAnswer(Execute(Step(s, e), events), i, Session(q, x))
      && q < |Execute(Step(s, e), events).runs| && Suits(Step(s, e).callers[i], Execute(Step(s, e), events).runs[q]);
    ExecuteConcat(s, [e], events);
    ExecuteOne(s, e);
    var all := [e] + events;
    assert AllKind(all, i);
    assert HasAnswer(Execute(s, all), i, Session(q, x));
  }

  lemma NothingMore(s: Sessions, i: nat, q: nat, x: string)
    requires HasAnswer(s, i, Session(q, x)) && q < |s.runs| && Suits(s.callers[i], s.runs[q])
    ensures CanEnd(s, i)
  {
    assert Execute(s, []) == s;
    var none: seq<Event> := [];
    assert AllKind(none, i);
    assert HasAnswer(Execute(s, none), i, Session(q, x));
  }

  lemma JoinedCanEnd(s: Sessions, i: nat)
    requires Hopeful(s, i) && s.callers[i].progress.Joined?
    ensures CanEnd(s, i)
    decreases match s.runs[s.callers[i].progress.run].phase case Active => 2 case Settled => 1 case Cleared => 0
  {
    var r := s.callers[i].progress.run;
    assert CallerOk(s, s.callers[i]);
    match s.runs[r].phase
    case Active =>
      StepKeeps(s, Settle(r, Some("")));
      JoinedCanEnd(Step(s, Settle(r, Some(""))), i);
      CanEndEarlier(s, Settle(r, Some("")), i);
    case Settled =>
      StepKeeps(s, Clear(r));
      JoinedCanEnd(Step(s, Clear(r)), i);
      CanEndEarlier(s, Clear(r), i);
    case Cleared =>
      NothingMore(Step(s, Deliver(i)), i, r, s.runs[r].session.value);
      CanEndEarlier(s, Deliver(i), i);
  }

  function PhaseLeft(s: Sessions, r: nat): nat {
    if r >= |s.runs| then 0 else match s.runs[r].phase case Active => 2 case Settled => 1 case Cleared => 0
  }

  /** How far a caller is from a run of its own. */
  function ToJoin(s: Sessions, i: nat): nat
    requires i < |s.callers|
  {
    var c := s.callers[i];
    match c.progress
    case Waiting(r) => 5 + PhaseLeft(s, r)
    case Resolving => if c.origin in s.pending then 2 + PhaseLeft(s, s.pending[c.origin]) else 1
    case _ => 0
  }

  /** The helper in the way ends, whatever becomes of it. */
  lemma RunCanEnd(s: Sessions, i: nat, r: nat)
    requires Hopeful(s, i) && !s.callers[i].progress.Joined? && r < |s.runs| && !s.runs[r].phase.Cleared?
    requires s.callers[i].progress.Resolving? ==> s.runs[r].origin == s.callers[i].origin
    requires s.callers[i].progress.Waiting? ==> s.callers[i].progress.run == r
    ensures CanEnd(s, i)
    decreases ToJoin(s, i), 0
  {
    var e := if s.runs[r].phase.Active? then Settle(r, None) else Clear(r);
    assert OwnsEntry(s, r);
    StepKeeps(s, e);
    UnansweredCanEnd(Step(s, e), i);
    CanEndEarlier(s, e, i);
  }

  /** From every state in which a caller is neither answered nor cancelled nor
      joined to a failed run, things can go on so that it is answered with the
      session of a run that suits it; no event of that continuation cancels it. */
  lemma UnansweredCanEnd(s: Sessions, i: nat)
    requires Hopeful(s, i)
    ensures CanEnd(s, i)
    decreases ToJoin(s, i), 1
  {
    var c := s.callers[i];
    assert CallerOk(s, c);
    match c.progress
    case Joined(_) => JoinedCanEnd(s, i);
    case Waiting(r) =>
      if s.runs[r].phase.Cleared? {
        StepKeeps(s, Deliver(i));
        UnansweredCanEnd(Step(s, Deliver(i)), i);
        CanEndEarlier(s, Deliver(i), i);
      } else {
        RunCanEnd(s, i, r);
      }
    case Resolving =>
      if c.origin in s.pending {
        RunCanEnd(s, i, s.pending[c.origin]);
      } else {
        StepKeeps(s, Resolve(i));
        ResolveExact(s, i);
        JoinedCanEnd(Step(s, Resolve(i)), i);
        CanEndEarlier(s, Resolve(i), i);
      }
  }

  /** In every run: a caller whose signal has not fired can still get a session
      that suits it, unless its address was refused or its run failed. */
  lemma NobodyIsStuck(events: seq<Event>, i: nat)
    requires i < |Checks(events)| && !SignalFired(events, i)
    requires var s := Execute(Initial(), events);
             i < |s.callers| && !s.callers[i].progress.Answered?
             && (s.callers[i].progress.Joined? ==>
                   var r := s.callers[i].progress.run;
                   r < |s.runs| && (s.runs[r].phase.Active? || s.runs[r].session.Some?))
    ensures CanEnd(Execute(Initial(), events), i)
  {
    ExecuteKeeps(Initial(), events);
    CancelledExactly(events, i);
    UnansweredCanEnd(Execute(Initial(), events), i);
  }

  // ----- When a helper is told to stop -----

  ghost predicate HasSubscriber(s: Sessions, r: nat) {
    exists i :: 0 <= i < |s.callers| && SubscribedTo(s.callers[i], r)
  }

  lemma SubscriberCount(s: Sessions, r: nat)
    requires Inv(s) && r < |s.runs|
    ensures HasSubscriber(s, r) <==> s.runs[r].users > 0
  {
    UsersZero(s.callers, r);
  }

  lemma AbortCount(s: Sessions, e: Event, r: nat)
    requires Inv(s) && r < |s.runs| && !e.Close?
    ensures var t := Step(s, e);
            r < |t.runs|
            && (t.runs[r].aborted <==> s.runs[r].aborted || (s.runs[r].users > 0 && t.runs[r].users == 0))
  {
    if (e.Deliver? || e.Cancel?) && e.caller < |s.callers| && Subscribed(s.callers[e.caller]) {
      assert CallerOk(s, s.callers[e.caller]);
      SubscriberCount(s, s.callers[e.caller].progress.run);
      assert SubscribedTo(s.callers[e.caller], s.callers[e.caller].progress.run);
    }
  }

  lemma CancelAborts(s: Sessions, i: nat, r: nat)
    requires Inv(s) && r < |s.runs|
    ensures var t := DoCancel(s, i);
            && Inv(t) && r < |t.runs|
            && (t.runs[r].aborted <==> s.runs[r].aborted || (HasSubscriber(s, r) && !HasSubscriber(t, r)))
            && (HasSubscriber(t, r) ==> HasSubscriber(s, r))
  {
    CancelKeeps(s, i);
    var t := DoCancel(s, i);
    AbortCount(s, Cancel(i), r);
    SubscriberCount(s, r);
    SubscriberCount(t, r);
    if HasSubscriber(t, r) {
      var j :| 0 <= j < |t.callers| && SubscribedTo(t.callers[j], r);
      assert SubscribedTo(s.callers[j], r);
    }
  }

  lemma {:induction false} CancellingAborts(s: Sessions, i: nat, r: nat)
    requires Inv(s) && r < |s.runs|
    ensures var t := CancelFrom(s, i);
            && r < |t.runs|
            && (t.runs[r].aborted <==> s.runs[r].aborted || (HasSubscriber(s, r) && !HasSubscriber(t, r)))
            && (HasSubscriber(t, r) ==> HasSubscriber(s, r))
    decreases |s.callers| - i
  {
    if i < |s.callers| {
      CancelAborts(s, i, r);
      CancellingAborts(DoCancel(s, i), i + 1, r);
    }
  }

  /** A helper is told to stop by the step in which its last subscriber leaves, and
      by no other. */
  lemma AbortedExactly(s: Sessions, e: Event, r: nat)
    requires Inv(s) && r < |s.runs|
    ensures var t := Step(s, e);
            r < |t.runs|
            && (t.runs[r].aborted <==> s.runs[r].aborted || (HasSubscriber(s, r) && !HasSubscriber(t, r)))
  {
    if e.Close? {
      CancellingAborts(s, 0, r);
      CancelIgnoresClosed(s, 0);
    } else {
      StepKeeps(s, e);
      AbortCount(s, e, r);
      SubscriberCount(s, r);
      SubscriberCount(Step(s, e), r);
    }
  }
}
