/** Which lines the worker writes, told from the events of a run: how each request
    ends, which of them a cancellation or a shutdown aborts, and what is written
    when the output is full. */
module WorkerAnswers {
  import opened WorkerSteps
  import opened WorkerTheorems

  // ----- Lines that come in -----

  /** A request with an id of its own. */
  predicate Accepted(c: Setup, w: Worker, line: string) {
    && !w.closing && Utf8Size(line) <= MAX_MESSAGE && !c.blank(line)
    && c.parse(line).Call? && 0 < c.parse(line).id <= MAX_SAFE && c.parse(line).id !in w.pending
  }

  /** Too long, malformed, a broken browser reply, or an id that is unusable or
      still running. */
  predicate Unacceptable(c: Setup, w: Worker, line: string) {
    || Utf8Size(line) > MAX_MESSAGE
    || (!c.blank(line) &&
        match c.parse(line)
        case Invalid => true
        case BrowserReply(ok) => !ok
        case Call(id, _, _) => id <= 0 || id > MAX_SAFE || id in w.pending)
  }

  predicate CancelOf(c: Setup, w: Worker, e: Event, id: int) {
    e.Incoming? && Accepted(c, w, e.line) && c.parse(e.line).method_ == "cancel" && c.parse(e.line).target == id
  }

  // ----- Lines that go out -----

  datatype Output = Output(line: Line, size: nat)

  function Lines(s: seq<Output>): (r: seq<Line>)
    ensures |r| == |s|
  {
    seq(|s|, i requires 0 <= i < |s| => s[i].line)
  }

  function Sizes(s: seq<Output>): (r: seq<nat>)
    ensures |r| == |s|
  {
    seq(|s|, i requires 0 <= i < |s| => s[i].size)
  }

  function Results(id: int, sizes: seq<nat>): (r: seq<Output>)
    ensures |r| == |sizes|
  {
    seq(|sizes|, i requires 0 <= i < |sizes| => Output(Line(id, "result"), sizes[i]))
  }

  /** As many as the message and the output limit allow, from the first on. */
  function Fitting(bytes: nat, s: seq<Output>): (r: seq<Output>)
    ensures r <= s
    decreases |s|
  {
    if s == [] || s[0].size > MAX_MESSAGE || bytes + s[0].size > MAX_OUTPUT then []
    else [s[0]] + Fitting(bytes + s[0].size, s[1..])
  }

  function Answer(c: Setup, id: int, event: string): seq<Output> {
    [Output(Line(id, event), c.answerSize(Line(id, event)))]
  }

  /** What an event has to say on standard output. `aborted` are the running
      requests whose signal has fired. */
  function Offered(c: Setup, w: Worker, e: Event, aborted: set<int>): seq<Output> {
    match e
    case Emit(id, size) => [Output(Line(id, "result"), size)]
    case Bridge(event, size) => [Output(Line(0, event), size)]
    case Done(id, ok, size) =>
      if id !in w.pending then []
      else if ok && id !in aborted then [Output(Line(id, "complete"), size)]
      else [Output(Line(id, "error"), size)]
    case Incoming(line) =>
      if !Accepted(c, w, line) then []
      else
        var m := c.parse(line);
        if m.method_ == "cancel" then Answer(c, m.id, "complete")
        else if |w.pending| >= MAX_PENDING then Answer(c, m.id, "error")
        else Results(m.id, c.prefix(w.(accepted := w.accepted + [m.id]), m.id, m.method_))
    case _ => []
  }

  /** The worker after writing what fits of the offered lines; the first one that
      does not fit starts the shutdown. */
  ghost predicate Wrote(w: Worker, after: Worker, offered: seq<Output>) {
    var out := Fitting(w.outputBytes, offered);
    && after.log == w.log + Lines(out)
    && after.inFlight == w.inFlight + Sizes(out)
    && (after.closing <==> |out| < |offered|)
  }

  lemma SendWrites(w: Worker, line: Line, size: nat)
    requires !w.closing
    ensures Wrote(w, Send(w, line, size), [Output(line, size)])
  {
    var offered := [Output(line, size)];
    assert Fitting(w.outputBytes + size, offered[1..]) == [];
    assert Fitting(w.outputBytes, offered) == if Fits(w, size) then offered else [];
    if Fits(w, size) {
      assert Lines(offered) == [line] && Sizes(offered) == [size];
    } else {
      assert Lines([]) == [] && Sizes([]) == [];
    }
  }

  lemma WroteMore(w: Worker, mid: Worker, after: Worker, first: Output, rest: seq<Output>)
    requires first.size <= MAX_MESSAGE && w.outputBytes + first.size <= MAX_OUTPUT
    requires mid.log == w.log + [first.line] && mid.inFlight == w.inFlight + [first.size]
    requires mid.outputBytes == w.outputBytes + first.size && Wrote(mid, after, rest)
    ensures Wrote(w, after, [first] + rest)
  {
    var out := Fitting(mid.outputBytes, rest);
    assert ([first] + rest)[1..] == rest;
    assert Fitting(w.outputBytes, [first] + rest) == [first] + out;
    assert Lines([first] + out) == [first.line] + Lines(out);
    assert Sizes([first] + out) == [first.size] + Sizes(out);
  }

  lemma {:induction false} EmitsWrites(w: Worker, id: int, sizes: seq<nat>)
    requires !w.closing
    ensures Wrote(w, Emits(w, id, sizes), Results(id, sizes))
    decreases |sizes|
  {
    if sizes == [] {
      assert Lines([]) == [] && Sizes([]) == [];
    } else {
      var line := Line(id, "result");
      var mid := Send(w, line, sizes[0]);
      assert Results(id, sizes) == [Output(line, sizes[0])] + Results(id, sizes[1..]);
      if Fits(w, sizes[0]) {
        EmitsWrites(mid, id, sizes[1..]);
        WroteMore(w, mid, Emits(w, id, sizes), Output(line, sizes[0]), Results(id, sizes[1..]));
      } else {
        EmitsClosed(mid, id, sizes[1..]);
        assert Lines([]) == [] && Sizes([]) == [];
      }
    }
  }

  // ----- One step -----

  function AbortedNow(w: Worker): set<int> {
    set id | id in w.pending && w.pending[id].aborted
  }

  /** An event that ends the worker whatever fits. */
  predicate Ends(c: Setup, w: Worker, e: Event) {
    e.Stop? || (e.Incoming? && Unacceptable(c, w, e.line))
  }

  ghost predicate StepWrites(c: Setup, w: Worker, e: Event, aborted: set<int>) {
    var after := Step(c, w, e);
    var offered := Offered(c, w, e, aborted);
    var out := Fitting(w.outputBytes, offered);
    && after.log == w.log + Lines(out)
    && (!e.Written? ==> after.inFlight == w.inFlight + Sizes(out))
    && (e.Written? ==> after.inFlight == if w.inFlight == [] then [] else w.inFlight[1..])
    && (after.closing <==> Ends(c, w, e) || |out| < |offered|)
  }

  lemma SumHead(s: seq<nat>)
    requires s != []
    ensures s[0] <= Sum(s)
  {
  }

  /** Each event of an open worker writes what it has to say as far as it fits. */
  lemma StepWrote(c: Setup, w: Worker, e: Event)
    requires Inv(w) && !w.closing
    ensures StepWrites(c, w, e, AbortedNow(w))
  {
    assert Lines([]) == [] && Sizes([]) == [];
    assert Fitting(w.outputBytes, []) == [];
    match e
    case Incoming(line) => LineWrote(c, w, line);
    case Emit(id, size) => SendWrites(w, Line(id, "result"), size);
    case Bridge(event, size) => SendWrites(w, Line(0, event), size);
    case Done(id, ok, size) =>
      if id in w.pending { SendWrites(w, Line(id, if ok && !w.pending[id].aborted then "complete" else "error"), size); }
    case Written => if w.inFlight != [] { SumHead(w.inFlight); }
    case Resume =>
    case Stop =>
  }

  lemma LineWrote(c: Setup, w: Worker, line: string)
    requires Inv(w) && !w.closing
    ensures StepWrites(c, w, Incoming(line), AbortedNow(w))
  {
    assert Lines([]) == [] && Sizes([]) == [];
    assert Fitting(w.outputBytes, []) == [];
    if Accepted(c, w, line) {
      var m := c.parse(line);
      var w1 := w.(accepted := w.accepted + [m.id]);
      if m.method_ == "cancel" {
        SendWrites(w1.(pending := Abort(w1.pending, m.target)), Line(m.id, "complete"), c.answerSize(Line(m.id, "complete")));
      } else if |w.pending| >= MAX_PENDING {
        SendWrites(w1, Line(m.id, "error"), c.answerSize(Line(m.id, "error")));
      } else {
        EmitsWrites(w1, m.id, c.prefix(w1, m.id, m.method_));
      }
    }
  }

  /** A closing worker writes nothing more. */
  lemma ClosedIsSilent(c: Setup, w: Worker, e: Event)
    requires w.closing
    ensures Step(c, w, e).closing && Step(c, w, e).log == w.log
  {
  }

  // ----- Which requests are aborted -----

  predicate ShutsDown(c: Setup, w: Worker, e: Event) {
    !w.closing && Step(c, w, e).closing
  }

  predicate AbortsIt(c: Setup, w: Worker, e: Event, id: int)
    requires id in w.pending
  {
    CancelOf(c, w, e, id) || (ShutsDown(c, w, e) && !Persistent(w.pending[id].method_))
  }

  lemma {:induction false} EmitsAborts(w: Worker, id: int, sizes: seq<nat>)
    ensures Emits(w, id, sizes).pending == if !w.closing && Emits(w, id, sizes).closing then Shutdown(w).pending else w.pending
    ensures w.closing ==> Emits(w, id, sizes).closing
    decreases |sizes|
  {
    if sizes != [] {
      var mid := Send(w, Line(id, "result"), sizes[0]);
      EmitsAborts(mid, id, sizes[1..]);
    }
  }

  /** What a step does to the requests that run: it may end one, admit one, and
      abort those that AbortsIt names. */
  lemma PendingStep(c: Setup, w: Worker, e: Event, id: int)
    ensures var after := Step(c, w, e);
            && (id in after.pending <==>
                  (id in w.pending && !(e.Done? && e.id == id))
                  || (e.Incoming? && Admits(c, w, e.line) && c.parse(e.line).id == id))
            && (id in w.pending && id in after.pending ==>
                  && after.pending[id].method_ == w.pending[id].method_
                  && (after.pending[id].aborted <==> w.pending[id].aborted || AbortsIt(c, w, e, id)))
            && (id !in w.pending && id in after.pending ==>
                  after.pending[id] == Entry(c.parse(e.line).method_, false))
  {
    if e.Incoming? && Accepted(c, w, e.line) {
      var m := c.parse(e.line);
      var w1 := w.(accepted := w.accepted + [m.id]);
      if m.method_ != "cancel" && |w.pending| < MAX_PENDING {
        EmitsAborts(w1, m.id, c.prefix(w1, m.id, m.method_));
      }
    }
  }

  /** The signal of the running request id has fired: an accepted cancel line named
      it while it ran, or a shutdown began that does not spare it. */
  predicate Aborted(c: Setup, events: seq<Event>, id: int)
    decreases |events|
  {
    events != [] &&
    var init, e := events[..|events| - 1], events[|events| - 1];
    var w := Run(c, Fresh(), init);
    id in w.pending && (Aborted(c, init, id) || AbortsIt(c, w, e, id))
  }

  lemma {:induction false} AbortedExactly(c: Setup, events: seq<Event>, id: int)
    requires id in Run(c, Fresh(), events).pending
    ensures Run(c, Fresh(), events).pending[id].aborted <==> Aborted(c, events, id)
    decreases |events|
  {
    if events != [] {
      var init, e := events[..|events| - 1], events[|events| - 1];
      var w := Run(c, Fresh(), init);
      PendingStep(c, w, e, id);
      if id in w.pending { AbortedExactly(c, init, id); }
    }
  }

  function AllAborted(c: Setup, events: seq<Event>): set<int> {
    set id | id in Run(c, Fresh(), events).pending && Aborted(c, events, id)
  }

  lemma AbortedSet(c: Setup, events: seq<Event>)
    ensures AllAborted(c, events) == AbortedNow(Run(c, Fresh(), events))
  {
    forall id | id in Run(c, Fresh(), events).pending
      ensures id in AllAborted(c, events) <==> id in AbortedNow(Run(c, Fresh(), events))
    {
      AbortedExactly(c, events, id);
    }
  }

  // ----- Every run -----

  /** Over every run: an event writes the lines it has to say that fit, and a worker
      that closes says nothing more. A settling task says "complete" exactly if it
      succeeded and was not aborted, a cancel request "complete", and a request
      over the limit "error". */
  lemma EveryLine(c: Setup, events: seq<Event>, e: Event)
    ensures var w := Run(c, Fresh(), events);
            var after := Run(c, Fresh(), events + [e]);
            && (!w.closing ==> StepWrites(c, w, e, AllAborted(c, events)))
            && (w.closing ==> after.closing && after.log == w.log)
            && after == Step(c, w, e)
  {
    var w := Run(c, Fresh(), events);
    EveryRun(c, events);
    RunSnoc(c, Fresh(), events, e);
    if w.closing {
      ClosedIsSilent(c, w, e);
    } else {
      AbortedSet(c, events);
      StepWrote(c, w, e);
    }
  }

  /** How a task ends: with one line, which says whether it was done. */
  lemma TaskAnswer(c: Setup, events: seq<Event>, id: int, ok: bool, size: nat)
    requires id in Run(c, Fresh(), events).pending
    ensures var w := Run(c, Fresh(), events);
            var after := Run(c, Fresh(), events + [Done(id, ok, size)]);
            && id !in after.pending
            && after.log == w.log + (if w.closing || !Fits(w, size) then []
                                     else if ok && !Aborted(c, events, id) then [Line(id, "complete")]
                                     else [Line(id, "error")])
            && (after.closing <==> w.closing || !Fits(w, size))
  {
    var w := Run(c, Fresh(), events);
    var e := Done(id, ok, size);
    EveryLine(c, events, e);
    PendingStep(c, w, e, id);
    if !w.closing {
      var offered := Offered(c, w, e, AllAborted(c, events));
      assert Fitting(w.outputBytes + size, offered[1..]) == [];
      assert Fitting(w.outputBytes, offered) == if Fits(w, size) then offered else [];
      assert id in AllAborted(c, events) <==> Aborted(c, events, id);
    }
  }

  /** A request that is accepted: a cancel is done at once and aborts the request it
      names if that one runs, one too many is refused, and any other starts. */
  lemma RequestAnswer(c: Setup, events: seq<Event>, line: string)
    requires Accepted(c, Run(c, Fresh(), events), line)
    ensures var w := Run(c, Fresh(), events);
            var after := Run(c, Fresh(), events + [Incoming(line)]);
            var m := c.parse(line);
            && after.accepted == w.accepted + [m.id]
            && (m.method_ == "cancel" ==>
                  && after.pending.Keys == w.pending.Keys
                  && after.log == w.log + (if Fits(w, c.answerSize(Line(m.id, "complete"))) then [Line(m.id, "complete")] else [])
                  && (m.target in w.pending ==> Aborted(c, events + [Incoming(line)], m.target)))
            && (m.method_ != "cancel" && |w.pending| >= MAX_PENDING ==>
                  && after.pending.Keys == w.pending.Keys
                  && after.log == w.log + (if Fits(w, c.answerSize(Line(m.id, "error"))) then [Line(m.id, "error")] else []))
            && (m.method_ != "cancel" && |w.pending| < MAX_PENDING ==>
                  && after.pending.Keys == w.pending.Keys + {m.id}
                  && Terminals(after.log, m.id) == Terminals(w.log, m.id))
  {
    var w := Run(c, Fresh(), events);
    var m := c.parse(line);
    var e := Incoming(line);
    var all := events + [e];
    assert all[..|all| - 1] == events;
    EveryLine(c, events, e);
    EveryRun(c, events);
    forall id ensures id in Step(c, w, e).pending <==>
                        id in w.pending || (Admits(c, w, line) && m.id == id)
    {
      PendingStep(c, w, e, id);
    }
    var w1 := w.(accepted := w.accepted + [m.id]);
    if m.method_ != "cancel" && |w.pending| < MAX_PENDING {
      EmitsInv(w1, m.id, c.prefix(w1, m.id, m.method_));
    }
  }

  // ----- Lines of the input -----

  /** The complete lines of the input, and what follows the last one. */
  function CompleteLines(input: string): seq<string> {
    var end := LineEnd(input);
    if end == |input| then [] else [input[..end]] + CompleteLines(input[end + 1..])
  }

  function Remainder(input: string): string {
    var end := LineEnd(input);
    if end == |input| then input else Remainder(input[end + 1..])
  }

  function Terminated(lines: seq<string>): string {
    if lines == [] then "" else lines[0] + "\n" + Terminated(lines[1..])
  }

  lemma {:induction false} LinesHead(input: string, end: nat)
    requires end == LineEnd(input) < |input|
    ensures CompleteLines(input) == [input[..end]] + CompleteLines(input[end + 1..])
  {
  }

  lemma {:induction false} RemainderHead(input: string, end: nat)
    requires end == LineEnd(input) < |input|
    ensures Remainder(input) == Remainder(input[end + 1..])
  {
  }

  lemma TerminatedHead(line: string, lines: seq<string>)
    ensures Terminated([line] + lines) == line + "\n" + Terminated(lines)
  {
    assert ([line] + lines)[1..] == lines;
  }

  ghost predicate Unbroken(lines: seq<string>, rest: string) {
    '\n' !in rest && forall i | 0 <= i < |lines| :: '\n' !in lines[i]
  }

  /** Cutting the input into lines loses nothing. */
  lemma {:induction false} LinesExact(input: string)
    ensures Terminated(CompleteLines(input)) + Remainder(input) == input
    ensures Unbroken(CompleteLines(input), Remainder(input))
    decreases |input|
  {
    var end := LineEnd(input);
    if end < |input| {
      LinesExact(input[end + 1..]);
      LinesHead(input, end);
      RemainderHead(input, end);
      LinesJoin(input, end, CompleteLines(input[end + 1..]), Remainder(input[end + 1..]));
    }
  }

  lemma LinesJoin(input: string, end: nat, lines: seq<string>, rest: string)
    requires end < |input| && input[end] == '\n' && '\n' !in input[..end]
    requires Terminated(lines) + rest == input[end + 1..] && Unbroken(lines, rest)
    ensures Terminated([input[..end]] + lines) + rest == input && Unbroken([input[..end]] + lines, rest)
  {
    TerminatedHead(input[..end], lines);
    CutLine(input, end);
    Regroup(input[..end] + "\n", Terminated(lines), rest);
  }

  lemma CutLine(input: string, end: nat)
    requires end < |input| && input[end] == '\n'
    ensures input == input[..end] + "\n" + input[end + 1..]
  {
  }

  lemma Regroup(a: string, b: string, c: string)
    ensures a + b + c == a + (b + c)
  {
  }

  function Incomings(lines: seq<string>): (r: seq<Event>)
    ensures |r| == |lines|
  {
    seq(|lines|, i requires 0 <= i < |lines| => Incoming(lines[i]))
  }

  lemma {:induction false} ClosedRun(c: Setup, w: Worker, lines: seq<string>)
    requires w.closing
    ensures Run(c, w, Incomings(lines)) == w
    decreases |lines|
  {
    if lines != [] {
      var init := lines[..|lines| - 1];
      assert Incomings(lines) == Incomings(init) + [Incoming(lines[|lines| - 1])];
      RunSnoc(c, w, Incomings(init), Incoming(lines[|lines| - 1]));
      ClosedRun(c, w, init);
    }
  }

  lemma RunHead(c: Setup, w: Worker, e: Event, events: seq<Event>)
    ensures Run(c, w, [e] + events) == Run(c, Step(c, w, e), events)
  {
    RunJoins(c, w, [e], events);
    RunSnoc(c, w, [], e);
    assert [] + [e] == [e];
  }

  lemma FirstLineRun(c: Setup, w: Worker, line: string, lines: seq<string>)
    requires !w.closing
    ensures Run(c, w, Incomings([line] + lines)) == Run(c, TakeLine(c, w, line), Incomings(lines))
  {
    assert Incomings([line] + lines) == [Incoming(line)] + Incomings(lines);
    RunHead(c, w, Incoming(line), Incomings(lines));
  }

  lemma {:induction false} DrainHead(c: Setup, input: string, w: Worker, end: nat)
    requires !w.closing && end == LineEnd(input) < |input|
    ensures Drain(c, input, w) == Drain(c, input[end + 1..], TakeLine(c, w, input[..end]))
  {
  }

  /** The framing loop is the run of its lines: each complete line is received once,
      in order, and what is unfinished is kept while the worker is open. */
  lemma {:induction false} DrainIsRun(c: Setup, input: string, w: Worker)
    ensures Drain(c, input, w).1 == Run(c, w, Incomings(CompleteLines(input)))
    ensures !Drain(c, input, w).1.closing ==> Drain(c, input, w).0 == Remainder(input)
    decreases |input|
  {
    var end := LineEnd(input);
    if w.closing {
      ClosedRun(c, w, CompleteLines(input));
    } else if end < |input| {
      DrainIsRun(c, input[end + 1..], TakeLine(c, w, input[..end]));
      LinesHead(input, end);
      RemainderHead(input, end);
      FirstLineRun(c, w, input[..end], CompleteLines(input[end + 1..]));
      DrainHead(c, input, w, end);
    } else {
      assert Incomings([]) == [];
    }
  }
}
