/** Properties of the worker over every run, and of its line framing. */
module WorkerTheorems {
  import opened WorkerSteps

  // ----- Framing does not depend on chunks -----

  lemma {:induction false} Utf8Grows(a: string, b: string)
    ensures Utf8Size(a + b) == Utf8Size(a) + Utf8Size(b)
    decreases |b|
  {
    if b == "" {
      assert a + b == a;
    } else {
      assert (a + b)[..|a + b| - 1] == a + b[..|b| - 1];
      Utf8Grows(a, b[..|b| - 1]);
    }
  }

  lemma {:induction false} LineEndGrows(a: string, b: string)
    ensures LineEnd(a) < |a| ==> LineEnd(a + b) == LineEnd(a)
    ensures LineEnd(a) == |a| ==> LineEnd(a + b) == |a| + LineEnd(b)
  {
    if a == "" {
      assert a + b == b;
    } else {
      assert (a + b)[1..] == a[1..] + b;
      LineEndGrows(a[1..], b);
    }
  }

  /** More input only continues where the loop stopped. */
  lemma {:induction false} DrainContinues(c: Setup, a: string, b: string, w: Worker)
    ensures Drain(c, a + b, w) == Drain(c, Drain(c, a, w).0 + b, Drain(c, a, w).1)
    decreases |a|
  {
    var end := LineEnd(a);
    LineEndGrows(a, b);
    if !w.closing && end < |a| {
      assert (a + b)[..end] == a[..end];
      assert (a + b)[end + 1..] == a[end + 1..] + b;
      DrainContinues(c, a[end + 1..], b, TakeLine(c, w, a[..end]));
    }
  }

  lemma {:induction false} DrainStops(c: Setup, a: string, w: Worker)
    ensures Drain(c, a, w).1.closing || LineEnd(Drain(c, a, w).0) == |Drain(c, a, w).0|
    decreases |a|
  {
    var end := LineEnd(a);
    if !w.closing && end < |a| { DrainStops(c, a[end + 1..], TakeLine(c, w, a[..end])); }
  }

  /** The same worker, and the same unread input while it is open. */
  predicate Same(x: (string, Worker), y: (string, Worker)) {
    x.1 == y.1 && (x.1.closing || x.0 == y.0)
  }

  lemma ClosedIgnores(c: Setup, input: string, w: Worker, chunk: string)
    requires w.closing
    ensures Data(c, input, w, chunk).1 == w
  {
  }

  lemma DrainLong(c: Setup, all: string, w: Worker)
    requires !w.closing && LineEnd(all) < |all| && Utf8Size(all[..LineEnd(all)]) > MAX_MESSAGE
    ensures Drain(c, all, w).1 == Shutdown(w)
  {
    var rest := all[LineEnd(all) + 1..];
    assert Drain(c, rest, Shutdown(w)) == (rest, Shutdown(w));
  }

  /** A line that is already too long ends the worker whether or not the rest of
      it has come. */
  lemma TooLong(c: Setup, input: string, w: Worker, chunk: string)
    requires !w.closing && LineEnd(input) == |input| && Utf8Size(input) > MAX_MESSAGE
    ensures Data(c, input, w, chunk).1 == Shutdown(w)
  {
    var all := input + chunk;
    LongLine(input, chunk);
    if LineEnd(all) < |all| {
      DrainLong(c, all, w);
    } else {
      DrainNone(c, all, w);
    }
  }

  lemma LongLine(input: string, chunk: string)
    requires LineEnd(input) == |input|
    ensures Utf8Size((input + chunk)[..LineEnd(input + chunk)]) >= Utf8Size(input)
    ensures LineEnd(input + chunk) == |input + chunk| ==> Utf8Size(input + chunk) >= Utf8Size(input)
  {
    LineEndGrows(input, chunk);
    var n := LineEnd(chunk);
    assert (input + chunk)[..|input| + n] == input + chunk[..n];
    Utf8Grows(input, chunk[..n]);
    Utf8Grows(input, chunk);
  }

  lemma DrainNone(c: Setup, all: string, w: Worker)
    requires LineEnd(all) == |all|
    ensures Drain(c, all, w) == (all, w)
  {
  }

  function Checked(rest: string, w: Worker): Worker {
    if Utf8Size(rest) > MAX_MESSAGE then Shutdown(w) else w
  }

  lemma DataIs(c: Setup, input: string, w: Worker, chunk: string)
    ensures Data(c, input, w, chunk)
         == (Drain(c, input + chunk, w).0, Checked(Drain(c, input + chunk, w).0, Drain(c, input + chunk, w).1))
  {
  }

  lemma TwoChunks(c: Setup, input: string, w: Worker, a: string, b: string)
    ensures var x := Data(c, input, w, a);
            Same(Data(c, x.0, x.1, b), Data(c, input, w, a + b))
  {
    var d := Drain(c, input + a, w);
    assert input + (a + b) == (input + a) + b;
    DrainContinues(c, input + a, b, w);
    DrainStops(c, input + a, w);
    DataIs(c, input, w, a);
    DataIs(c, input, w, a + b);
    DataIs(c, d.0, d.1, b);
    if Utf8Size(d.0) > MAX_MESSAGE {
      ClosedIgnores(c, d.0, Shutdown(d.1), b);
      if d.1.closing {
        ClosedIgnores(c, d.0, d.1, b);
      } else {
        TooLong(c, d.0, d.1, b);
      }
    }
  }

  function Whole(chunks: seq<string>): string {
    if chunks == [] then "" else Whole(chunks[..|chunks| - 1]) + chunks[|chunks| - 1]
  }

  /** However the input is cut, the worker ends up as if it had come in one piece. */
  lemma {:induction false} ChunksDoNotMatter(c: Setup, w: Worker, chunks: seq<string>)
    ensures Same(DataAll(c, "", w, chunks), Data(c, "", w, Whole(chunks)))
    decreases |chunks|
  {
    if chunks == [] {
      assert "" + "" == "";
    } else {
      var init, last := chunks[..|chunks| - 1], chunks[|chunks| - 1];
      ChunksDoNotMatter(c, w, init);
      TwoChunks(c, "", w, Whole(init), last);
      var x := DataAll(c, "", w, init);
      if x.1.closing {
        ClosedIgnores(c, x.0, x.1, last);
        ClosedIgnores(c, Data(c, "", w, Whole(init)).0, x.1, last);
      }
    }
  }

  // ----- The invariant -----

  function Sum(s: seq<nat>): nat {
    if s == [] then 0 else s[0] + Sum(s[1..])
  }

  lemma {:induction false} SumSnoc(s: seq<nat>, x: nat)
    ensures Sum(s + [x]) == Sum(s) + x
  {
    if s != [] {
      assert (s + [x])[1..] == s[1..] + [x];
      SumSnoc(s[1..], x);
    }
  }

  function Terminals(log: seq<Line>, id: int): nat {
    if log == [] then 0
    else Terminals(log[..|log| - 1], id)
         + if log[|log| - 1].id == id && log[|log| - 1].event != "result" then 1 else 0
  }

  function Times(ids: seq<int>, id: int): nat {
    if ids == [] then 0 else Times(ids[..|ids| - 1], id) + if ids[|ids| - 1] == id then 1 else 0
  }

  function Waiting(w: Worker, id: int): nat { if id in w.pending then 1 else 0 }

  /** Bounded output and a shutdown that does not run ahead of what it watches. */
  predicate Inv(w: Worker) {
    && w.outputBytes == Sum(w.inFlight) <= MAX_OUTPUT
    && |w.pending| <= MAX_PENDING
    && (w.closing <==> w.phase != Open)
    && (w.phase == ClosingBrowser || w.phase == Settling || w.phase == Closed ==>
          forall id | id in w.watched && id in w.pending :: !Persistent(w.pending[id].method_))
    && (w.phase == Closed ==> w.watched !! w.pending.Keys)
  }

  /** One answer for each accepted request that is no longer running; while the
      worker is open, exactly one. */
  ghost predicate Answered(w: Worker) {
    forall id | id > 0 ::
      && Terminals(w.log, id) + Waiting(w, id) <= Times(w.accepted, id)
      && (!w.closing ==> Terminals(w.log, id) + Waiting(w, id) == Times(w.accepted, id))
  }

  lemma LogSnoc(log: seq<Line>, line: Line, id: int)
    ensures Terminals(log + [line], id)
         == Terminals(log, id) + if line.id == id && line.event != "result" then 1 else 0
  {
    assert (log + [line])[..|log|] == log;
  }

  lemma TimesSnoc(ids: seq<int>, x: int, id: int)
    ensures Times(ids + [x], id) == Times(ids, id) + if x == id then 1 else 0
  {
    assert (ids + [x])[..|ids|] == ids;
  }

  lemma ShutdownInv(w: Worker)
    requires Inv(w)
    ensures Inv(Shutdown(w)) && Shutdown(w).pending.Keys == w.pending.Keys && Shutdown(w).log == w.log
  {
    SameSize(w.pending, Shutdown(w).pending);
  }

  lemma SameSize(a: map<int, Entry>, b: map<int, Entry>)
    requires a.Keys == b.Keys
    ensures |a| == |b|
  {
    assert |a| == |a.Keys| && |b| == |b.Keys|;
  }

  /** Where a send may leave the log: as it was, or with its line at the end. */
  predicate Sent(w: Worker, line: Line, after: Worker) {
    && after.pending.Keys == w.pending.Keys && after.accepted == w.accepted
    && (w.closing ==> after == w)
    && (after.closing ==> after.log == w.log)
    && (!after.closing ==> after.log == w.log + [line])
    && (after.closing ==> w.closing || after == Shutdown(w))
  }

  lemma SendInv(w: Worker, line: Line, size: nat)
    requires Inv(w)
    ensures Inv(Send(w, line, size)) && Sent(w, line, Send(w, line, size))
  {
    ShutdownInv(w);
    SumSnoc(w.inFlight, size);
  }

  lemma {:induction false} EmitsInv(w: Worker, id: int, sizes: seq<nat>)
    requires Inv(w)
    ensures Inv(Emits(w, id, sizes))
    ensures Emits(w, id, sizes).pending.Keys == w.pending.Keys && Emits(w, id, sizes).accepted == w.accepted
    ensures w.closing ==> Emits(w, id, sizes).closing
    ensures forall x :: Terminals(Emits(w, id, sizes).log, x) == Terminals(w.log, x)
    decreases |sizes|
  {
    if sizes != [] {
      var line := Line(id, "result");
      SendInv(w, line, sizes[0]);
      var w1 := Send(w, line, sizes[0]);
      forall x ensures Terminals(w1.log, x) == Terminals(w.log, x) { LogSnoc(w.log, line, x); }
      EmitsInv(w1, id, sizes[1..]);
    }
  }

  /** An answer to a request that has just been accepted or is just settling. */
  lemma AnswerOne(w: Worker, line: Line, size: nat)
    requires Inv(w) && line.event != "result"
    requires forall id | id > 0 ::
               && Terminals(w.log, id) + Waiting(w, id) + (if id == line.id then 1 else 0) <= Times(w.accepted, id)
               && (!w.closing ==>
                     Terminals(w.log, id) + Waiting(w, id) + (if id == line.id then 1 else 0) == Times(w.accepted, id))
    ensures Inv(Send(w, line, size)) && Answered(Send(w, line, size))
  {
    SendInv(w, line, size);
    forall id
      ensures Terminals(Send(w, line, size).log, id)
              <= Terminals(w.log, id) + if id == line.id then 1 else 0
      ensures !Send(w, line, size).closing ==>
                Terminals(Send(w, line, size).log, id) == Terminals(w.log, id) + if id == line.id then 1 else 0
    {
      LogSnoc(w.log, line, id);
    }
  }

  lemma ReceiveInv(c: Setup, w: Worker, line: string)
    requires Inv(w) && Answered(w) && !w.closing
    ensures Inv(Receive(c, w, line)) && Answered(Receive(c, w, line))
  {
    ShutdownInv(w);
    match c.parse(line)
    case Invalid =>
    case BrowserReply(ok) =>
    case Call(id, method_, target) =>
      if !(id <= 0 || id > MAX_SAFE || id in w.pending) { CallInv(c, w, id, method_, target); }
  }

  lemma CallInv(c: Setup, w: Worker, id: int, method_: string, target: int)
    requires Inv(w) && Answered(w) && !w.closing && id > 0 && id !in w.pending
    ensures var w1 := w.(accepted := w.accepted + [id]);
            && (method_ == "cancel" ==>
                  var after := Send(w1.(pending := Abort(w1.pending, target)), Line(id, "complete"),
                                    c.answerSize(Line(id, "complete")));
                  Inv(after) && Answered(after))
            && (method_ != "cancel" && |w1.pending| >= MAX_PENDING ==>
                  var after := Send(w1, Line(id, "error"), c.answerSize(Line(id, "error")));
                  Inv(after) && Answered(after))
            && (method_ != "cancel" && |w1.pending| < MAX_PENDING ==>
                  var w2 := Emits(w1, id, c.prefix(w1, id, method_));
                  var after := w2.(pending := w2.pending[id := Entry(method_, false)]);
                  Inv(after) && Answered(after))
  {
    var w1 := w.(accepted := w.accepted + [id]);
    forall x ensures Times(w1.accepted, x) == Times(w.accepted, x) + if x == id then 1 else 0 {
      TimesSnoc(w.accepted, id, x);
    }
    if method_ == "cancel" {
      var w2 := w1.(pending := Abort(w1.pending, target));
      assert w2.pending.Keys == w1.pending.Keys;
      SameSize(w2.pending, w1.pending);
      AnswerOne(w2, Line(id, "complete"), c.answerSize(Line(id, "complete")));
    } else if |w1.pending| >= MAX_PENDING {
      AnswerOne(w1, Line(id, "error"), c.answerSize(Line(id, "error")));
    } else {
      AdmitInv(w1, id, method_, c.prefix(w1, id, method_));
    }
  }

  lemma AdmitInv(w: Worker, id: int, method_: string, sizes: seq<nat>)
    requires Inv(w) && id !in w.pending && |w.pending| < MAX_PENDING && !w.closing
    requires forall x | x > 0 :: Terminals(w.log, x) + Waiting(w, x) + (if x == id then 1 else 0) == Times(w.accepted, x)
    ensures var w2 := Emits(w, id, sizes);
            var after := w2.(pending := w2.pending[id := Entry(method_, false)]);
            Inv(after) && Answered(after)
  {
    EmitsInv(w, id, sizes);
    var w2 := Emits(w, id, sizes);
    SameSize(w2.pending, w.pending);
    EmitsWatch(w, id, sizes);
    var after := w2.(pending := w2.pending[id := Entry(method_, false)]);
    assert after.pending.Keys == w.pending.Keys + {id};
    assert |after.pending| == |after.pending.Keys| && |w.pending| == |w.pending.Keys|;
  }

  /** A shutdown that starts inside a send cannot watch a task that is not
      entered yet. */
  lemma {:induction false} EmitsWatch(w: Worker, id: int, sizes: seq<nat>)
    requires !w.closing && w.phase == Open
    ensures Emits(w, id, sizes).closing ==>
              Emits(w, id, sizes).watched == w.pending.Keys && Emits(w, id, sizes).phase == Persisting
    ensures Emits(w, id, sizes).closing <==> !AllFit(w.outputBytes, sizes)
    ensures !Emits(w, id, sizes).closing ==> Emits(w, id, sizes).phase == Open
    decreases |sizes|
  {
    if sizes != [] {
      var line := Line(id, "result");
      if Fits(w, sizes[0]) {
        EmitsWatch(Send(w, line, sizes[0]), id, sizes[1..]);
      } else {
        EmitsClosed(Shutdown(w), id, sizes[1..]);
      }
    }
  }

  lemma {:induction false} EmitsClosed(w: Worker, id: int, sizes: seq<nat>)
    requires w.closing
    ensures Emits(w, id, sizes) == w
    decreases |sizes|
  {
    if sizes != [] { EmitsClosed(w, id, sizes[1..]); }
  }

  /** Each message within its limit, and all of them within the output limit. */
  predicate AllFit(outputBytes: nat, sizes: seq<nat>)
    decreases |sizes|
  {
    sizes == []
    || (sizes[0] <= MAX_MESSAGE && outputBytes + sizes[0] <= MAX_OUTPUT && AllFit(outputBytes + sizes[0], sizes[1..]))
  }

  lemma {:induction false} AllFitExact(outputBytes: nat, sizes: seq<nat>)
    requires outputBytes <= MAX_OUTPUT
    ensures AllFit(outputBytes, sizes)
       <==> (forall i | 0 <= i < |sizes| :: sizes[i] <= MAX_MESSAGE) && outputBytes + Sum(sizes) <= MAX_OUTPUT
    decreases |sizes|
  {
    if sizes != [] {
      if outputBytes + sizes[0] <= MAX_OUTPUT { AllFitExact(outputBytes + sizes[0], sizes[1..]); }
      assert (forall i | 0 <= i < |sizes| :: sizes[i] <= MAX_MESSAGE)
        <==> sizes[0] <= MAX_MESSAGE && forall i | 0 <= i < |sizes| - 1 :: sizes[1..][i] <= MAX_MESSAGE by {
        assert forall i | 0 < i < |sizes| :: sizes[i] == sizes[1..][i - 1];
      }
    }
  }

  lemma SettleInv(w: Worker, id: int, ok: bool, size: nat)
    requires Inv(w) && Answered(w) && id in w.pending
    ensures Inv(Settle(w, id, ok, size)) && Answered(Settle(w, id, ok, size))
  {
    var line := Line(id, if ok && !w.pending[id].aborted then "complete" else "error");
    SendInv(w, line, size);
    var w1 := Send(w, line, size);
    var after := Settle(w, id, ok, size);
    assert after.pending.Keys == w1.pending.Keys - {id};
    assert |after.pending| == |after.pending.Keys| && |w1.pending| == |w1.pending.Keys|;
    SameSize(w1.pending, w.pending);
    forall x ensures Terminals(w1.log, x) <= Terminals(w.log, x) + if x == id then 1 else 0
      ensures !w1.closing ==> Terminals(w1.log, x) == Terminals(w.log, x) + if x == id then 1 else 0
    {
      LogSnoc(w.log, line, x);
    }
  }

  lemma EmitInv(w: Worker, id: int, size: nat)
    requires Inv(w) && Answered(w)
    ensures Inv(Send(w, Line(id, "result"), size)) && Answered(Send(w, Line(id, "result"), size))
  {
    var line := Line(id, "result");
    SendInv(w, line, size);
    forall x ensures Terminals(Send(w, line, size).log, x) == Terminals(w.log, x) { LogSnoc(w.log, line, x); }
  }

  lemma BridgeInv(w: Worker, event: string, size: nat)
    requires Inv(w) && Answered(w)
    ensures Inv(Send(w, Line(0, event), size)) && Answered(Send(w, Line(0, event), size))
  {
    var line := Line(0, event);
    SendInv(w, line, size);
    forall x | x > 0 ensures Terminals(Send(w, line, size).log, x) == Terminals(w.log, x) { LogSnoc(w.log, line, x); }
  }

  lemma ResumeInv(w: Worker)
    requires Inv(w)
    ensures Inv(Advance(w)) && Advance(w).pending == w.pending && Advance(w).log == w.log
  {
    if w.phase == Settling && !exists id | id in w.watched :: id in w.pending {
      assert forall id | id in w.watched :: id !in w.pending.Keys;
    }
  }

  lemma StepInv(c: Setup, w: Worker, e: Event)
    requires Inv(w) && Answered(w)
    ensures Inv(Step(c, w, e)) && Answered(Step(c, w, e))
  {
    match e
    case Incoming(line) => if !w.closing { ShutdownInv(w); ReceiveInv(c, w, line); }
    case Emit(id, size) => EmitInv(w, id, size);
    case Bridge(event, size) => BridgeInv(w, event, size);
    case Done(id, ok, size) => if id in w.pending { SettleInv(w, id, ok, size); }
    case Written =>
    case Resume => ResumeInv(w);
    case Stop => ShutdownInv(w);
  }

  /** Every run: output in flight never exceeds 64 MiB, every accepted request
      has exactly one answer or is still running until the worker closes, and
      never more than one. */
  lemma {:induction false} EveryRun(c: Setup, events: seq<Event>)
    ensures Inv(Run(c, Fresh(), events)) && Answered(Run(c, Fresh(), events))
    decreases |events|
  {
    if events != [] {
      EveryRun(c, events[..|events| - 1]);
      StepInv(c, Run(c, Fresh(), events[..|events| - 1]), events[|events| - 1]);
    }
  }

  lemma {:induction false} DrainInv(c: Setup, input: string, w: Worker)
    requires Inv(w) && Answered(w)
    ensures Inv(Drain(c, input, w).1) && Answered(Drain(c, input, w).1)
    decreases |input|
  {
    var end := LineEnd(input);
    if !w.closing && end < |input| {
      StepInv(c, w, Incoming(input[..end]));
      DrainInv(c, input[end + 1..], TakeLine(c, w, input[..end]));
    }
  }

  lemma DataInv(c: Setup, input: string, w: Worker, chunk: string)
    requires Inv(w) && Answered(w)
    ensures Inv(Data(c, input, w, chunk).1) && Answered(Data(c, input, w, chunk).1)
  {
    DrainInv(c, input + chunk, w);
    ShutdownInv(Drain(c, input + chunk, w).1);
  }

  // ----- Shutdown -----

  lemma {:induction false} EmitsSpare(w: Worker, id: int, sizes: seq<nat>, kept: int)
    requires kept in w.pending && Persistent(w.pending[kept].method_)
    ensures kept in Emits(w, id, sizes).pending && Emits(w, id, sizes).pending[kept] == w.pending[kept]
    decreases |sizes|
  {
    if sizes != [] { EmitsSpare(Send(w, Line(id, "result"), sizes[0]), id, sizes[1..], kept); }
  }

  /** A shutdown, wherever it starts, aborts no persistence request: only a
      cancellation that names it does. */
  lemma PersistenceSpared(c: Setup, w: Worker, e: Event, id: int)
    requires id in w.pending && Persistent(w.pending[id].method_)
    requires e.Incoming? && c.parse(e.line).Call? && c.parse(e.line).method_ == "cancel" ==> c.parse(e.line).target != id
    ensures id in Step(c, w, e).pending ==> Step(c, w, e).pending[id] == w.pending[id]
    ensures !(e.Done? && e.id == id) ==> id in Step(c, w, e).pending
  {
    if e.Incoming? && c.parse(e.line).Call? {
      var m := c.parse(e.line);
      var w1 := w.(accepted := w.accepted + [m.id]);
      EmitsSpare(w1, m.id, c.prefix(w1, m.id, m.method_), id);
    }
  }

  /** Tasks that a closing worker does not wait for. */
  function Unwatched(w: Worker): set<int> {
    if w.closing then w.pending.Keys - w.watched else {}
  }

  /** A line that is admitted as a task. */
  predicate Admits(c: Setup, w: Worker, line: string) {
    && !w.closing && Utf8Size(line) <= MAX_MESSAGE && !c.blank(line)
    && c.parse(line).Call? && 0 < c.parse(line).id <= MAX_SAFE && c.parse(line).id !in w.pending
    && c.parse(line).method_ != "cancel" && |w.pending| < MAX_PENDING
  }

  function PrefixOf(c: Setup, w: Worker, line: string): seq<nat>
    requires Admits(c, w, line)
  {
    var m := c.parse(line);
    c.prefix(w.(accepted := w.accepted + [m.id]), m.id, m.method_)
  }

  /** A line is admitted whose task emits, before its first await, a message
      above the message limit or more than the output limit still allows. */
  predicate Escapes(c: Setup, w: Worker, e: Event) {
    e.Incoming? && Admits(c, w, e.line)
    && !((forall i | 0 <= i < |PrefixOf(c, w, e.line)| :: PrefixOf(c, w, e.line)[i] <= MAX_MESSAGE)
         && w.outputBytes + Sum(PrefixOf(c, w, e.line)) <= MAX_OUTPUT)
  }

  /** Exactly then a step leaves a task that the shutdown does not wait for. */
  lemma EscapeExact(c: Setup, w: Worker, e: Event)
    requires Inv(w) && Unwatched(w) == {}
    ensures Unwatched(Step(c, w, e)) != {} <==> Escapes(c, w, e)
  {
    match e
    case Incoming(line) =>
      if Admits(c, w, line) { AdmittedEscape(c, w, line); } else if !w.closing { NoEscape(c, w, line); }
    case Emit(id, size) => SendEscapes(w, Line(id, "result"), size);
    case Bridge(event, size) => SendEscapes(w, Line(0, event), size);
    case Done(id, ok, size) =>
      if id in w.pending {
        SendEscapes(w, Line(id, if ok && !w.pending[id].aborted then "complete" else "error"), size);
      }
    case Written =>
    case Resume =>
    case Stop =>
  }

  lemma AdmittedEscape(c: Setup, w: Worker, line: string)
    requires Inv(w) && Admits(c, w, line)
    ensures Unwatched(TakeLine(c, w, line)) != {}
       <==> !((forall i | 0 <= i < |PrefixOf(c, w, line)| :: PrefixOf(c, w, line)[i] <= MAX_MESSAGE)
              && w.outputBytes + Sum(PrefixOf(c, w, line)) <= MAX_OUTPUT)
  {
    var m := c.parse(line);
    var w1 := w.(accepted := w.accepted + [m.id]);
    var sizes := PrefixOf(c, w, line);
    EmitsWatch(w1, m.id, sizes);
    EmitsInv(w1, m.id, sizes);
    AllFitExact(w.outputBytes, sizes);
    var w2 := Emits(w1, m.id, sizes);
    var after := w2.(pending := w2.pending[m.id := Entry(m.method_, false)]);
    assert TakeLine(c, w, line) == after;
    assert after.pending.Keys == w.pending.Keys + {m.id};
    if after.closing { assert m.id in Unwatched(after); }
  }

  /** What escapes is the request of the line. */
  lemma OnlyNewcomer(c: Setup, w: Worker, e: Event, id: int)
    requires Inv(w) && Unwatched(w) == {} && Escapes(c, w, e) && id == c.parse(e.line).id
    ensures Unwatched(Step(c, w, e)) == {id}
  {
    var sizes := PrefixOf(c, w, e.line);
    var w1 := w.(accepted := w.accepted + [id]);
    EmitsWatch(w1, id, sizes);
    EmitsInv(w1, id, sizes);
    AllFitExact(w.outputBytes, sizes);
    var w2 := Emits(w1, id, sizes);
    assert w2.watched == w.pending.Keys;
    assert Step(c, w, e) == w2.(pending := w2.pending[id := Entry(c.parse(e.line).method_, false)]);
  }

  lemma SendEscapes(w: Worker, line: Line, size: nat)
    requires Unwatched(w) == {}
    ensures Unwatched(Send(w, line, size)) == {}
  {
  }

  lemma NoEscape(c: Setup, w: Worker, line: string)
    requires Inv(w) && Unwatched(w) == {} && !w.closing && !Admits(c, w, line)
    ensures Unwatched(TakeLine(c, w, line)) == {}
  {
    assert Unwatched(Shutdown(w)) == {};
    if Utf8Size(line) <= MAX_MESSAGE && !c.blank(line) && c.parse(line).Call? {
      var m := c.parse(line);
      var w1 := w.(accepted := w.accepted + [m.id]);
      SendEscapes(w1.(pending := Abort(w1.pending, m.target)), Line(m.id, "complete"), c.answerSize(Line(m.id, "complete")));
      SendEscapes(w1, Line(m.id, "error"), c.answerSize(Line(m.id, "error")));
    }
  }

  // ----- The store closes last, over runs -----

  /** No step of the run from w lets a task escape. */
  predicate NoEscapes(c: Setup, w: Worker, events: seq<Event>)
    decreases |events|
  {
    events != [] ==>
      NoEscapes(c, w, events[..|events| - 1])
      && !Escapes(c, Run(c, w, events[..|events| - 1]), events[|events| - 1])
  }

  /** In a run without an escape the shutdown waits for every task, so when the
      store closes, and ever after, all admitted tasks have settled. */
  lemma {:induction false} StoreClosesLast(c: Setup, events: seq<Event>)
    requires NoEscapes(c, Fresh(), events)
    ensures Unwatched(Run(c, Fresh(), events)) == {}
    ensures Run(c, Fresh(), events).phase == Closed ==> Run(c, Fresh(), events).pending == map[]
    decreases |events|
  {
    if events != [] {
      var init := events[..|events| - 1];
      StoreClosesLast(c, init);
      EveryRun(c, init);
      EscapeExact(c, Run(c, Fresh(), init), events[|events| - 1]);
    }
    EveryRun(c, events);
    var w := Run(c, Fresh(), events);
    if w.phase == Closed { assert w.pending.Keys == {}; }
  }

  /** Only tasks settle and the shutdown goes on. */
  predicate NoLines(events: seq<Event>) {
    forall i | 0 <= i < |events| :: !events[i].Incoming?
  }

  predicate StoreLast(w: Worker) { w.phase == Closed ==> w.pending == map[] }

  /** Wherever the run is stopped, and however it is then brought to its end
      without another line, the store closes after every task has settled. */
  ghost predicate ClosesLast(c: Setup, events: seq<Event>) {
    forall k: nat, more: seq<Event> | k <= |events| && NoLines(more) ::
      StoreLast(Run(c, Fresh(), events[..k] + more))
  }

  lemma {:induction false} PrefixEscapesNot(c: Setup, w: Worker, events: seq<Event>, k: nat)
    requires NoEscapes(c, w, events) && k <= |events|
    ensures NoEscapes(c, w, events[..k])
    decreases |events|
  {
    if k < |events| {
      var init := events[..|events| - 1];
      PrefixEscapesNot(c, w, init, k);
      assert init[..k] == events[..k];
    } else {
      assert events[..k] == events;
    }
  }

  lemma EscapesSnoc(c: Setup, w: Worker, events: seq<Event>, e: Event)
    ensures NoEscapes(c, w, events + [e]) <==> NoEscapes(c, w, events) && !Escapes(c, Run(c, w, events), e)
  {
    assert (events + [e])[..|events|] == events;
  }

  lemma NoLineStep(c: Setup, w: Worker, events: seq<Event>, e: Event)
    requires NoEscapes(c, w, events) && !e.Incoming?
    ensures NoEscapes(c, w, events + [e])
  {
    EscapesSnoc(c, w, events, e);
  }

  lemma SplitLast(events: seq<Event>, more: seq<Event>)
    requires more != []
    ensures events + more == (events + more[..|more| - 1]) + [more[|more| - 1]]
    ensures NoLines(more) ==> NoLines(more[..|more| - 1]) && !more[|more| - 1].Incoming?
  {
  }

  lemma {:induction false} NoLineNoEscape(c: Setup, w: Worker, events: seq<Event>, more: seq<Event>)
    requires NoEscapes(c, w, events) && NoLines(more)
    ensures NoEscapes(c, w, events + more)
    decreases |more|
  {
    if more == [] {
      assert events + more == events;
    } else {
      SplitLast(events, more);
      NoLineNoEscape(c, w, events, more[..|more| - 1]);
      NoLineStep(c, w, events + more[..|more| - 1], more[|more| - 1]);
    }
  }

  lemma {:induction false} FirstEscape(c: Setup, w: Worker, events: seq<Event>) returns (k: nat)
    requires !NoEscapes(c, w, events)
    ensures k < |events| && NoEscapes(c, w, events[..k]) && Escapes(c, Run(c, w, events[..k]), events[k])
    decreases |events|
  {
    var init := events[..|events| - 1];
    if NoEscapes(c, w, init) {
      k := |events| - 1;
    } else {
      k := FirstEscape(c, w, init);
      assert init[..k] == events[..k] && init[k] == events[k];
    }
  }

  /** The promise holds of a run exactly when no task of it escapes. */
  lemma StoreClosesLastExactly(c: Setup, events: seq<Event>)
    ensures NoEscapes(c, Fresh(), events) <==> ClosesLast(c, events)
  {
    if NoEscapes(c, Fresh(), events) {
      forall k: nat, more: seq<Event> | k <= |events| && NoLines(more)
        ensures StoreLast(Run(c, Fresh(), events[..k] + more))
      {
        PrefixEscapesNot(c, Fresh(), events, k);
        NoLineNoEscape(c, Fresh(), events[..k], more);
        StoreClosesLast(c, events[..k] + more);
      }
    } else {
      var k := FirstEscape(c, Fresh(), events);
      var more := EscapeEndsBadly(c, events, k);
      assert !StoreLast(Run(c, Fresh(), events[..k + 1] + more));
    }
  }

  lemma Someone(ids: set<int>) returns (id: int)
    requires ids != {}
    ensures id in ids
  {
    assert (forall x :: x !in ids) ==> ids == {};
    id :| id in ids;
  }

  lemma EscapeEndsBadly(c: Setup, events: seq<Event>, k: nat) returns (more: seq<Event>)
    requires k < |events| && NoEscapes(c, Fresh(), events[..k])
    requires Escapes(c, Run(c, Fresh(), events[..k]), events[k])
    ensures NoLines(more) && !StoreLast(Run(c, Fresh(), events[..k + 1] + more))
  {
    var before := Run(c, Fresh(), events[..k]);
    var w := Step(c, before, events[k]);
    StoreClosesLast(c, events[..k]);
    EveryRun(c, events[..k]);
    StepInv(c, before, events[k]);
    EscapeExact(c, before, events[k]);
    var id := Someone(Unwatched(w));
    more := EscapeOutlivesStore(c, w, id);
    assert events[..k + 1] == events[..k] + [events[k]];
    RunSnoc(c, Fresh(), events[..k], events[k]);
    RunJoins(c, Fresh(), events[..k + 1], more);
  }

  // ----- What can escape in this code -----

  function Digits(n: nat): nat {
    if n < 10 then 1 else 1 + Digits(n / 10)
  }

  lemma {:induction false} DigitsGrow(a: nat, b: nat)
    requires a <= b
    ensures Digits(a) <= Digits(b)
  {
    if a >= 10 { DigitsGrow(a / 10, b / 10); }
  }

  /** Only a library request emits before its first await, one frame at most, and
      that frame has passed its size check with the longest id in the place of
      its own. */
  ghost predicate FromSource(c: Setup) {
    forall w, id, method_ | id > 0 :: LibraryFrame(method_, id, c.prefix(w, id, method_))
  }

  predicate LibraryFrame(method_: string, id: nat, sizes: seq<nat>) {
    sizes == [] || (method_ == "library" && |sizes| == 1 && sizes[0] + Digits(MAX_SAFE) <= MAX_MESSAGE + Digits(id))
  }

  lemma {:induction false} SumBound(s: seq<nat>)
    requires forall i | 0 <= i < |s| :: s[i] <= MAX_MESSAGE
    ensures Sum(s) <= |s| * MAX_MESSAGE
  {
    if s != [] { SumBound(s[1..]); }
  }

  /** Every write in flight is within the message limit. */
  predicate SmallWrites(w: Worker) {
    forall i | 0 <= i < |w.inFlight| :: w.inFlight[i] <= MAX_MESSAGE
  }

  lemma {:induction false} EmitsSmall(w: Worker, id: int, sizes: seq<nat>)
    requires SmallWrites(w)
    ensures SmallWrites(Emits(w, id, sizes))
    decreases |sizes|
  {
    if sizes != [] { EmitsSmall(Send(w, Line(id, "result"), sizes[0]), id, sizes[1..]); }
  }

  lemma StepSmall(c: Setup, w: Worker, e: Event)
    requires SmallWrites(w)
    ensures SmallWrites(Step(c, w, e))
  {
    if e.Incoming? && c.parse(e.line).Call? {
      var m := c.parse(e.line);
      var w1 := w.(accepted := w.accepted + [m.id]);
      EmitsSmall(w1, m.id, c.prefix(w1, m.id, m.method_));
    }
  }

  lemma {:induction false} RunSmall(c: Setup, events: seq<Event>)
    ensures SmallWrites(Run(c, Fresh(), events))
    decreases |events|
  {
    if events != [] {
      RunSmall(c, events[..|events| - 1]);
      StepSmall(c, Run(c, Fresh(), events[..|events| - 1]), events[|events| - 1]);
    }
  }

  /** So, in every run, a task escapes exactly when it is a library request whose
      first frame meets an output backlog, and that takes four writes in flight. */
  lemma BacklogExact(c: Setup, events: seq<Event>, e: Event)
    requires FromSource(c)
    ensures var w := Run(c, Fresh(), events);
            && (Escapes(c, w, e)
                <==> e.Incoming? && Admits(c, w, e.line) && c.parse(e.line).method_ == "library"
                     && w.outputBytes + Sum(PrefixOf(c, w, e.line)) > MAX_OUTPUT)
            && (Escapes(c, w, e) ==> |w.inFlight| >= 4)
  {
    EveryRun(c, events);
    RunSmall(c, events);
    BacklogStep(c, Run(c, Fresh(), events), e);
  }

  lemma FrameFits(method_: string, id: nat, sizes: seq<nat>)
    requires LibraryFrame(method_, id, sizes) && id <= MAX_SAFE
    ensures |sizes| <= 1 && Sum(sizes) <= MAX_MESSAGE
    ensures forall i | 0 <= i < |sizes| :: sizes[i] <= MAX_MESSAGE
  {
    DigitsGrow(id, MAX_SAFE);
    if sizes != [] { assert sizes == [sizes[0]] && Sum([sizes[0]]) == sizes[0] + Sum([]); }
  }

  lemma BacklogStep(c: Setup, w: Worker, e: Event)
    requires FromSource(c) && Inv(w) && SmallWrites(w)
    ensures Escapes(c, w, e)
       <==> e.Incoming? && Admits(c, w, e.line) && c.parse(e.line).method_ == "library"
            && w.outputBytes + Sum(PrefixOf(c, w, e.line)) > MAX_OUTPUT
    ensures Escapes(c, w, e) ==> |w.inFlight| >= 4
  {
    if e.Incoming? && Admits(c, w, e.line) {
      var m := c.parse(e.line);
      var sizes := PrefixOf(c, w, e.line);
      FrameFits(m.method_, m.id, sizes);
      SumBound(w.inFlight);
      assert sizes == [] ==> Sum(sizes) == 0;
    }
  }

  /** A client that asks for the library again and again, on a line as long as
      the id of the request, and reads nothing; the first entry takes almost the
      whole message limit. */
  const FRAME := MAX_MESSAGE - 15

  function Unread(): Setup {
    Setup((line: string) => Call(|line|, "library", 0), (line: string) => false, (line: Line) => 1,
          (w: Worker, id: int, method_: string) => if method_ == "library" then [FRAME] else [])
  }

  function Blanks(n: nat): string {
    if n == 0 then "" else Blanks(n - 1) + "x"
  }

  lemma {:induction false} BlanksSize(n: nat)
    ensures |Blanks(n)| == n && Utf8Size(Blanks(n)) == n
  {
    if n > 0 {
      BlanksSize(n - 1);
      assert Blanks(n)[..n - 1] == Blanks(n - 1);
    }
  }

  function Ids(n: nat): (ids: set<int>)
    ensures forall id :: id in ids <==> 0 < id <= n
    ensures |ids| == n
  {
    if n == 0 then {} else Ids(n - 1) + {n}
  }

  function Asked(n: nat): seq<Event> {
    if n == 0 then [] else Asked(n - 1) + [Incoming(Blanks(n))]
  }

  lemma UnreadFromSource()
    ensures FromSource(Unread())
  {
    assert Digits(MAX_SAFE) == 16;
  }

  function Frames(n: nat): nat {
    if n == 0 then 0 else Frames(n - 1) + FRAME
  }

  lemma FiveFrames(n: nat)
    requires n < 5
    ensures Frames(n) + FRAME <= MAX_OUTPUT <==> n < 4
  {
    assert Frames(2) == FRAME + FRAME && Frames(4) == Frames(2) + FRAME + FRAME;
    assert Frames(1) == FRAME && Frames(3) == Frames(2) + FRAME;
  }

  /** The worker after `n` unread library frames. */
  predicate Backlog(w: Worker, n: nat) {
    !w.closing && w.phase == Open && w.outputBytes == Frames(n) && w.pending.Keys == Ids(n)
  }

  lemma AdmittedStep(c: Setup, w: Worker, line: string, size: nat)
    requires Admits(c, w, line) && PrefixOf(c, w, line) == [size] && Fits(w, size)
    ensures var m := c.parse(line);
            var sent := Send(w.(accepted := w.accepted + [m.id]), Line(m.id, "result"), size);
            Step(c, w, Incoming(line)) == sent.(pending := w.pending[m.id := Entry(m.method_, false)])
  {
    var m := c.parse(line);
    var w1 := w.(accepted := w.accepted + [m.id]);
    var w2 := Send(w1, Line(m.id, "result"), size);
    assert [size][1..] == [];
    assert Emits(w1, m.id, [size]) == Emits(w2, m.id, []) == w2;
  }

  lemma AskAdmitted(w: Worker, n: nat, line: string)
    requires Backlog(w, n) && n < 5 && |line| == Utf8Size(line) == n + 1
    ensures Unread().parse(line) == Call(n + 1, "library", 0)
    ensures Admits(Unread(), w, line) && PrefixOf(Unread(), w, line) == [FRAME]
  {
    var c := Unread();
    assert |w.pending| == |w.pending.Keys| == n;
    assert c.parse(line) == Call(n + 1, "library", 0) && !c.blank(line);
  }

  /** One more library request. */
  lemma AskOnce(c: Setup, w: Worker, n: nat, line: string)
    requires Backlog(w, n) && n < 4 && c.parse(line) == Call(n + 1, "library", 0)
    requires Admits(c, w, line) && PrefixOf(c, w, line) == [FRAME]
    ensures Backlog(Step(c, w, Incoming(line)), n + 1)
  {
    FiveFrames(n);
    AdmittedStep(c, w, line, FRAME);
    assert Ids(n + 1) == Ids(n) + {n + 1};
  }

  /** As long as the backlog leaves room, nothing escapes. */
  lemma AskedStep(events: seq<Event>, n: nat, line: string)
    requires Backlog(Run(Unread(), Fresh(), events), n) && NoEscapes(Unread(), Fresh(), events)
    requires n < 5 && |line| == Utf8Size(line) == n + 1
    ensures Escapes(Unread(), Run(Unread(), Fresh(), events), Incoming(line)) <==> n == 4
    ensures n < 4 ==> Backlog(Run(Unread(), Fresh(), events + [Incoming(line)]), n + 1)
    ensures NoEscapes(Unread(), Fresh(), events + [Incoming(line)]) <==> n < 4
  {
    var c, w := Unread(), Run(Unread(), Fresh(), events);
    AskAdmitted(w, n, line);
    if n < 4 { AskOnce(c, w, n, line); }
    UnreadFromSource();
    FiveFrames(n);
    BacklogExact(c, events, Incoming(line));
    assert Sum([FRAME]) == FRAME;
    RunSnoc(c, Fresh(), events, Incoming(line));
    EscapesSnoc(c, Fresh(), events, Incoming(line));
  }

  lemma {:induction false} AskedRun(n: nat)
    requires n <= 4
    ensures Backlog(Run(Unread(), Fresh(), Asked(n)), n)
    ensures NoEscapes(Unread(), Fresh(), Asked(n))
  {
    if n > 0 {
      AskedRun(n - 1);
      BlanksSize(n);
      AskedStep(Asked(n - 1), n - 1, Blanks(n));
    }
  }

  lemma {:induction false} WritesOnly(c: Setup, w: Worker, writes: nat)
    ensures var after := Run(c, w, seq(writes, i => Written));
            after == w.(outputBytes := after.outputBytes, inFlight := after.inFlight)
    ensures Inv(w) ==> Inv(Run(c, w, seq(writes, i => Written)))
  {
    if writes > 0 {
      WritesOnly(c, w, writes - 1);
      assert seq(writes, i => Written) == seq(writes - 1, i => Written) + [Written];
      RunSnoc(c, w, seq(writes - 1, i => Written), Written);
    }
  }

  /** A run of this code in which the store closes over a running task: four
      library frames fill the output, the fifth request escapes, and then the
      output is read and the four others settle. */
  lemma EscapeReachable() returns (more: seq<Event>)
    ensures FromSource(Unread())
    ensures NoEscapes(Unread(), Fresh(), Asked(4)) && !NoEscapes(Unread(), Fresh(), Asked(5))
    ensures NoLines(more)
    ensures var w := Run(Unread(), Fresh(), Asked(5) + (seq(4, i => Written) + more));
            w.phase == Closed && 5 in w.pending
  {
    var c, line, writes := Unread(), Incoming(Blanks(5)), seq(4, i => Written);
    UnreadFromSource();
    AskedRun(4);
    BlanksSize(5);
    AskedStep(Asked(4), 4, Blanks(5));
    var w := Run(c, Fresh(), Asked(4));
    EveryRun(c, Asked(4));
    StoreClosesLast(c, Asked(4));
    EscapeExact(c, w, line);
    var w1 := Step(c, w, line);
    StepInv(c, w, line);
    WritesOnly(c, w1, 4);
    OnlyNewcomer(c, w, line, 5);
    more := EscapeOutlivesStore(c, Run(c, w1, writes), 5);
    RunSnoc(c, Fresh(), Asked(4), line);
    RunJoins(c, w1, writes, more);
    RunJoins(c, Fresh(), Asked(5), writes + more);
  }

  /** A task that escaped can outlive the store: the others settle, the shutdown
      runs to its end, and that one is still running. */
  lemma EscapeOutlivesStore(c: Setup, w: Worker, id: int) returns (events: seq<Event>)
    requires Inv(w) && id in Unwatched(w)
    ensures NoLines(events)
    ensures Run(c, w, events).phase == Closed && id in Run(c, w, events).pending
  {
    var settled := SettleWatched(c, w, id);
    var w1 := Run(c, w, settled);
    events := settled + [Resume] + [Resume] + [Resume];
    RunSnoc(c, w, settled, Resume);
    RunSnoc(c, w, settled + [Resume], Resume);
    RunSnoc(c, w, settled + [Resume] + [Resume], Resume);
    ThreeResumes(c, w1);
  }

  lemma ThreeResumes(c: Setup, w: Worker)
    requires w.closing && w.phase != Open && w.watched !! w.pending.Keys
    ensures var after := Step(c, Step(c, Step(c, w, Resume), Resume), Resume);
            after.phase == Closed && after.pending == w.pending
  {
  }

  lemma RunSnoc(c: Setup, w: Worker, events: seq<Event>, e: Event)
    ensures Run(c, w, events + [e]) == Step(c, Run(c, w, events), e)
  {
    assert (events + [e])[..|events|] == events;
  }

  lemma {:induction false} RunJoins(c: Setup, w: Worker, a: seq<Event>, b: seq<Event>)
    ensures Run(c, w, a + b) == Run(c, Run(c, w, a), b)
    decreases |b|
  {
    if b == [] {
      assert a + b == a;
    } else {
      var init, last := b[..|b| - 1], b[|b| - 1];
      assert a + b == (a + init) + [last];
      RunSnoc(c, w, a + init, last);
      RunJoins(c, w, a, init);
    }
  }

  lemma {:induction false} SettleWatched(c: Setup, w: Worker, id: int) returns (events: seq<Event>)
    requires Inv(w) && id in Unwatched(w)
    ensures NoLines(events)
    ensures var after := Run(c, w, events);
            after.closing && after.phase == w.phase && after.watched == w.watched && id in after.pending
            && after.watched !! after.pending.Keys
    decreases |w.watched * w.pending.Keys|
  {
    if forall x | x in w.watched :: x !in w.pending {
      assert w.watched !! w.pending.Keys;
      events := [];
    } else {
      var other :| other in w.watched && other in w.pending;
      var e := Done(other, true, 0);
      var w1 := Step(c, w, e);
      assert w1.pending.Keys == w.pending.Keys - {other};
      assert w1.watched * w1.pending.Keys == (w.watched * w.pending.Keys) - {other};
      SettledInv(w, other);
      var rest := SettleWatched(c, w1, id);
      events := [e] + rest;
      RunJoins(c, w, [e], rest);
      RunSnoc(c, w, [], e);
      assert [] + [e] == [e];
    }
  }

  lemma SettledInv(w: Worker, id: int)
    requires Inv(w) && w.closing && id in w.pending
    ensures Inv(Settle(w, id, true, 0))
  {
    var after := Settle(w, id, true, 0);
    assert after.pending.Keys == w.pending.Keys - {id};
    assert |after.pending| == |after.pending.Keys| && |w.pending| == |w.pending.Keys|;
  }
}
