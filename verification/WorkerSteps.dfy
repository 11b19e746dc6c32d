/** The content worker of components/content/main.ts as a state machine: lines
    come in, tasks emit and settle, and a shutdown may start inside any send. */
module WorkerSteps {
  const MAX_MESSAGE := 16 * 1024 * 1024
  const MAX_OUTPUT := 64 * 1024 * 1024
  const MAX_PENDING := 128
  const MAX_SAFE := 0x1F_FFFF_FFFF_FFFF

  datatype Entry = Entry(method_: string, aborted: bool)

  /** "result" stands for every event that does not end its request. */
  datatype Line = Line(id: int, event: string)

  /** How far a shutdown has come. */
  datatype Phase = Open | Persisting | ClosingBrowser | Settling | Closed

  /** `inFlight` are the writes that standard output has not confirmed, `watched`
      the requests that the shutdown took note of, `accepted` the ids of all
      requests that passed validation. */
  datatype Worker = Worker(
    pending: map<int, Entry>,
    closing: bool,
    outputBytes: nat,
    inFlight: seq<nat>,
    log: seq<Line>,
    watched: set<int>,
    phase: Phase,
    accepted: seq<int>)

  datatype Message = Invalid | BrowserReply(ok: bool) | Call(id: int, method_: string, target: int)

  /** What lines mean, how long answers are, and what a request emits before its
      first await. */
  datatype Setup = Setup(
    parse: string -> Message,
    blank: string -> bool,
    answerSize: Line -> nat,
    prefix: (Worker, int, string) -> seq<nat>)

  function Fresh(): Worker { Worker(map[], false, 0, [], [], {}, Open, []) }

  predicate Persistent(method_: string) {
    method_ == "remember" || method_ == "progress" || method_ == "reader.position"
  }

  // ----- Output and shutdown -----

  function Shutdown(w: Worker): Worker {
    if w.closing then w
    else
      w.(closing := true, watched := w.pending.Keys, phase := Persisting,
         pending := map id | id in w.pending ::
                      if Persistent(w.pending[id].method_) then w.pending[id] else w.pending[id].(aborted := true))
  }

  predicate Fits(w: Worker, size: nat) {
    size <= MAX_MESSAGE && w.outputBytes + size <= MAX_OUTPUT
  }

  function Send(w: Worker, line: Line, size: nat): Worker {
    if w.closing then w
    else if !Fits(w, size) then Shutdown(w)
    else w.(outputBytes := w.outputBytes + size, inFlight := w.inFlight + [size], log := w.log + [line])
  }

  function Emits(w: Worker, id: int, sizes: seq<nat>): Worker
    decreases |sizes|
  {
    if sizes == [] then w else Emits(Send(w, Line(id, "result"), sizes[0]), id, sizes[1..])
  }

  // ----- Requests -----

  function Abort(pending: map<int, Entry>, id: int): map<int, Entry> {
    if id in pending then pending[id := pending[id].(aborted := true)] else pending
  }

  function Receive(c: Setup, w: Worker, line: string): Worker {
    match c.parse(line)
    case Invalid => Shutdown(w)
    case BrowserReply(ok) => if ok then w else Shutdown(w)
    case Call(id, method_, target) =>
      if id <= 0 || id > MAX_SAFE || id in w.pending then Shutdown(w)
      else
        var w1 := w.(accepted := w.accepted + [id]);
        if method_ == "cancel" then
          Send(w1.(pending := Abort(w1.pending, target)), Line(id, "complete"), c.answerSize(Line(id, "complete")))
        else if |w1.pending| >= MAX_PENDING then
          Send(w1, Line(id, "error"), c.answerSize(Line(id, "error")))
        else
          // A request runs to its first await before it is entered.
          var w2 := Emits(w1, id, c.prefix(w1, id, method_));
          w2.(pending := w2.pending[id := Entry(method_, false)])
  }

  function Settle(w: Worker, id: int, ok: bool, size: nat): Worker
    requires id in w.pending
  {
    var event := if ok && !w.pending[id].aborted then "complete" else "error";
    var w1 := Send(w, Line(id, event), size);
    w1.(pending := w1.pending - {id})
  }

  function Flush(w: Worker): Worker
    requires w.inFlight != [] && w.inFlight[0] <= w.outputBytes
  {
    w.(outputBytes := w.outputBytes - w.inFlight[0], inFlight := w.inFlight[1..])
  }

  /** The shutdown resumes when what it awaits has settled. */
  function Advance(w: Worker): Worker {
    match w.phase
    case Persisting =>
      if exists id | id in w.watched && id in w.pending :: Persistent(w.pending[id].method_) then w
      else w.(phase := ClosingBrowser)
    case ClosingBrowser => w.(phase := Settling)
    case Settling => if exists id | id in w.watched :: id in w.pending then w else w.(phase := Closed)
    case _ => w
  }

  // ----- Framing -----

  /** Buffer.byteLength. */
  function Utf8Size(s: string): nat
    decreases |s|
  {
    if s == "" then 0 else Utf8Size(s[..|s| - 1]) + CharSize(s[|s| - 1])
  }

  function CharSize(ch: char): nat {
    if ch as int < 0x80 then 1 else if ch as int < 0x800 then 2 else if ch as int < 0x1_0000 then 3 else 4
  }

  /** The index of the first line feed, or the length. */
  function LineEnd(s: string): (n: nat)
    ensures n <= |s| && '\n' !in s[..n]
    ensures n < |s| ==> s[n] == '\n'
    ensures n == |s| ==> '\n' !in s
  {
    if s == "" || s[0] == '\n' then 0 else 1 + LineEnd(s[1..])
  }

  function TakeLine(c: Setup, w: Worker, line: string): Worker {
    if Utf8Size(line) > MAX_MESSAGE then Shutdown(w)
    else if c.blank(line) then w
    else Receive(c, w, line)
  }

  function Drain(c: Setup, input: string, w: Worker): (string, Worker)
    decreases |input|
  {
    var end := LineEnd(input);
    if w.closing || end == |input| then (input, w)
    else Drain(c, input[end + 1..], TakeLine(c, w, input[..end]))
  }

  function Data(c: Setup, input: string, w: Worker, chunk: string): (string, Worker) {
    var (rest, w1) := Drain(c, input + chunk, w);
    (rest, if Utf8Size(rest) > MAX_MESSAGE then Shutdown(w1) else w1)
  }

  function DataAll(c: Setup, input: string, w: Worker, chunks: seq<string>): (string, Worker)
    decreases |chunks|
  {
    if chunks == [] then (input, w)
    else
      var (i, w1) := DataAll(c, input, w, chunks[..|chunks| - 1]);
      Data(c, i, w1, chunks[|chunks| - 1])
  }

  // ----- Steps -----

  /** Emit is an event of a request, running or not; Bridge one of the browser,
      which belongs to no request. */
  datatype Event =
    | Incoming(line: string)
    | Emit(id: int, size: nat)
    | Bridge(event: string, size: nat)
    | Done(id: int, ok: bool, size: nat)
    | Written
    | Resume
    | Stop

  function Step(c: Setup, w: Worker, e: Event): Worker {
    match e
    case Incoming(line) => if w.closing then w else TakeLine(c, w, line)
    case Emit(id, size) => Send(w, Line(id, "result"), size)
    case Bridge(event, size) => Send(w, Line(0, event), size)
    case Done(id, ok, size) => if id in w.pending then Settle(w, id, ok, size) else w
    case Written => if w.inFlight != [] && w.inFlight[0] <= w.outputBytes then Flush(w) else w
    case Resume => Advance(w)
    case Stop => Shutdown(w)
  }

  function Run(c: Setup, w: Worker, events: seq<Event>): Worker
    decreases |events|
  {
    if events == [] then w else Step(c, Run(c, w, events[..|events| - 1]), events[|events| - 1])
  }
}
