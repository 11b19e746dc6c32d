/** The run function of components/content/main.ts: its closures as methods over
    the variables they share. */
module ContentWorker {
  import S = WorkerSteps
  import T = WorkerTheorems

  class ContentWorker {
    const setup: S.Setup
    var input: string
    var pending: map<int, S.Entry>
    var closing: bool
    var outputBytes: nat
    /** Standard output: writes not yet confirmed, and everything written. */
    var inFlight: seq<nat>
    var log: seq<S.Line>
    /** The ids of all requests that passed validation. */
    var accepted: seq<int>
    /** The request list and the position of the shutdown that has started. */
    var watched: set<int>
    var phase: S.Phase

    function Now(): S.Worker
      reads this
    {
      S.Worker(pending, closing, outputBytes, inFlight, log, watched, phase, accepted)
    }

    ghost predicate Valid()
      reads this
    {
      T.Inv(Now()) && T.Answered(Now())
    }

    constructor (setup: S.Setup)
      ensures Valid() && Now() == S.Fresh() && input == "" && this.setup == setup
    {
      this.setup := setup;
      input, pending, closing, outputBytes := "", map[], false, 0;
      inFlight, log, accepted, watched, phase := [], [], [], {}, S.Open;
    }

    method Shutdown()
      modifies this
      ensures Now() == S.Shutdown(old(Now())) && input == old(input)
    {
      if closing { return; }
      closing := true;
      watched := pending.Keys;
      phase := S.Persisting;
      pending := map id | id in pending ::
        if S.Persistent(pending[id].method_) then pending[id] else pending[id].(aborted := true);
    }

    /** What shutdown does after its awaits. */
    method Resume()
      requires Valid()
      modifies this
      ensures Valid() && Now() == S.Step(setup, old(Now()), S.Resume) && input == old(input)
    {
      T.StepInv(setup, Now(), S.Resume);
      match phase
      case Persisting =>
        if !exists id | id in watched && id in pending :: S.Persistent(pending[id].method_) { phase := S.ClosingBrowser; }
      case ClosingBrowser => phase := S.Settling;
      case Settling => if !exists id | id in watched :: id in pending { phase := S.Closed; }
      case _ =>
    }

    method Send(id: int, event: string, size: nat)
      modifies this
      ensures Now() == S.Send(old(Now()), S.Line(id, event), size) && input == old(input)
    {
      if closing { return; }
      if size > S.MAX_MESSAGE || outputBytes + size > S.MAX_OUTPUT {
        Shutdown();
        return;
      }
      outputBytes := outputBytes + size;
      inFlight := inFlight + [size];
      log := log + [S.Line(id, event)];
    }

    /** The callback of a write. */
    method Written()
      requires Valid()
      modifies this
      ensures Valid() && Now() == S.Step(setup, old(Now()), S.Written) && input == old(input)
    {
      T.StepInv(setup, Now(), S.Written);
      if inFlight != [] && inFlight[0] <= outputBytes {
        outputBytes := outputBytes - inFlight[0];
        inFlight := inFlight[1..];
      }
    }

    /** The emit function of a request. */
    method Emit(id: int, size: nat)
      requires Valid()
      modifies this
      ensures Valid() && Now() == S.Step(setup, old(Now()), S.Emit(id, size)) && input == old(input)
    {
      T.StepInv(setup, Now(), S.Emit(id, size));
      Send(id, "result", size);
    }

    /** The browser sends an event of its own. */
    method Bridge(event: string, size: nat)
      requires Valid()
      modifies this
      ensures Valid() && Now() == S.Step(setup, old(Now()), S.Bridge(event, size)) && input == old(input)
    {
      T.StepInv(setup, Now(), S.Bridge(event, size));
      Send(0, event, size);
    }

    /** The then, catch and finally handlers of a task. */
    method Done(id: int, ok: bool, size: nat)
      requires Valid()
      modifies this
      ensures Valid() && Now() == S.Step(setup, old(Now()), S.Done(id, ok, size)) && input == old(input)
      ensures id !in pending
      ensures id in old(pending) && !old(closing) && S.Fits(old(Now()), size) ==>
                log == old(log) + [S.Line(id, if ok && !old(pending)[id].aborted then "complete" else "error")]
    {
      T.StepInv(setup, Now(), S.Done(id, ok, size));
      if id !in pending { return; }
      if ok && !pending[id].aborted {
        Send(id, "complete", size);
      } else {
        Send(id, "error", size);
      }
      pending := pending - {id};
    }

    method Receive(line: string)
      modifies this
      ensures Now() == S.Receive(setup, old(Now()), line) && input == old(input)
    {
      match setup.parse(line)
      case Invalid => Shutdown();
      case BrowserReply(ok) => if !ok { Shutdown(); }
      case Call(id, method_, target) =>
        if id <= 0 || id > S.MAX_SAFE || id in pending {
          Shutdown();
          return;
        }
        accepted := accepted + [id];
        if method_ == "cancel" {
          if target in pending { pending := pending[target := pending[target].(aborted := true)]; }
          Send(id, "complete", setup.answerSize(S.Line(id, "complete")));
          return;
        }
        if |pending| >= S.MAX_PENDING {
          Send(id, "error", setup.answerSize(S.Line(id, "error")));
          return;
        }
        Dispatch(id, setup.prefix(Now(), id, method_));
        pending := pending[id := S.Entry(method_, false)];
    }

    /** The part of a task that runs before its first await. */
    method Dispatch(id: int, sizes: seq<nat>)
      modifies this
      ensures Now() == S.Emits(old(Now()), id, sizes) && input == old(input)
    {
      assert sizes[0..] == sizes;
      for k := 0 to |sizes|
        invariant S.Emits(Now(), id, sizes[k..]) == S.Emits(old(Now()), id, sizes) && input == old(input)
      {
        assert sizes[k..][0] == sizes[k] && sizes[k..][1..] == sizes[k + 1..];
        Send(id, "result", sizes[k]);
      }
    }

    /** The data handler of standard input. */
    method Data(chunk: string)
      requires Valid()
      modifies this
      ensures Valid() && (input, Now()) == S.Data(setup, old(input), old(Now()), chunk)
    {
      T.DataInv(setup, input, Now(), chunk);
      input := input + chunk;
      while !closing && S.LineEnd(input) < |input|
        invariant S.Drain(setup, input, Now()) == S.Drain(setup, old(input) + chunk, old(Now()))
        decreases |input|
      {
        var end := S.LineEnd(input);
        var line := input[..end];
        input := input[end + 1..];
        if S.Utf8Size(line) > S.MAX_MESSAGE {
          Shutdown();
          return;
        }
        if !setup.blank(line) { Receive(line); }
      }
      if S.Utf8Size(input) > S.MAX_MESSAGE { Shutdown(); }
    }
  }
}
