/** The helper's one-shot sessions, and the meaning of the GUI's classification over whole runs. */
module Session {
  import opened Results
  import opened Bytes
  import opened Model
  import opened Protocol
  import opened Exchange

  /** What an operation does with a request: the results it tries to send, and what it returns. */
  datatype OperationRun = OperationRun(sends: seq<Result<Report, Error>>, outcome: Result<(), Error>)

  /** One session's surroundings: the bytes received up to end of file, and how each write turns out. */
  datatype Peer = Peer(received: Result<seq<Byte>, Error>, writes: nat -> Result<(), Error>)

  datatype SessionEvent =
    | Wrote(bytes: seq<Byte>)
    | Acquired
    | Operated(request: Request)
    | Released

  /** What a session did, and what it returned. */
  datatype SessionRun = SessionRun(events: seq<SessionEvent>, result: Result<(), Error>)

  /** The result an operation stands for: the first it sends, or its error if it sends none. */
  function ResultOf(run: OperationRun): Option<Result<Report, Error>> {
    if run.sends != [] then Some(run.sends[0])
    else if run.outcome.Err? then Some(Err(run.outcome.error))
    else None
  }

  /** Sending one response within the budget left by hello. */
  function Respond(id: RequestId, result: Result<Report, Error>, write: Result<(), Error>, codec: Codec): SessionRun {
    var frame := BudgetedResponse(id, result, |HelloFrame(codec)|, codec);
    if frame.Err? then SessionRun([], Err(ResourceLimit)) else SessionRun([Wrote(frame.value)], write)
  }

  /** `serve`: at most one operation and at most one response. */
  function Serve(euid: U32, peer: Peer, operation: Request -> OperationRun, codec: Codec): SessionRun {
    var hello := [Wrote(HelloFrame(codec))];
    if euid != 0 then SessionRun([], Err(PlatformIo(Ipc, 1)))
    else if peer.writes(0).Err? then SessionRun(hello, peer.writes(0))
    else if peer.received.Err? then SessionRun(hello, Err(peer.received.error))
    else
      var message := DecodeRequest(peer.received.value, codec);
      if message.Err? then SessionRun(hello, Err(UnsupportedFormat))
      else
        var run := operation(message.value.request);
        var operated := hello + [Operated(message.value.request)];
        var response := ResultOf(run);
        if response.None? then SessionRun(operated, Err(UnsupportedFormat))
        else
          var sent := Respond(message.value.id, response.value, peer.writes(1), codec);
          SessionRun(operated + sent.events, if run.sends != [] then run.outcome else sent.result)
  }

  /** The helper's end of the pipe, driven by a session. */
  class Endpoint {
    const peer: Peer
    var events: seq<SessionEvent>
    var writes: nat

    constructor (peer: Peer)
      ensures this.peer == peer && events == [] && writes == 0
    {
      this.peer := peer;
      events, writes := [], 0;
    }

    method Send(bytes: seq<Byte>) returns (r: Result<(), Error>)
      modifies this
      ensures events == old(events) + [Wrote(bytes)] && writes == old(writes) + 1 && r == peer.writes(old(writes))
    {
      events := events + [Wrote(bytes)];
      r := peer.writes(writes);
      writes := writes + 1;
    }

    method Note(event: SessionEvent)
      modifies this
      ensures events == old(events) + [event] && writes == old(writes)
    {
      events := events + [event];
    }
  }

  method RunServe(euid: U32, io: Endpoint, operation: Request -> OperationRun, codec: Codec)
    returns (r: Result<(), Error>)
    requires io.events == [] && io.writes == 0
    modifies io
    ensures SessionRun(io.events, r) == Serve(euid, io.peer, operation, codec)
  {
    hide DecodeRequest, BudgetedResponse, HelloFrame;
    if euid != 0 {
      return Err(PlatformIo(Ipc, 1));
    }
    var hello := HelloFrame(codec);
    var greeted := io.Send(hello);
    if greeted.Err? {
      return greeted;
    }
    if io.peer.received.Err? {
      return Err(io.peer.received.error);
    }
    var message := DecodeRequest(io.peer.received.value, codec);
    if message.Err? {
      return Err(UnsupportedFormat);
    }
    var id, request := message.value.id, message.value.request;
    io.Note(Operated(request));
    var run := operation(request);
    var sent := false;
    ghost var before := io.events;
    for k := 0 to |run.sends|
      invariant sent == (k > 0)
      invariant io.writes == if k > 0 && BudgetedResponse(id, run.sends[0], |hello|, codec).Ok? then 2 else 1
      invariant io.events
             == if k > 0 then before + Respond(id, run.sends[0], io.peer.writes(1), codec).events else before
    {
      // Later attempts are refused: a response is never sent twice, even when writing it failed.
      if !sent {
        sent := true;
        var frame := BudgetedResponse(id, run.sends[k], |hello|, codec);
        if frame.Ok? {
          var _ := io.Send(frame.value);
        } else {
          assert before + [] == before;
        }
      }
    }
    if !sent {
      if run.outcome.Ok? {
        return Err(UnsupportedFormat);
      }
      var frame := BudgetedResponse(id, Err(run.outcome.error), |hello|, codec);
      if frame.Err? {
        assert before + [] == before;
        return Err(ResourceLimit);
      }
      r := io.Send(frame.value);
      return;
    }
    return run.outcome;
  }

  /** How the Windows session's surroundings turn out. */
  datatype WindowsPeer = WindowsPeer(
    peer: Peer, authenticated: Result<(), Error>, expected: Option<RequestId>, acquired: Result<(), Error>,
    constructed: Result<(), Error>, released: Result<(), Error>, mismatch: Error)

  /** `serve_windows_inner`: the guard is taken before the platform exists and released after the response. */
  function ServeWindows(w: WindowsPeer, execute: Request -> Result<Report, Error>, codec: Codec): SessionRun {
    var hello := [Wrote(HelloFrame(codec))];
    if w.authenticated.Err? then SessionRun([], w.authenticated)
    else if w.peer.writes(0).Err? then SessionRun(hello, w.peer.writes(0))
    else if w.peer.received.Err? then SessionRun(hello, Err(w.peer.received.error))
    else
      var message := DecodeRequest(w.peer.received.value, codec);
      if message.Err? then SessionRun(hello, Err(UnsupportedFormat))
      else if w.expected.Some? && w.expected.value != message.value.id then SessionRun(hello, Err(w.mismatch))
      else if w.acquired.Err? then
        var sent := Respond(message.value.id, Err(w.acquired.error), w.peer.writes(1), codec);
        SessionRun(hello + sent.events, sent.result)
      else
        var request := message.value.request;
        var result := if w.constructed.Err? then Err(w.constructed.error) else execute(request);
        var operated := if w.constructed.Err? then [] else [Operated(request)];
        var sent := Respond(message.value.id, result, w.peer.writes(1), codec);
        SessionRun(hello + [Acquired] + operated + sent.events + [Released],
                   if w.released.Err? then w.released else sent.result)
  }

  method RunServeWindows(io: Endpoint, w: WindowsPeer, execute: Request -> Result<Report, Error>, codec: Codec)
    returns (r: Result<(), Error>)
    requires io.events == [] && io.writes == 0 && io.peer == w.peer
    modifies io
    ensures SessionRun(io.events, r) == ServeWindows(w, execute, codec)
  {
    hide DecodeRequest, BudgetedResponse, HelloFrame, Respond;
    if w.authenticated.Err? {
      return w.authenticated;
    }
    var hello := HelloFrame(codec);
    var greeted := io.Send(hello);
    if greeted.Err? {
      return greeted;
    }
    if io.peer.received.Err? {
      return Err(io.peer.received.error);
    }
    var message := DecodeRequest(io.peer.received.value, codec);
    if message.Err? {
      return Err(UnsupportedFormat);
    }
    var id, request := message.value.id, message.value.request;
    if w.expected.Some? && w.expected.value != id {
      return Err(w.mismatch);
    }
    if w.acquired.Err? {
      r := SendResponse(io, id, Err(w.acquired.error), codec);
      return;
    }
    io.Note(Acquired);
    var result: Result<Report, Error>;
    if w.constructed.Err? {
      result := Err(w.constructed.error);
    } else {
      io.Note(Operated(request));
      result := execute(request);
    }
    var outcome := SendResponse(io, id, result, codec);
    io.Note(Released);
    r := if w.released.Err? then w.released else outcome;
  }

  method SendResponse(io: Endpoint, id: RequestId, result: Result<Report, Error>, codec: Codec)
    returns (r: Result<(), Error>)
    requires io.writes == 1
    modifies io
    ensures var sent := Respond(id, result, io.peer.writes(1), codec);
            io.events == old(io.events) + sent.events && r == sent.result
  {
    var frame := BudgetedResponse(id, result, |HelloFrame(codec)|, codec);
    if frame.Err? {
      return Err(ResourceLimit);
    }
    r := io.Send(frame.value);
  }

  // What a session may have done.

  function Output(events: seq<SessionEvent>): seq<Byte> {
    if events == [] then []
    else (if events[0].Wrote? then events[0].bytes else []) + Output(events[1..])
  }

  function Operations(events: seq<SessionEvent>): seq<Request> {
    if events == [] then []
    else (if events[0].Operated? then [events[0].request] else []) + Operations(events[1..])
  }

  lemma {:induction false} EventsAppend(events: seq<SessionEvent>, more: seq<SessionEvent>)
    ensures Output(events + more) == Output(events) + Output(more)
    ensures Operations(events + more) == Operations(events) + Operations(more)
  {
    if events == [] {
      assert events + more == more;
    } else {
      EventsAppend(events[1..], more);
      assert (events + more)[0] == events[0] && (events + more)[1..] == events[1..] + more;
      Assoc(if events[0].Wrote? then events[0].bytes else [], Output(events[1..]), Output(more));
      Assoc(if events[0].Operated? then [events[0].request] else [], Operations(events[1..]), Operations(more));
    }
  }

  lemma OneEvent(event: SessionEvent)
    ensures Output([event]) == if event.Wrote? then event.bytes else []
    ensures Operations([event]) == if event.Operated? then [event.request] else []
  {
    assert [event][1..] == [];
  }

  /** A session that answered `message` once with `result`, which came from the request's operation. */
  ghost predicate Answered(
    events: seq<SessionEvent>, message: RequestEnvelope, result: Result<Report, Error>, codec: Codec)
  {
    var frame := BudgetedResponse(message.id, result, |HelloFrame(codec)|, codec);
    && frame.Ok? && Output(events) == HelloFrame(codec) + frame.value
  }

  /** What every Linux session run amounts to. */
  lemma ServeMeans(euid: U32, peer: Peer, operation: Request -> OperationRun, codec: Codec)
    ensures var events := Serve(euid, peer, operation, codec).events;
            var message := if peer.received.Ok? then DecodeRequest(peer.received.value, codec) else Err(Truncated);
            && |Operations(events)| <= 1
            && (Operations(events) != [] ==> message.Ok? && Operations(events) == [message.value.request])
            && (Output(events) == [] || Output(events) == HelloFrame(codec)
                || (&& message.Ok? && Operations(events) == [message.value.request]
                    && ResultOf(operation(message.value.request)).Some?
                    && Answered(events, message.value, ResultOf(operation(message.value.request)).value, codec)))
  {
    hide DecodeRequest, BudgetedResponse, HelloFrame;
    var hello := Wrote(HelloFrame(codec));
    OneEvent(hello);
    if peer.received.Ok? && DecodeRequest(peer.received.value, codec).Ok? {
      var message := DecodeRequest(peer.received.value, codec).value;
      OneEvent(Operated(message.request));
      EventsAppend([hello], [Operated(message.request)]);
      var result := ResultOf(operation(message.request));
      if result.Some? {
        var sent := Respond(message.id, result.value, peer.writes(1), codec).events;
        EventsAppend([hello] + [Operated(message.request)], sent);
        if sent != [] {
          OneEvent(sent[0]);
        } else {
          assert HelloFrame(codec) + [] == HelloFrame(codec);
        }
      }
    }
  }

  lemma NoEvents()
    ensures Output([]) == [] && Operations([]) == []
  {
  }

  lemma SentEvents(id: RequestId, result: Result<Report, Error>, write: Result<(), Error>, codec: Codec)
    ensures var sent := Respond(id, result, write, codec).events;
            var frame := BudgetedResponse(id, result, |HelloFrame(codec)|, codec);
            Operations(sent) == [] && Output(sent) == if frame.Ok? then frame.value else []
  {
    hide BudgetedResponse, HelloFrame;
    var sent := Respond(id, result, write, codec).events;
    if sent != [] {
      OneEvent(sent[0]);
    }
  }

  lemma GuardedEvents(hello: SessionEvent, operated: seq<SessionEvent>, sent: seq<SessionEvent>)
    requires hello.Wrote? && Operations(sent) == []
    requires |operated| <= 1 && forall event <- operated :: event.Operated?
    ensures var events := [hello] + [Acquired] + operated + sent + [Released];
            && Output(events) == hello.bytes + Output(sent)
            && Operations(events) == if operated == [] then [] else [operated[0].request]
  {
    OneEvent(hello);
    OneEvent(Acquired);
    OneEvent(Released);
    if operated != [] {
      OneEvent(operated[0]);
      assert operated == [operated[0]];
    }
    EventsAppend([hello], [Acquired]);
    EventsAppend([hello] + [Acquired], operated);
    EventsAppend([hello] + [Acquired] + operated, sent);
    EventsAppend([hello] + [Acquired] + operated + sent, [Released]);
    hide Output, Operations;
    assert hello.bytes + [] == hello.bytes && hello.bytes + Output(sent) + [] == hello.bytes + Output(sent);
  }

  /** What every Windows session run amounts to; a refused guard or platform is the operation's own result. */
  lemma ServeWindowsMeans(w: WindowsPeer, execute: Request -> Result<Report, Error>, codec: Codec)
    ensures var events := ServeWindows(w, execute, codec).events;
            var message := if w.peer.received.Ok? then DecodeRequest(w.peer.received.value, codec) else Err(Truncated);
            && |Operations(events)| <= 1
            && (Operations(events) != [] ==> message.Ok? && Operations(events) == [message.value.request])
            && (Output(events) == [] || Output(events) == HelloFrame(codec)
                || (&& message.Ok?
                    && Answered(events, message.value, WindowsResult(w, execute, message.value.request), codec)
                    && (w.acquired.Ok? && w.constructed.Ok? <==> Operations(events) == [message.value.request])))
  {
    hide DecodeRequest, BudgetedResponse, HelloFrame, Respond, Output, Operations;
    var hello := Wrote(HelloFrame(codec));
    OneEvent(hello);
    if w.peer.received.Ok? && DecodeRequest(w.peer.received.value, codec).Ok? {
      var message := DecodeRequest(w.peer.received.value, codec).value;
      var sent := Respond(message.id, WindowsResult(w, execute, message.request), w.peer.writes(1), codec).events;
      SentEvents(message.id, WindowsResult(w, execute, message.request), w.peer.writes(1), codec);
      assert HelloFrame(codec) + [] == HelloFrame(codec);
      EventsAppend([hello], sent);
      GuardedEvents(hello, if w.constructed.Err? then [] else [Operated(message.request)], sent);
    }
    assert Output([]) == [] && Operations([]) == [] by {
      NoEvents();
    }
  }

  function WindowsResult(w: WindowsPeer, execute: Request -> Result<Report, Error>, request: Request):
    Result<Report, Error>
  {
    if w.acquired.Err? then Err(w.acquired.error)
    else if w.constructed.Err? then Err(w.constructed.error)
    else execute(request)
  }

  /** The guard is taken before the operation and released only after it and after every response byte. */
  lemma GuardIsHeld(w: WindowsPeer, execute: Request -> Result<Report, Error>, codec: Codec, k: nat)
    requires k < |ServeWindows(w, execute, codec).events| && ServeWindows(w, execute, codec).events[k].Operated?
    ensures var events := ServeWindows(w, execute, codec).events;
            && Acquired in events[..k]
            && events[|events| - 1] == Released
            && forall j | 0 <= j < |events| - 1 :: events[j] != Released
  {
    hide DecodeRequest, BudgetedResponse, HelloFrame;
    var events := ServeWindows(w, execute, codec).events;
    assert events[1] == Acquired && k >= 2;
    assert events[..k][1] == Acquired;
  }

  // Client, channel and helper together.

  /**
   * The channel towards the helper: nothing before the request is handed over, a strict prefix when the
   * delivery failed, the whole frame when it succeeded. Reading may also fail.
   */
  ghost predicate DeliversTo(outcome: Outcome, script: Script, received: Result<seq<Byte>, Error>) {
    received.Ok? ==>
      match outcome.sent
      case None => received.value == []
      case Some(frame) => if script.send.Err? then received.value < frame else received.value == frame
  }

  /** The channel towards the client: it passes on a prefix of what the helper wrote, who may die at any time. */
  ghost predicate PassesOn(script: Script, output: seq<Byte>) {
    forall n | 0 <= n <= |script.ticks| :: StdoutOf(script.ticks[..n]) <= output
  }

  lemma {:induction false} StdoutSplit(ticks: seq<Tick>, i: nat)
    requires i <= |ticks|
    ensures StdoutOf(ticks) == StdoutOf(ticks[..i]) + StdoutOf(ticks[i..])
  {
    if i == 0 {
      assert ticks[..0] == [] && ticks[0..] == ticks;
    } else {
      var rest := ticks[1..];
      var first := if ticks[0].event.Ok? && ticks[0].event.value.Stdout? then ticks[0].event.value.bytes else [];
      assert ticks[..i][0] == ticks[0] && ticks[..i][1..] == rest[..i - 1] && rest[i - 1..] == ticks[i..];
      assert StdoutOf(ticks) == first + StdoutOf(rest) && StdoutOf(ticks[..i]) == first + StdoutOf(rest[..i - 1]);
      hide StdoutOf;
      StdoutSplit(rest, i - 1);
      Assoc(first, StdoutOf(rest[..i - 1]), StdoutOf(rest[i - 1..]));
    }
  }

  /** Not sent means not received whole, so no session decodes the request. */
  lemma UnsentIsUndecodable(
    id: RequestId, request: Request, script: Script, received: Result<seq<Byte>, Error>, codec: Codec)
    requires codec.Lawful() && ValidId(id)
    requires DeliversTo(RunExchange(id, request, script, codec), script, received)
    ensures var result := RunExchange(id, request, script, codec).result;
            result.Err? && NotSent(result.error) && received.Ok? ==> DecodeRequest(received.value, codec).Err?
  {
    hide DecodeRequest, HelloPhase, ResponsePhase, EncodeRequest;
    RequestRoundTrip(id, request, codec);
    EmptyIsUndecodable(codec);
    var outcome := RunExchange(id, request, script, codec);
    if outcome.sent.Some? && script.send.Ok? {
      var (i, used) := HelloPhase(script.ticks, 0, 0, [], script.startedAt + HELLO_SECONDS, codec).value;
      HelloPhaseMeans(script.ticks, 0, 0, [], script.startedAt + HELLO_SECONDS, codec);
      ResponsePhaseMeans(script.ticks, i, used, [], OperationDeadline(script), id, codec);
    }
  }

  lemma EmptyIsUndecodable(codec: Codec)
    ensures DecodeRequest([], codec).Err?
  {
  }

  /**
   * End to end, the negative classifications are sound: when the client reports Cancelled,
   * AuthorizationOrLaunchFailed or BeforeSend, no helper session, on either system and however its
   * surroundings behaved, started the operation.
   */
  lemma NotSentMeansNotRun(
    id: RequestId, request: Request, script: Script, euid: U32, peer: Peer, operation: Request -> OperationRun,
    w: WindowsPeer, execute: Request -> Result<Report, Error>, codec: Codec)
    requires codec.Lawful() && ValidId(id)
    requires RunExchange(id, request, script, codec).result.Err?
    requires NotSent(RunExchange(id, request, script, codec).result.error)
    ensures DeliversTo(RunExchange(id, request, script, codec), script, peer.received) ==>
              Operations(Serve(euid, peer, operation, codec).events) == []
    ensures DeliversTo(RunExchange(id, request, script, codec), script, w.peer.received) ==>
              Operations(ServeWindows(w, execute, codec).events) == []
  {
    hide Serve, ServeWindows, RunExchange, DecodeRequest, Answered;
    if DeliversTo(RunExchange(id, request, script, codec), script, peer.received) {
      UnsentIsUndecodable(id, request, script, peer.received, codec);
      ServeMeans(euid, peer, operation, codec);
    }
    if DeliversTo(RunExchange(id, request, script, codec), script, w.peer.received) {
      UnsentIsUndecodable(id, request, script, w.peer.received, codec);
      ServeWindowsMeans(w, execute, codec);
    }
  }

  /** The two stretches of stdout a delivered result was read from. */
  lemma DeliveredParts(id: RequestId, request: Request, script: Script, codec: Codec)
    returns (i: nat, n: nat)
    requires Delivered(RunExchange(id, request, script, codec).result)
    ensures i <= n <= |script.ticks|
    ensures DecodeHello(StdoutOf(script.ticks[..i]), codec).Ok?
    ensures DecodeResponseFor(StdoutOf(script.ticks[i..n]), id, codec).Ok?
    ensures RunExchange(id, request, script, codec).result
         == Translate(DecodeResponseFor(StdoutOf(script.ticks[i..n]), id, codec).value)
    ensures RunExchange(id, request, script, codec).sent.Some? && script.send.Ok?
  {
    hide DecodeResponseFor, DecodeHello, HelloPhase, ResponsePhase, EncodeRequest, StdoutOf, BytesOf;
    var ticks, deadline := script.ticks, script.startedAt + HELLO_SECONDS;
    if HelloPhase(ticks, 0, 0, [], deadline, codec).Err? {
      HelloPhaseErrs(ticks, 0, 0, [], deadline, codec);
      assert false;
    }
    var used := HelloPhase(ticks, 0, 0, [], deadline, codec).value.1;
    i := HelloPhase(ticks, 0, 0, [], deadline, codec).value.0;
    HelloPhaseMeans(ticks, 0, 0, [], deadline, codec);
    assert ticks[0..i] == ticks[..i] && [] + StdoutOf(ticks[..i]) == StdoutOf(ticks[..i]);
    ResponsePhaseMeans(ticks, i, used, [], OperationDeadline(script), id, codec);
    n :| EndsWell(ticks, i, n, OperationDeadline(script))
      && DecodeResponseFor([] + StdoutOf(ticks[i..n]), id, codec).Ok?
      && RunExchange(id, request, script, codec).result
         == Translate(DecodeResponseFor([] + StdoutOf(ticks[i..n]), id, codec).value);
    assert [] + StdoutOf(ticks[i..n]) == StdoutOf(ticks[i..n]);
  }

  /** A delivered result shows that the helper wrote a whole response frame, and which one. */
  lemma DeliveredIsResponse(
    id: RequestId, request: Request, script: Script, output: seq<Byte>, response: seq<Byte>, codec: Codec)
    requires codec.Lawful() && ValidId(id)
    requires PassesOn(script, output)
    requires Delivered(RunExchange(id, request, script, codec).result)
    requires output == [] || output == HelloFrame(codec) + response
    requires response == [] || DecodeFrame(response).Ok?
    ensures response != [] && output == HelloFrame(codec) + response
    ensures DecodeResponseFor(response, id, codec).Ok?
    ensures RunExchange(id, request, script, codec).result == Translate(DecodeResponseFor(response, id, codec).value)
    ensures RunExchange(id, request, script, codec).sent.Some? && script.send.Ok?
  {
    hide DecodeResponseFor, DecodeHello, RunExchange, HelloFrame, StdoutOf, DecodeFrame;
    var i, n := DeliveredParts(id, request, script, codec);
    var ticks := script.ticks;
    var greeting, body := StdoutOf(ticks[..i]), StdoutOf(ticks[i..n]);
    assert greeting <= output;
    GreetingIsHello(greeting, output, response, codec);
    BodyFollows(ticks, i, n, output, response);
    BodyIsResponse(body, response, id, codec);
  }

  lemma BodyFollows(ticks: seq<Tick>, i: nat, n: nat, output: seq<Byte>, response: seq<Byte>)
    requires i <= n <= |ticks| && StdoutOf(ticks[..n]) <= output
    requires output == StdoutOf(ticks[..i]) + response
    ensures StdoutOf(ticks[i..n]) <= response
  {
    assert ticks[..n][..i] == ticks[..i] && ticks[..n][i..] == ticks[i..n];
    StdoutSplit(ticks[..n], i);
    hide StdoutOf;
    var greeting, body := StdoutOf(ticks[..i]), StdoutOf(ticks[i..n]);
    assert greeting + body <= greeting + response;
    assert (greeting + body)[|greeting|..] == body && (greeting + response)[|greeting|..] == response;
  }

  lemma GreetingIsHello(greeting: seq<Byte>, output: seq<Byte>, response: seq<Byte>, codec: Codec)
    requires codec.Lawful() && greeting <= output
    requires output == [] || output == HelloFrame(codec) + response
    requires DecodeHello(greeting, codec).Ok?
    ensures greeting == HelloFrame(codec) && output == HelloFrame(codec) + response
  {
    HelloRoundTrip(codec);
    HelloDecodesWhole(greeting, codec);
    HelloDecodesWhole(HelloFrame(codec), codec);
    if |greeting| < |HelloFrame(codec)| {
      assert greeting < HelloFrame(codec);
      OnlyWholeFrames(HelloFrame(codec), greeting);
    } else if |greeting| > |HelloFrame(codec)| {
      assert HelloFrame(codec) < greeting;
      OnlyWholeFrames(HelloFrame(codec), greeting);
    }
  }

  lemma HelloDecodesWhole(frame: seq<Byte>, codec: Codec)
    requires DecodeHello(frame, codec).Ok?
    ensures DecodeFrame(frame).Ok?
  {
  }

  lemma BodyIsResponse(body: seq<Byte>, response: seq<Byte>, id: RequestId, codec: Codec)
    requires body <= response && (response == [] || DecodeFrame(response).Ok?)
    requires DecodeResponseFor(body, id, codec).Ok?
    ensures body == response && response != []
  {
    DecodedIsWhole(body, id, codec);
    if body < response {
      OnlyWholeFrames(response, body);
    }
  }

  /** A budgeted response is a frame, and no client reads it as anything but its own answer to its own request. */
  lemma ResponseFrameMeans(id: RequestId, expected: RequestId, result: Result<Report, Error>, codec: Codec)
    requires codec.Lawful()
    requires BudgetedResponse(id, result, |HelloFrame(codec)|, codec).Ok?
    ensures var frame := BudgetedResponse(id, result, |HelloFrame(codec)|, codec).value;
            && DecodeFrame(frame).Ok?
            && (DecodeResponseFor(frame, expected, codec).Ok? ==>
                  && expected == id
                  && Sent(id, result, |HelloFrame(codec)|) == Some(DecodeResponseFor(frame, expected, codec).value))
  {
    var frame := BudgetedResponse(id, result, |HelloFrame(codec)|, codec);
    BudgetedExactly(id, result, |HelloFrame(codec)|, codec);
    hide BudgetedResponse, Sent, HelloFrame, DecodeResponseFor, ValidId;
    var answer := Sent(id, result, |HelloFrame(codec)|).value;
    ResponseRoundTrip(id, answer, codec, expected);
    var text := codec.responseText(ResponseEnvelope(PROTOCOL_VERSION, id, answer));
    FrameIff(frame.value, text);
  }

  /** What the client is told is the answer the sizes call for, read back from the helper's response frame. */
  ghost predicate IsAnswer(
    id: RequestId, result: Result<Report, Error>, told: Result<Report, ClientError>, codec: Codec)
  {
    var frame := BudgetedResponse(id, result, |HelloFrame(codec)|, codec);
    && frame.Ok? && DecodeResponseFor(frame.value, id, codec).Ok?
    && told == Translate(DecodeResponseFor(frame.value, id, codec).value)
    && Sent(id, result, |HelloFrame(codec)|) == Some(DecodeResponseFor(frame.value, id, codec).value)
  }

  /** A delivered result is what the client reads in the helper's response frame for this very request. */
  lemma DeliveredIsOwnFrame(
    id: RequestId, request: Request, script: Script, euid: U32, peer: Peer, operation: Request -> OperationRun,
    codec: Codec)
    requires codec.Lawful() && ValidId(id)
    requires DeliversTo(RunExchange(id, request, script, codec), script, peer.received)
    requires PassesOn(script, Output(Serve(euid, peer, operation, codec).events))
    requires Delivered(RunExchange(id, request, script, codec).result)
    ensures Operations(Serve(euid, peer, operation, codec).events) == [request]
    ensures ResultOf(operation(request)).Some?
    ensures IsAnswer(id, ResultOf(operation(request)).value, RunExchange(id, request, script, codec).result, codec)
  {
    hide Serve, DecodeRequest, BudgetedResponse, DecodeResponseFor, HelloFrame, HelloPhase, ResponsePhase, Sent;
    var events := Serve(euid, peer, operation, codec).events;
    ServeMeans(euid, peer, operation, codec);
    RequestRoundTrip(id, request, codec);
    var message := if peer.received.Ok? then DecodeRequest(peer.received.value, codec) else Err(Truncated);
    if Output(events) == [] || Output(events) == HelloFrame(codec) {
      assert HelloFrame(codec) + [] == HelloFrame(codec);
      DeliveredIsResponse(id, request, script, Output(events), [], codec);
      assert false;
    }
    var result := ResultOf(operation(message.value.request)).value;
    var response := BudgetedResponse(message.value.id, result, |HelloFrame(codec)|, codec).value;
    ResponseFrameMeans(message.value.id, id, result, codec);
    DeliveredIsResponse(id, request, script, Output(events), response, codec);
    assert message.value == RequestEnvelope(PROTOCOL_VERSION, id, request);
  }

  /** The same on Windows, where a refused guard or platform is answered without running the operation. */
  lemma DeliveredIsOwnFrameWindows(
    id: RequestId, request: Request, script: Script, w: WindowsPeer, execute: Request -> Result<Report, Error>,
    codec: Codec)
    requires codec.Lawful() && ValidId(id)
    requires DeliversTo(RunExchange(id, request, script, codec), script, w.peer.received)
    requires PassesOn(script, Output(ServeWindows(w, execute, codec).events))
    requires Delivered(RunExchange(id, request, script, codec).result)
    ensures Operations(ServeWindows(w, execute, codec).events)
         == if w.acquired.Ok? && w.constructed.Ok? then [request] else []
    ensures IsAnswer(id, WindowsResult(w, execute, request), RunExchange(id, request, script, codec).result, codec)
  {
    hide ServeWindows, DecodeRequest, BudgetedResponse, DecodeResponseFor, HelloFrame;
    hide HelloPhase, ResponsePhase, Sent;
    var events := ServeWindows(w, execute, codec).events;
    ServeWindowsMeans(w, execute, codec);
    RequestRoundTrip(id, request, codec);
    var message := if w.peer.received.Ok? then DecodeRequest(w.peer.received.value, codec) else Err(Truncated);
    if Output(events) == [] || Output(events) == HelloFrame(codec) {
      assert HelloFrame(codec) + [] == HelloFrame(codec);
      DeliveredIsResponse(id, request, script, Output(events), [], codec);
      assert false;
    }
    var result := WindowsResult(w, execute, message.value.request);
    var response := BudgetedResponse(message.value.id, result, |HelloFrame(codec)|, codec).value;
    ResponseFrameMeans(message.value.id, id, result, codec);
    DeliveredIsResponse(id, request, script, Output(events), response, codec);
    assert message.value == RequestEnvelope(PROTOCOL_VERSION, id, request);
  }

  /** What an answer says: exactly what the sizes call for, so the result or its compact form up to 256 stages. */
  lemma AnswerMeans(id: RequestId, result: Result<Report, Error>, told: Result<Report, ClientError>, codec: Codec)
    requires codec.Lawful() && ValidId(id) && IsAnswer(id, result, told, codec)
    ensures Sent(id, result, |HelloFrame(codec)|).Some?
    ensures told == Translate(Sent(id, result, |HelloFrame(codec)|).value)
    ensures (result.Ok? ==> |result.value.stages| <= MAX_COMPACT_STAGES) ==>
              told == Translate(if |HelloFrame(codec)| + FrameSize(id, result) <= MAX_BYTES then result
                                else Compact(result))
  {
    HelloRoundTrip(codec);
    hide BudgetedResponse, DecodeResponseFor, HelloFrame, FrameSize, Compact, Sent;
    if result.Ok? ==> |result.value.stages| <= MAX_COMPACT_STAGES {
      AnswerBesideHello(id, result, |HelloFrame(codec)|);
    }
  }

  /**
   * End to end, the positive classifications are sound on Linux: a result the client accepts, Ok or
   * Domain, means that the helper ran the operation exactly once, for this request under this id. The
   * value is the operation's result if it fits beside hello and its compact form if not; only a report
   * of more than 256 stages can be replaced by a resource error, exactly when its compact form is no frame.
   */
  lemma DeliveredMeansRunOnce(
    id: RequestId, request: Request, script: Script, euid: U32, peer: Peer, operation: Request -> OperationRun,
    codec: Codec)
    requires codec.Lawful() && ValidId(id)
    requires DeliversTo(RunExchange(id, request, script, codec), script, peer.received)
    requires PassesOn(script, Output(Serve(euid, peer, operation, codec).events))
    requires Delivered(RunExchange(id, request, script, codec).result)
    ensures Operations(Serve(euid, peer, operation, codec).events) == [request]
    ensures ResultOf(operation(request)).Some?
    ensures var told, result := RunExchange(id, request, script, codec).result, ResultOf(operation(request)).value;
            var sent := Sent(id, result, |HelloFrame(codec)|);
            && sent.Some? && told == Translate(sent.value)
            && ((result.Ok? ==> |result.value.stages| <= MAX_COMPACT_STAGES) ==>
                  told == Translate(if |HelloFrame(codec)| + FrameSize(id, result) <= MAX_BYTES then result
                                    else Compact(result)))
  {
    hide Serve, HelloFrame, RunExchange, Sent, IsAnswer, FrameSize, Compact;
    DeliveredIsOwnFrame(id, request, script, euid, peer, operation, codec);
    AnswerMeans(id, ResultOf(operation(request)).value, RunExchange(id, request, script, codec).result, codec);
  }

  /** The same on Windows, where a refused guard or platform is answered without running the operation. */
  lemma DeliveredMeansRunOnceWindows(
    id: RequestId, request: Request, script: Script, w: WindowsPeer, execute: Request -> Result<Report, Error>,
    codec: Codec)
    requires codec.Lawful() && ValidId(id)
    requires DeliversTo(RunExchange(id, request, script, codec), script, w.peer.received)
    requires PassesOn(script, Output(ServeWindows(w, execute, codec).events))
    requires Delivered(RunExchange(id, request, script, codec).result)
    ensures Operations(ServeWindows(w, execute, codec).events)
         == if w.acquired.Ok? && w.constructed.Ok? then [request] else []
    ensures var told, result := RunExchange(id, request, script, codec).result, WindowsResult(w, execute, request);
            var sent := Sent(id, result, |HelloFrame(codec)|);
            && sent.Some? && told == Translate(sent.value)
            && ((result.Ok? ==> |result.value.stages| <= MAX_COMPACT_STAGES) ==>
                  told == Translate(if |HelloFrame(codec)| + FrameSize(id, result) <= MAX_BYTES then result
                                    else Compact(result)))
  {
    hide ServeWindows, HelloFrame, RunExchange, Sent, IsAnswer, FrameSize, Compact;
    DeliveredIsOwnFrameWindows(id, request, script, w, execute, codec);
    AnswerMeans(id, WindowsResult(w, execute, request), RunExchange(id, request, script, codec).result, codec);
  }
}
