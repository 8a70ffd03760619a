/** The GUI side of the protocol: start the helper, wait for hello, send once, collect one response. */
module Exchange {
  import opened Results
  import opened Bytes
  import opened Model
  import opened Protocol

  const HELLO_SECONDS := 120
  const OPERATION_SECONDS := 30

  datatype TransportError =
    | LaunchFailed | CancelledByUser | Authentication | IoFailed | NativeIo(rawCode: U32)
    | Timeout | Exited | ProtocolBroken | TooMuchOutput

  datatype ClientError =
    | Cancelled
    | AuthorizationOrLaunchFailed(rawCode: I32)
    | BeforeSend(error: TransportError)
    | UnknownAfterSend(error: TransportError)
    | Domain(cause: Error)

  datatype Event = Stdout(bytes: seq<Byte>) | Stderr(bytes: seq<Byte>) | Exit(code: I32)

  /** What one call of `next` gives, and the clock read right after it. */
  datatype Tick = Tick(event: Result<Event, TransportError>, now: nat)

  /**
   * Everything the boundary does in one exchange. The list of ticks is finite because the boundary
   * enforces the deadlines: once it is used up, `next` times out.
   */
  datatype Script = Script(
    startedAt: nat, start: Result<(), TransportError>, ticks: seq<Tick>,
    sentAt: nat, operationDeadline: Option<nat>, send: Result<(), TransportError>)

  function TickAt(ticks: seq<Tick>, i: nat): Tick {
    if i < |ticks| then ticks[i] else Tick(Err(Timeout), 0)
  }

  predicate IsData(event: Event) {
    event.Stdout? || event.Stderr?
  }

  /** The byte budget shared by hello, stderr and response. */
  function Collect(event: Event, used: nat, stdout: seq<Byte>): Result<(nat, seq<Byte>), TransportError>
    requires IsData(event)
  {
    if |event.bytes| > Room(used) then Err(TooMuchOutput)
    else Ok((used + |event.bytes|, if event.Stdout? then stdout + event.bytes else stdout))
  }

  function Complete(bytes: seq<Byte>): Result<bool, TransportError> {
    if |bytes| < 4 then Ok(false)
    else
      var length := U32Of(bytes[..4]);
      if length > MAX_BYTES - 4 then Err(TooMuchOutput)
      else if |bytes| > length + 4 then Err(ProtocolBroken)
      else Ok(|bytes| == length + 4)
  }

  /** The wait for hello from tick `i` on: the tick after it and the bytes used, or why nothing was sent. */
  function HelloPhase(ticks: seq<Tick>, i: nat, used: nat, stdout: seq<Byte>, deadline: nat, codec: Codec):
    (r: Result<(nat, nat), ClientError>)
    requires i <= |ticks|
    ensures r.Ok? ==> i < r.value.0 <= |ticks|
    decreases |ticks| - i
  {
    var tick := TickAt(ticks, i);
    if tick.event.Err? then Err(BeforeSend(tick.event.error))
    else if tick.now > deadline then Err(BeforeSend(Timeout))
    else if tick.event.value.Exit? then
      if tick.event.value.code == 126 then Err(Cancelled)
      else if tick.event.value.code == 127 then Err(AuthorizationOrLaunchFailed(127))
      else Err(BeforeSend(Exited))
    else
      var collected := Collect(tick.event.value, used, stdout);
      if collected.Err? then Err(BeforeSend(collected.error))
      else
        var (used', stdout') := collected.value;
        var complete := Complete(stdout');
        if complete.Err? then Err(BeforeSend(complete.error))
        else if !complete.value then HelloPhase(ticks, i + 1, used', stdout', deadline, codec)
        else if DecodeHello(stdout', codec).Err? then Err(BeforeSend(ProtocolBroken))
        else Ok((i + 1, used'))
  }

  function Translate(response: Result<Report, Error>): Result<Report, ClientError> {
    if response.Ok? then Ok(response.value) else Err(Domain(response.error))
  }

  /** The wait for the response from tick `i` on, after complete delivery of the request. */
  function ResponsePhase(
    ticks: seq<Tick>, i: nat, used: nat, stdout: seq<Byte>, deadline: nat, id: RequestId, codec: Codec):
    Result<Report, ClientError>
    requires i <= |ticks|
    decreases |ticks| - i
  {
    var tick := TickAt(ticks, i);
    if tick.event.Err? then Err(UnknownAfterSend(tick.event.error))
    else if tick.now > deadline then Err(UnknownAfterSend(Timeout))
    else if tick.event.value.Exit? then
      if tick.event.value.code != 0 then Err(UnknownAfterSend(Exited))
      else
        var response := DecodeResponseFor(stdout, id, codec);
        if response.Err? then Err(UnknownAfterSend(ProtocolBroken)) else Translate(response.value)
    else
      var collected := Collect(tick.event.value, used, stdout);
      if collected.Err? then Err(UnknownAfterSend(collected.error))
      else
        var (used', stdout') := collected.value;
        var complete := Complete(stdout');
        if complete.Err? then Err(UnknownAfterSend(complete.error))
        else ResponsePhase(ticks, i + 1, used', stdout', deadline, id, codec)
  }

  /** What was handed to `send`, if the exchange got that far, and what the caller is told. */
  datatype Outcome = Outcome(sent: Option<seq<Byte>>, result: Result<Report, ClientError>)

  function OperationDeadline(script: Script): nat {
    if script.operationDeadline.Some? then script.operationDeadline.value else script.sentAt + OPERATION_SECONDS
  }

  function RunExchange(id: RequestId, request: Request, script: Script, codec: Codec): Outcome {
    var frame := EncodeRequest(id, request, codec);
    if frame.Err? then Outcome(None, Err(BeforeSend(ProtocolBroken)))
    else if script.start.Err? then
      Outcome(None, Err(if script.start.error.CancelledByUser? then Cancelled else BeforeSend(script.start.error)))
    else
      var hello := HelloPhase(script.ticks, 0, 0, [], script.startedAt + HELLO_SECONDS, codec);
      if hello.Err? then Outcome(None, Err(hello.error))
      else if script.send.Err? then Outcome(Some(frame.value), Err(BeforeSend(script.send.error)))
      else
        var (i, used) := hello.value;
        Outcome(Some(frame.value), ResponsePhase(script.ticks, i, used, [], OperationDeadline(script), id, codec))
  }

  /** The boundary during one exchange. */
  class Boundary {
    const script: Script
    var calls: nat
    var clock: nat
    var sent: Option<seq<Byte>>

    constructor (script: Script)
      ensures this.script == script && calls == 0 && sent == None && clock == script.startedAt
    {
      this.script := script;
      calls := 0;
      clock := script.startedAt;
      sent := None;
    }

    method Next() returns (event: Result<Event, TransportError>)
      modifies this
      ensures event == TickAt(script.ticks, old(calls)).event && clock == TickAt(script.ticks, old(calls)).now
      ensures calls == old(calls) + 1 && sent == old(sent)
    {
      event := TickAt(script.ticks, calls).event;
      clock := TickAt(script.ticks, calls).now;
      calls := calls + 1;
    }

    method Send(frame: seq<Byte>) returns (r: Result<(), TransportError>)
      modifies this
      ensures r == script.send && sent == Some(frame) && calls == old(calls)
    {
      sent := Some(frame);
      r := script.send;
    }
  }

  /** The loop that waits for hello; it hands on the bytes used so far. */
  method AwaitHello(boundary: Boundary, deadline: nat, codec: Codec) returns (r: Result<nat, ClientError>)
    requires boundary.calls == 0
    modifies boundary
    ensures boundary.sent == old(boundary.sent)
    ensures HelloPhase(boundary.script.ticks, 0, 0, [], deadline, codec)
         == if r.Ok? then Ok((boundary.calls, r.value)) else Err(r.error)
  {
    hide DecodeHello, Complete;
    var used: nat, stdout: seq<Byte> := 0, [];
    ghost var hello := HelloPhase(boundary.script.ticks, 0, 0, [], deadline, codec);
    while true
      invariant boundary.sent == old(boundary.sent) && boundary.calls <= |boundary.script.ticks|
      invariant hello == HelloPhase(boundary.script.ticks, boundary.calls, used, stdout, deadline, codec)
      decreases |boundary.script.ticks| - boundary.calls
    {
      var event := boundary.Next();
      if event.Err? {
        return Err(BeforeSend(event.error));
      }
      if boundary.clock > deadline {
        return Err(BeforeSend(Timeout));
      }
      if event.value.Exit? {
        return Err(if event.value.code == 126 then Cancelled
                   else if event.value.code == 127 then AuthorizationOrLaunchFailed(127)
                   else BeforeSend(Exited));
      }
      var collected := Collect(event.value, used, stdout);
      if collected.Err? {
        return Err(BeforeSend(collected.error));
      }
      used, stdout := collected.value.0, collected.value.1;
      var complete := Complete(stdout);
      if complete.Err? {
        return Err(BeforeSend(complete.error));
      }
      if complete.value {
        return if DecodeHello(stdout, codec).Err? then Err(BeforeSend(ProtocolBroken)) else Ok(used);
      }
    }
  }

  /** The loop that waits for the response. */
  method AwaitResponse(boundary: Boundary, used: nat, deadline: nat, id: RequestId, codec: Codec)
    returns (r: Result<Report, ClientError>)
    requires boundary.calls <= |boundary.script.ticks|
    modifies boundary
    ensures boundary.sent == old(boundary.sent)
    ensures r == ResponsePhase(boundary.script.ticks, old(boundary.calls), used, [], deadline, id, codec)
  {
    hide DecodeResponseFor, Complete;
    var sum: nat, stdout: seq<Byte> := used, [];
    ghost var response := ResponsePhase(boundary.script.ticks, boundary.calls, used, [], deadline, id, codec);
    while true
      invariant boundary.sent == old(boundary.sent) && boundary.calls <= |boundary.script.ticks|
      invariant response == ResponsePhase(boundary.script.ticks, boundary.calls, sum, stdout, deadline, id, codec)
      decreases |boundary.script.ticks| - boundary.calls
    {
      var event := boundary.Next();
      if event.Err? {
        return Err(UnknownAfterSend(event.error));
      }
      if boundary.clock > deadline {
        return Err(UnknownAfterSend(Timeout));
      }
      if event.value.Exit? {
        if event.value.code != 0 {
          return Err(UnknownAfterSend(Exited));
        }
        var decoded := DecodeResponseFor(stdout, id, codec);
        return if decoded.Err? then Err(UnknownAfterSend(ProtocolBroken)) else Translate(decoded.value);
      }
      var collected := Collect(event.value, sum, stdout);
      if collected.Err? {
        return Err(UnknownAfterSend(collected.error));
      }
      sum, stdout := collected.value.0, collected.value.1;
      var complete := Complete(stdout);
      if complete.Err? {
        return Err(UnknownAfterSend(complete.error));
      }
    }
  }

  method Run(boundary: Boundary, id: RequestId, request: Request, codec: Codec) returns (r: Result<Report, ClientError>)
    requires boundary.calls == 0 && boundary.sent == None && boundary.clock == boundary.script.startedAt
    modifies boundary
    ensures Outcome(boundary.sent, r) == RunExchange(id, request, boundary.script, codec)
  {
    hide EncodeRequest, HelloPhase, ResponsePhase;
    var frame := EncodeRequest(id, request, codec);
    if frame.Err? {
      return Err(BeforeSend(ProtocolBroken));
    }
    var script := boundary.script;
    var helloDeadline := boundary.clock + HELLO_SECONDS;
    if script.start.Err? {
      return Err(if script.start.error.CancelledByUser? then Cancelled else BeforeSend(script.start.error));
    }
    var hello := AwaitHello(boundary, helloDeadline, codec);
    if hello.Err? {
      return Err(hello.error);
    }
    HelloTakesTicks(script.ticks, helloDeadline, codec);
    var sent := boundary.Send(frame.value);
    if sent.Err? {
      return Err(BeforeSend(sent.error));
    }
    r := AwaitResponse(boundary, hello.value, OperationDeadline(script), id, codec);
  }

  lemma HelloTakesTicks(ticks: seq<Tick>, deadline: nat, codec: Codec)
    ensures var hello := HelloPhase(ticks, 0, 0, [], deadline, codec); hello.Ok? ==> hello.value.0 <= |ticks|
  {
  }

  // What the response phase depends on.

  function StdoutOf(ticks: seq<Tick>): seq<Byte> {
    if ticks == [] then []
    else (if ticks[0].event.Ok? && ticks[0].event.value.Stdout? then ticks[0].event.value.bytes else [])
         + StdoutOf(ticks[1..])
  }

  /** All bytes the helper wrote, on either stream. */
  function BytesOf(ticks: seq<Tick>): nat {
    if ticks == [] then 0
    else (if ticks[0].event.Ok? && IsData(ticks[0].event.value) then |ticks[0].event.value.bytes| else 0)
         + BytesOf(ticks[1..])
  }

  predicate DataInTime(tick: Tick, deadline: nat) {
    tick.event.Ok? && IsData(tick.event.value) && tick.now <= deadline
  }

  /** From `i` the helper writes data in time until it exits with success at `n`. */
  predicate EndsWell(ticks: seq<Tick>, i: nat, n: nat, deadline: nat) {
    && i <= n < |ticks|
    && (forall k | i <= k < n :: DataInTime(ticks[k], deadline))
    && ticks[n].event == Ok(Exit(0)) && ticks[n].now <= deadline
  }

  lemma CompletePrefix(part: seq<Byte>, whole: seq<Byte>)
    requires part <= whole && DecodeFrame(whole).Ok?
    ensures Complete(part).Ok?
  {
    if |part| >= 4 {
      assert part[..4] == whole[..4];
    }
  }

  lemma DecodedIsWhole(frame: seq<Byte>, id: RequestId, codec: Codec)
    requires DecodeResponseFor(frame, id, codec).Ok?
    ensures DecodeFrame(frame).Ok?
  {
  }

  lemma OneMoreTick(ticks: seq<Tick>, i: nat, n: nat, stdout: seq<Byte>)
    requires i < n <= |ticks| && ticks[i].event.Ok? && IsData(ticks[i].event.value)
    ensures var event := ticks[i].event.value;
            var stdout' := if event.Stdout? then stdout + event.bytes else stdout;
            && stdout + StdoutOf(ticks[i..n]) == stdout' + StdoutOf(ticks[i + 1..n])
            && BytesOf(ticks[i..n]) == |event.bytes| + BytesOf(ticks[i + 1..n])
  {
    var event := ticks[i].event.value;
    assert ticks[i..n][0] == ticks[i] && ticks[i..n][1..] == ticks[i + 1..n];
    Assoc(stdout, if event.Stdout? then event.bytes else [], StdoutOf(ticks[i + 1..n]));
    assert event.Stderr? ==> stdout + [] == stdout;
  }

  lemma NothingRead()
    ensures StdoutOf([]) == [] && BytesOf([]) == 0
  {
  }

  /**
   * After the request was delivered, a result reaches the caller exactly when the helper's bytes keep
   * within the budget and its whole stdout decodes for this request; it is then the decoded result.
   */
  lemma {:induction false} DeliveryFrom(
    ticks: seq<Tick>, i: nat, n: nat, used: nat, stdout: seq<Byte>, deadline: nat, id: RequestId, codec: Codec)
    requires EndsWell(ticks, i, n, deadline) && used <= MAX_BYTES
    ensures var whole := stdout + StdoutOf(ticks[i..n]);
            var decoded := DecodeResponseFor(whole, id, codec);
            var result := ResponsePhase(ticks, i, used, stdout, deadline, id, codec);
            if used + BytesOf(ticks[i..n]) <= MAX_BYTES && decoded.Ok? then result == Translate(decoded.value)
            else result.Err? && result.error.UnknownAfterSend?
    decreases n - i
  {
    hide DecodeResponseFor, Complete, StdoutOf, BytesOf;
    if i == n {
      NothingRead();
      assert ticks[i..n] == [] && stdout + [] == stdout;
    } else {
      assert DataInTime(ticks[i], deadline);
      var event := ticks[i].event.value;
      var stdout' := if event.Stdout? then stdout + event.bytes else stdout;
      OneMoreTick(ticks, i, n, stdout);
      if DecodeResponseFor(stdout + StdoutOf(ticks[i..n]), id, codec).Ok? {
        DecodedIsWhole(stdout + StdoutOf(ticks[i..n]), id, codec);
        CompletePrefix(stdout', stdout + StdoutOf(ticks[i..n]));
      }
      if |event.bytes| <= Room(used) && Complete(stdout').Ok? {
        DeliveryFrom(ticks, i + 1, n, used + |event.bytes|, stdout', deadline, id, codec);
      }
    }
  }

  /**
   * Fragmentation and stderr do not matter: two response streams with the same stdout and the same
   * number of bytes deliver the same result, or neither delivers one.
   */
  lemma FragmentationIrrelevant(
    ticks1: seq<Tick>, i1: nat, n1: nat, ticks2: seq<Tick>, i2: nat, n2: nat, used: nat, deadline: nat,
    id: RequestId, codec: Codec)
    requires EndsWell(ticks1, i1, n1, deadline) && EndsWell(ticks2, i2, n2, deadline) && used <= MAX_BYTES
    requires StdoutOf(ticks1[i1..n1]) == StdoutOf(ticks2[i2..n2])
    requires BytesOf(ticks1[i1..n1]) == BytesOf(ticks2[i2..n2])
    ensures var result1 := ResponsePhase(ticks1, i1, used, [], deadline, id, codec);
            var result2 := ResponsePhase(ticks2, i2, used, [], deadline, id, codec);
            || result1 == result2
            || (result1.Err? && result1.error.UnknownAfterSend? && result2.Err? && result2.error.UnknownAfterSend?)
  {
    DeliveryFrom(ticks1, i1, n1, used, [], deadline, id, codec);
    DeliveryFrom(ticks2, i2, n2, used, [], deadline, id, codec);
  }

  // What each classification rests on.

  /** After a successful wait for hello, the ticks so far carried exactly one hello frame and `used` bytes. */
  lemma {:induction false} HelloPhaseMeans(
    ticks: seq<Tick>, i: nat, used: nat, stdout: seq<Byte>, deadline: nat, codec: Codec)
    requires i <= |ticks| && used <= MAX_BYTES
    requires HelloPhase(ticks, i, used, stdout, deadline, codec).Ok?
    ensures var (next, used') := HelloPhase(ticks, i, used, stdout, deadline, codec).value;
            && (forall k | i <= k < next :: DataInTime(ticks[k], deadline))
            && used' == used + BytesOf(ticks[i..next]) <= MAX_BYTES
            && DecodeHello(stdout + StdoutOf(ticks[i..next]), codec).Ok?
    decreases |ticks| - i
  {
    hide DecodeHello, Complete, StdoutOf, BytesOf;
    var (next, used') := HelloPhase(ticks, i, used, stdout, deadline, codec).value;
    var event := ticks[i].event.value;
    var stdout' := if event.Stdout? then stdout + event.bytes else stdout;
    OneMoreTick(ticks, i, next, stdout);
    if Complete(stdout') == Ok(false) {
      HelloPhaseMeans(ticks, i + 1, used + |event.bytes|, stdout', deadline, codec);
    } else {
      NothingRead();
      assert ticks[i + 1..next] == [] && stdout' + [] == stdout';
    }
  }

  lemma {:induction false} HelloPhaseErrs(
    ticks: seq<Tick>, i: nat, used: nat, stdout: seq<Byte>, deadline: nat, codec: Codec)
    requires i <= |ticks|
    requires HelloPhase(ticks, i, used, stdout, deadline, codec).Err?
    ensures NotSent(HelloPhase(ticks, i, used, stdout, deadline, codec).error)
    decreases |ticks| - i
  {
    var tick := TickAt(ticks, i);
    if tick.event.Ok? && tick.now <= deadline && IsData(tick.event.value) {
      var collected := Collect(tick.event.value, used, stdout);
      if collected.Ok? && Complete(collected.value.1) == Ok(false) {
        HelloPhaseErrs(ticks, i + 1, collected.value.0, collected.value.1, deadline, codec);
      }
    }
  }

  predicate NotSent(error: ClientError) {
    error.Cancelled? || error.AuthorizationOrLaunchFailed? || error.BeforeSend?
  }

  predicate Delivered(result: Result<Report, ClientError>) {
    result.Ok? || result.error.Domain?
  }

  /**
   * A delivered result was decoded, for this request, from the stdout collected since hello, and the helper
   * wrote only data, in time and within the budget, until it exited with success.
   */
  lemma {:induction false} ResponsePhaseMeans(
    ticks: seq<Tick>, i: nat, used: nat, stdout: seq<Byte>, deadline: nat, id: RequestId, codec: Codec)
    requires i <= |ticks| && used <= MAX_BYTES
    ensures var result := ResponsePhase(ticks, i, used, stdout, deadline, id, codec);
            if Delivered(result) then
              exists n: nat ::
                && EndsWell(ticks, i, n, deadline) && used + BytesOf(ticks[i..n]) <= MAX_BYTES
                && DecodeResponseFor(stdout + StdoutOf(ticks[i..n]), id, codec).Ok?
                && result == Translate(DecodeResponseFor(stdout + StdoutOf(ticks[i..n]), id, codec).value)
            else result.error.UnknownAfterSend?
    decreases |ticks| - i
  {
    hide DecodeResponseFor, Complete, StdoutOf, BytesOf;
    var result := ResponsePhase(ticks, i, used, stdout, deadline, id, codec);
    assert StdoutOf([]) == [] && BytesOf([]) == 0 by {
      NothingRead();
    }
    var tick := TickAt(ticks, i);
    if tick.event.Ok? && tick.now <= deadline {
      if tick.event.value.Exit? {
        assert ticks[i..i] == [] && stdout + StdoutOf(ticks[i..i]) == stdout;
        assert Delivered(result) ==> EndsWell(ticks, i, i, deadline);
      } else {
        var event := tick.event.value;
        var stdout' := if event.Stdout? then stdout + event.bytes else stdout;
        if |event.bytes| <= Room(used) && Complete(stdout').Ok? {
          ResponsePhaseMeans(ticks, i + 1, used + |event.bytes|, stdout', deadline, id, codec);
          if Delivered(result) {
            var n: nat :| EndsWell(ticks, i + 1, n, deadline)
                  && used + |event.bytes| + BytesOf(ticks[i + 1..n]) <= MAX_BYTES
                  && DecodeResponseFor(stdout' + StdoutOf(ticks[i + 1..n]), id, codec).Ok?
                  && result == Translate(DecodeResponseFor(stdout' + StdoutOf(ticks[i + 1..n]), id, codec).value);
            OneMoreTick(ticks, i, n, stdout);
            assert DataInTime(ticks[i], deadline) && EndsWell(ticks, i, n, deadline);
          }
        }
      }
    }
  }

  /** From `i` the helper ends well at `n`, within the budget and with a stdout that decodes for this request. */
  predicate EndsBelieved(ticks: seq<Tick>, i: nat, n: nat, used: nat, deadline: nat, id: RequestId, codec: Codec) {
    && EndsWell(ticks, i, n, deadline) && used + BytesOf(ticks[i..n]) <= MAX_BYTES
    && DecodeResponseFor(StdoutOf(ticks[i..n]), id, codec).Ok?
  }

  /** After delivery of the request, exactly the helpers that end well with a decodable stdout are believed. */
  lemma DeliveredIff(ticks: seq<Tick>, i: nat, used: nat, deadline: nat, id: RequestId, codec: Codec)
    requires i <= |ticks| && used <= MAX_BYTES
    ensures Delivered(ResponsePhase(ticks, i, used, [], deadline, id, codec)) <==>
              exists n: nat :: EndsBelieved(ticks, i, n, used, deadline, id, codec)
  {
    hide ResponsePhase, DecodeResponseFor, StdoutOf, BytesOf;
    if Delivered(ResponsePhase(ticks, i, used, [], deadline, id, codec)) {
      ResponsePhaseMeans(ticks, i, used, [], deadline, id, codec);
      var n: nat :| EndsWell(ticks, i, n, deadline) && used + BytesOf(ticks[i..n]) <= MAX_BYTES
                 && DecodeResponseFor([] + StdoutOf(ticks[i..n]), id, codec).Ok?;
      assert [] + StdoutOf(ticks[i..n]) == StdoutOf(ticks[i..n]);
      assert EndsBelieved(ticks, i, n, used, deadline, id, codec);
    }
    if exists n: nat :: EndsBelieved(ticks, i, n, used, deadline, id, codec) {
      var n: nat :| EndsBelieved(ticks, i, n, used, deadline, id, codec);
      assert [] + StdoutOf(ticks[i..n]) == StdoutOf(ticks[i..n]);
      DeliveryFrom(ticks, i, n, used, [], deadline, id, codec);
    }
  }
}
