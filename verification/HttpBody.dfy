/** The reassembly of a HTTP response body from data events
    (_http_event_handler in ai_agents/esp32-client/main/ai_agent.c), for clients
    without a user_data buffer. */
module HttpBody {
  import opened Sequences
  import opened Wrappers

  /** What the handler is told.  A data event carries what the client knows of
      the response and whether calloc would succeed. */
  datatype Event =
    | OnData(data: seq<Byte>, chunked: bool, contentLen: nat, memory: bool)
    | OnFinish
    | OnDisconnected
    | OnOther // error, connected, header sent, header

  datatype Body = Missing | Stored(bytes: seq<Byte>, contentLen: nat)

  function Take(s: seq<Byte>, n: nat): seq<Byte> {
    if n < |s| then s[..n] else s
  }

  function Next(b: Body, e: Event): Body {
    match e
    case OnFinish => Missing
    case OnDisconnected => Missing
    case OnOther => b
    case OnData(data, chunked, contentLen, memory) =>
      if chunked then b
      else if b.Stored? then b.(bytes := Take(b.bytes + data, b.contentLen))
      else if memory then Stored(Take(data, contentLen), contentLen)
      else Missing
  }

  /** The content length does not change within a response. */
  predicate Steady(b: Body, e: Event) {
    e.OnData? && !e.chunked && b.Stored? ==> b.contentLen == e.contentLen
  }

  /** What a finish event passes to the parser. */
  function Bytes(b: Body): seq<Byte> {
    if b.Stored? then b.bytes else []
  }

  class Handler {
    var outputBuffer: array?<Byte>
    var outputLen: nat

    /** Behind the stored bytes, at least at the last index, there are zeros:
        what is parsed is terminated. */
    ghost predicate Valid()
      reads this, outputBuffer
    {
      if outputBuffer == null then outputLen == 0
      else outputLen < outputBuffer.Length && forall k :: outputLen <= k < outputBuffer.Length ==> outputBuffer[k] == 0
    }

    ghost function Abs(): Body
      requires Valid()
      reads this, outputBuffer
    {
      if outputBuffer == null then Missing else Stored(outputBuffer[..outputLen], outputBuffer.Length - 1)
    }

    constructor ()
      ensures Valid() && Abs() == Missing
    {
      outputBuffer := null;
      outputLen := 0;
    }

    method Append(data: seq<Byte>, contentLen: nat)
      requires Valid() && outputBuffer != null && outputBuffer.Length == contentLen + 1
      modifies this`outputLen, outputBuffer
      ensures Valid() && outputBuffer == old(outputBuffer)
      ensures Abs() == Stored(Take(old(Abs().bytes) + data, contentLen), contentLen)
    {
      ghost var before := outputBuffer[..outputLen];
      var copyLen := if |data| < contentLen - outputLen then |data| else contentLen - outputLen;
      forall i | 0 <= i < copyLen {
        outputBuffer[outputLen + i] := data[i];
      }
      outputLen := outputLen + copyLen;
      assert outputBuffer[..outputLen] == before + data[..copyLen];
    }

    /** One event: ok is false for ESP_FAIL, parsed is what was given to the
        parser. */
    method Handle(e: Event) returns (ok: bool, parsed: Option<seq<Byte>>)
      requires Valid() && Steady(Abs(), e)
      modifies this, outputBuffer
      ensures Valid() && Abs() == Next(old(Abs()), e)
      ensures outputBuffer != null && outputBuffer != old(outputBuffer) ==> fresh(outputBuffer)
      ensures ok <==> !(e.OnData? && !e.chunked && !e.memory && old(Abs()).Missing?)
      ensures parsed == if e.OnFinish? then Some(Bytes(old(Abs()))) else None
    {
      ok, parsed := true, None;
      match e
      case OnOther =>
      case OnData(data, chunked, contentLen, memory) =>
        if !chunked {
          if outputBuffer == null {
            if !memory {
              outputLen := 0;
              return false, None;
            }
            outputBuffer := new Byte[contentLen + 1](_ => 0);
            outputLen := 0;
          }
          Append(data, contentLen);
        }
      case OnFinish =>
        parsed := Some(if outputBuffer == null then [] else outputBuffer[..outputLen]);
        outputBuffer := null;
        outputLen := 0;
      case OnDisconnected =>
        outputBuffer := null;
        outputLen := 0;
    }

    /** Any run of events. */
    method Run(events: seq<Event>) returns (parsed: seq<seq<Byte>>)
      requires Valid() && AllSteady(Abs(), events)
      modifies this, outputBuffer
      ensures Valid() && Abs() == After(old(Abs()), events)
      ensures parsed == Parsed(old(Abs()), events)
    {
      parsed := [];
      for i := 0 to |events|
        invariant Valid() && AllSteady(Abs(), events[i..])
        invariant outputBuffer != null && outputBuffer != old(outputBuffer) ==> fresh(outputBuffer)
        invariant After(Abs(), events[i..]) == After(old(Abs()), events)
        invariant parsed + Parsed(Abs(), events[i..]) == Parsed(old(Abs()), events)
      {
        var ok, p := Handle(events[i]);
        if p.Some? {
          parsed := parsed + [p.value];
        }
      }
    }
  }

  // ----- runs

  predicate AllSteady(b: Body, events: seq<Event>)
    decreases |events|
  {
    events == [] || (Steady(b, events[0]) && AllSteady(Next(b, events[0]), events[1..]))
  }

  function After(b: Body, events: seq<Event>): Body
    decreases |events|
  {
    if events == [] then b else After(Next(b, events[0]), events[1..])
  }

  function Parsed(b: Body, events: seq<Event>): seq<seq<Byte>>
    decreases |events|
  {
    if events == [] then []
    else (if events[0].OnFinish? then [Bytes(b)] else []) + Parsed(Next(b, events[0]), events[1..])
  }

  // ----- responses

  /** What may come within a response: a part of the body, chunked or not, while
      calloc may fail, or anything the handler only logs. */
  datatype Part = Data(data: seq<Byte>, chunked: bool, memory: bool) | Notice

  /** A response in as many parts as the network makes of it, finished or cut off. */
  datatype Response = Response(parts: seq<Part>, contentLen: nat, finished: bool)

  /** What is not chunked, joined. */
  function Joined(parts: seq<Part>): seq<Byte> {
    if parts == [] then []
    else (if parts[0].Data? && !parts[0].chunked then parts[0].data else []) + Joined(parts[1..])
  }

  /** The body from the first part on for which there was memory. */
  function Received(parts: seq<Part>): Option<seq<Byte>> {
    if parts == [] then None
    else if parts[0].Data? && !parts[0].chunked && parts[0].memory then Some(Joined(parts))
    else Received(parts[1..])
  }

  function EventOf(part: Part, contentLen: nat): Event {
    match part
    case Data(data, chunked, memory) => OnData(data, chunked, contentLen, memory)
    case Notice => OnOther
  }

  function DataEvents(parts: seq<Part>, contentLen: nat): seq<Event> {
    seq(|parts|, i requires 0 <= i < |parts| => EventOf(parts[i], contentLen))
  }

  function EventsOf(r: Response): seq<Event> {
    DataEvents(r.parts, r.contentLen) + [if r.finished then OnFinish else OnDisconnected]
  }

  function AllEvents(responses: seq<Response>): seq<Event> {
    if responses == [] then [] else EventsOf(responses[0]) + AllEvents(responses[1..])
  }

  /** What a caller expects: of each finished response the body up to its
      content length. */
  function Bodies(responses: seq<Response>): seq<seq<Byte>> {
    if responses == [] then []
    else
      var r := responses[0];
      (if r.finished then [Take(Received(r.parts).GetOr([]), r.contentLen)] else []) + Bodies(responses[1..])
  }

  lemma {:induction false} AfterConcat(b: Body, x: seq<Event>, y: seq<Event>)
    ensures After(b, x + y) == After(After(b, x), y)
    decreases |x|
  {
    if x == [] {
      assert x + y == y;
    } else {
      assert (x + y)[1..] == x[1..] + y;
      AfterConcat(Next(b, x[0]), x[1..], y);
    }
  }

  lemma {:induction false} ParsedConcat(b: Body, x: seq<Event>, y: seq<Event>)
    ensures Parsed(b, x + y) == Parsed(b, x) + Parsed(After(b, x), y)
    decreases |x|
  {
    if x == [] {
      assert x + y == y;
    } else {
      assert (x + y)[1..] == x[1..] + y;
      ParsedConcat(Next(b, x[0]), x[1..], y);
      Assoc(if x[0].OnFinish? then [Bytes(b)] else [], Parsed(Next(b, x[0]), x[1..]), Parsed(After(b, x), y));
    }
  }

  lemma {:induction false} SteadyConcat(b: Body, x: seq<Event>, y: seq<Event>)
    ensures AllSteady(b, x + y) <==> AllSteady(b, x) && AllSteady(After(b, x), y)
    decreases |x|
  {
    if x == [] {
      assert x + y == y;
    } else {
      assert (x + y)[1..] == x[1..] + y;
      SteadyConcat(Next(b, x[0]), x[1..], y);
    }
  }

  lemma RunConcat(b: Body, x: seq<Event>, y: seq<Event>)
    ensures After(b, x + y) == After(After(b, x), y)
    ensures Parsed(b, x + y) == Parsed(b, x) + Parsed(After(b, x), y)
    ensures AllSteady(b, x + y) <==> AllSteady(b, x) && AllSteady(After(b, x), y)
  {
    AfterConcat(b, x, y);
    ParsedConcat(b, x, y);
    SteadyConcat(b, x, y);
  }

  lemma RunCons(b: Body, e: Event, rest: seq<Event>)
    ensures After(b, [e] + rest) == After(Next(b, e), rest)
    ensures Parsed(b, [e] + rest) == (if e.OnFinish? then [Bytes(b)] else []) + Parsed(Next(b, e), rest)
    ensures AllSteady(b, [e] + rest) <==> Steady(b, e) && AllSteady(Next(b, e), rest)
  {
    assert ([e] + rest)[1..] == rest;
  }

  lemma TakeTwice(a: seq<Byte>, b: seq<Byte>, n: nat)
    ensures Take(Take(a, n) + b, n) == Take(a + b, n)
  {
  }

  /** The body once the parts have come. */
  function Expected(b: Body, parts: seq<Part>, contentLen: nat): Body {
    if b.Stored? then Stored(Take(b.bytes + Joined(parts), contentLen), contentLen)
    else
      match Received(parts)
      case None => Missing
      case Some(bytes) => Stored(Take(bytes, contentLen), contentLen)
  }

  /** However the body is split, the buffer ends with the same bytes: those of
      the parts that are not chunked, up to the content length. */
  lemma {:induction false} SplitDoesNotMatter(b: Body, parts: seq<Part>, contentLen: nat)
    requires b.Stored? ==> b.contentLen == contentLen && |b.bytes| <= contentLen
    ensures var events := DataEvents(parts, contentLen);
            && AllSteady(b, events) && Parsed(b, events) == []
            && After(b, events) == Expected(b, parts, contentLen)
    decreases |parts|
  {
    if parts == [] {
      assert b.Stored? ==> b.bytes + [] == b.bytes;
    } else {
      var e, rest := EventOf(parts[0], contentLen), DataEvents(parts[1..], contentLen);
      assert DataEvents(parts, contentLen) == [e] + rest;
      RunCons(b, e, rest);
      SplitDoesNotMatter(Next(b, e), parts[1..], contentLen);
      FirstPart(b, parts, contentLen);
    }
  }

  lemma FirstPart(b: Body, parts: seq<Part>, contentLen: nat)
    requires parts != [] && (b.Stored? ==> b.contentLen == contentLen)
    ensures Expected(Next(b, EventOf(parts[0], contentLen)), parts[1..], contentLen) == Expected(b, parts, contentLen)
  {
    var part, rest := parts[0], Joined(parts[1..]);
    if part.Data? && !part.chunked {
      assert Joined(parts) == part.data + rest;
      if b.Stored? {
        TakeTwice(b.bytes + part.data, rest, contentLen);
        Assoc(b.bytes, part.data, rest);
      } else {
        TakeTwice(part.data, rest, contentLen);
      }
    } else {
      assert Joined(parts) == [] + rest == rest;
    }
  }

  lemma OneResponse(r: Response)
    ensures var events := EventsOf(r);
            && AllSteady(Missing, events) && After(Missing, events) == Missing
            && Parsed(Missing, events) ==
              if r.finished then [Take(Received(r.parts).GetOr([]), r.contentLen)] else []
  {
    var data, end := DataEvents(r.parts, r.contentLen), [if r.finished then OnFinish else OnDisconnected];
    SplitDoesNotMatter(Missing, r.parts, r.contentLen);
    RunConcat(Missing, data, end);
    assert end[1..] == [];
  }

  /** Over any sequence of responses each finished one is parsed once, with its
      own body and nothing of another. */
  lemma {:induction false} ResponsesNeverMix(responses: seq<Response>)
    ensures var events := AllEvents(responses);
            AllSteady(Missing, events) && After(Missing, events) == Missing && Parsed(Missing, events) == Bodies(responses)
    decreases |responses|
  {
    if responses != [] {
      OneResponse(responses[0]);
      RunConcat(Missing, EventsOf(responses[0]), AllEvents(responses[1..]));
      ResponsesNeverMix(responses[1..]);
    }
  }
}
