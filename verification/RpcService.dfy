/** Serving calls from the bus, and what the caller gets back. */
module RpcService {
  import opened Bytes
  import opened Crc8
  import opened RpcValues
  import opened Packets
  import opened RpcBus

  datatype ServiceReply = NoReturn | Void | Value(value: RpcValue) | Namespace(next: Service)

  datatype ServiceError = Posix(errno: byte) | Internal

  /** What a function did: its result, and how many parameter bytes it read. */
  datatype ServiceCall = ServiceCall(posix: bool, result: Result<ServiceReply, ServiceError>, used: nat)

  /** A namespace of functions; `call` gets the index and the bytes behind it. */
  datatype Service = Service(call: (byte, seq<byte>) -> Option<ServiceCall>)

  /** What the bridge answers: the payload up to `pathEnd` is repeated in front of the values. */
  datatype Outcome = Silent | Replies(pathEnd: nat, values: seq<RpcValue>)

  function ReplyOf(call: ServiceCall, pathEnd: nat): Outcome
    requires call.result.Ok? ==> !call.result.value.Namespace?
  {
    match call.result
    case Ok(Void) => Replies(pathEnd, if call.posix then [VU8(0)] else [])
    case Ok(Value(v)) => Replies(pathEnd, if call.posix then [VU8(0), v] else [v])
    case Err(Posix(errno)) => if call.posix then Replies(pathEnd, [VU8(errno)]) else Silent
    case _ => Silent
  }

  /** Follows the namespaces from index byte to index byte until a function replies. */
  function Dispatch(service: Service, payload: seq<byte>, ep: nat): Outcome
    decreases if ep < |payload| then |payload| - ep else 0
  {
    if ep >= |payload| then Silent
    else match service.call(payload[ep], payload[ep + 1..])
      case None => Silent
      case Some(call) =>
        if call.result.Ok? && call.result.value.Namespace? then
          Dispatch(call.result.value.next, payload, ep + 1 + call.used)
        else ReplyOf(call, ep + 1)
  }

  datatype Bridge = Bridge(service: Service, target: Option<i32>, path: seq<byte>)

  function ResponseTo(request: Packet, pathEnd: nat, values: seq<RpcValue>): seq<byte>
    requires pathEnd <= |request.payload|
  {
    WithCrc(Addressed(request.from, request.to, [0] + (request.payload[..pathEnd] + EncodeAll(values))))
  }

  lemma {:induction false} DispatchInBounds(service: Service, payload: seq<byte>, ep: nat)
    ensures Dispatch(service, payload, ep).Replies? ==> ep < Dispatch(service, payload, ep).pathEnd <= |payload|
    decreases if ep < |payload| then |payload| - ep else 0
  {
    if ep < |payload| {
      var call := service.call(payload[ep], payload[ep + 1..]);
      if call.Some? && call.value.result.Ok? && call.value.result.value.Namespace? {
        DispatchInBounds(call.value.result.value.next, payload, ep + 1 + call.value.used);
      }
    }
  }

  /** What `feed_packet` gives to the response handler, if anything. */
  function Feed(bridge: Bridge, raw: seq<byte>): Option<seq<byte>> {
    match Parse(raw)
    case Err(_) => None
    case Ok(request) =>
      if bridge.target.Some? && bridge.target.value != request.to then None
      else if !(bridge.path <= request.payload) then None
      else
        DispatchInBounds(bridge.service, request.payload, |bridge.path|);
        match Dispatch(bridge.service, request.payload, |bridge.path|)
        case Silent => None
        case Replies(pathEnd, values) => Some(ResponseTo(request, pathEnd, values))
  }

  /**
   A bridge answers a packet exactly if it is for the bridge's address, its payload begins with the bridge's
   path and the dispatch behind it gives a reply.
   */
  lemma {:induction false} FeedAnswersIff(bridge: Bridge, to: i32, from: i32, payload: seq<byte>)
    ensures Feed(bridge, Addressed(to, from, payload)).Some? <==>
      && (bridge.target == None || bridge.target == Some(to)) && bridge.path <= payload
      && Dispatch(bridge.service, payload, |bridge.path|).Replies?
  {
    ParseAddressed(to, from, payload);
  }

  /** The answer goes from the called address back to the sender. */
  lemma {:induction false} FeedAnswersSender(bridge: Bridge, to: i32, from: i32, payload: seq<byte>)
    requires Feed(bridge, Addressed(to, from, payload)).Some?
    ensures
      var kind := Classify(Feed(bridge, Addressed(to, from, payload)).value);
      kind.Parsed? && kind.p.to == from && kind.p.from == to
  {
    ParseAddressed(to, from, payload);
    DispatchInBounds(bridge.service, payload, |bridge.path|);
    var outcome := Dispatch(bridge.service, payload, |bridge.path|);
    var answer := [0] + (payload[..outcome.pathEnd] + EncodeAll(outcome.values));
    PacketRoundTrip(from, to, answer);
    assert Feed(bridge, Addressed(to, from, payload)) == Some(WithCrc(Addressed(from, to, answer)));
  }

  /** A namespace, the position of the index byte it was called with, and what the call gave. */
  datatype Hop = Hop(service: Service, at: nat, call: ServiceCall)

  /** The way of a request from namespace to namespace: each call reads its parameters, and the next index is behind them. */
  ghost predicate Route(service: Service, payload: seq<byte>, from: nat, hops: seq<Hop>) {
    && hops != [] && hops[0].service == service && hops[0].at == from
    && (forall i :: 0 <= i < |hops| ==> Calls(hops[i], payload))
    && (forall i :: 0 <= i < |hops| - 1 ==> Leads(hops[i], hops[i + 1]))
    && !(hops[|hops| - 1].call.result.Ok? && hops[|hops| - 1].call.result.value.Namespace?)
  }

  ghost predicate Calls(hop: Hop, payload: seq<byte>) {
    hop.at < |payload| && hop.service.call(payload[hop.at], payload[hop.at + 1..]) == Some(hop.call)
  }

  ghost predicate Leads(hop: Hop, next: Hop) {
    hop.call.result == Ok(Namespace(next.service)) && next.at == hop.at + 1 + hop.call.used
  }

  /** The dispatch ends with the reply of the last call on the way. */
  lemma {:induction false} DispatchFollows(service: Service, payload: seq<byte>, from: nat, hops: seq<Hop>)
    requires Route(service, payload, from, hops)
    ensures Dispatch(service, payload, from) == ReplyOf(hops[|hops| - 1].call, hops[|hops| - 1].at + 1)
    decreases |hops|
  {
    assert Calls(hops[0], payload);
    if |hops| > 1 {
      var rest := hops[1..];
      assert Leads(hops[0], hops[1]);
      assert forall i :: 0 <= i < |rest| - 1 ==> Leads(rest[i], rest[i + 1]);
      DispatchFollows(rest[0].service, payload, rest[0].at, rest);
    }
  }

  /** And there is no reply without such a way. */
  lemma {:induction false} RepliesHaveRoute(service: Service, payload: seq<byte>, from: nat) returns (hops: seq<Hop>)
    requires Dispatch(service, payload, from).Replies?
    ensures Route(service, payload, from, hops)
    decreases if from < |payload| then |payload| - from else 0
  {
    var hop := Hop(service, from, service.call(payload[from], payload[from + 1..]).value);
    hops := [hop];
    if hop.call.result.Ok? && hop.call.result.value.Namespace? {
      var rest := RepliesHaveRoute(hop.call.result.value.next, payload, from + 1 + hop.call.used);
      hops := [hop] + rest;
      assert forall i :: 1 <= i < |hops| ==> hops[i] == rest[i - 1];
      assert Leads(hops[0], hops[1]);
    }
  }

  /** A function is not answered exactly if it returns nothing, fails internally, or has an error number it cannot report. */
  lemma {:induction false} SilentIff(call: ServiceCall, pathEnd: nat)
    requires call.result.Ok? ==> !call.result.value.Namespace?
    ensures ReplyOf(call, pathEnd).Silent? <==>
      call.result == Ok(NoReturn) || call.result == Err(Internal) || (call.result.Err? && !call.posix)
  {
  }

  method ServeRequest(service: Service, payload: seq<byte>, from: nat) returns (outcome: Outcome)
    ensures outcome == Dispatch(service, payload, from)
  {
    var ep, current := from, service;
    while ep < |payload|
      invariant Dispatch(service, payload, from) == Dispatch(current, payload, ep)
      decreases if ep < |payload| then |payload| - ep else 0
    {
      var index := payload[ep];
      ep := ep + 1;
      var call := current.call(index, payload[ep..]);
      if call.None? {
        return Silent;
      }
      match call.value.result {
        case Ok(Namespace(next)) =>
          ep, current := ep + call.value.used, next;
        case _ =>
          return ReplyOf(call.value, ep);
      }
    }
    outcome := Silent;
  }

  // ---- the caller ----

  datatype Returns = NoAnswer | NoValue | Typed(ty: RpcType)

  datatype UbFunction = UbFunction(index: byte, ret: Returns, posix: bool)

  datatype RpcError = PosixError(errno: byte) | Other

  /** `extract_or_throw_result`, from the bytes behind the path. */
  function Extract(f: UbFunction, data: seq<byte>): Result<Option<RpcValue>, RpcError> {
    var errno := if f.posix && data != [] then data[0] else 0;
    if f.posix && data == [] then Err(Other)
    else if errno != 0 then Err(PosixError(errno))
    else match f.ret
      case Typed(ty) => (
        match Read(data, if f.posix then 1 else 0, ty)
        case Ok((v, _)) => Ok(Some(v))
        case Err(_) => Err(Other))
      case _ => Ok(None)
  }

  /** The caller gets an error without number exactly if the error number is missing or the value behind it cannot be read. */
  lemma {:induction false} ExtractFailsIff(f: UbFunction, data: seq<byte>)
    ensures Extract(f, data) == Err(Other) <==>
      || (f.posix && data == [])
      || (f.posix && data != [] && data[0] == 0 && f.ret.Typed? && Read(data, 1, f.ret.ty).Err?)
      || (!f.posix && f.ret.Typed? && Read(data, 0, f.ret.ty).Err?)
  {
  }

  /** The payload of a call: the path, then the parameters. */
  function CallPayload(path: seq<byte>, params: seq<RpcValue>): seq<byte> {
    path + EncodeAll(params)
  }

  lemma {:induction false} PathComesBack(path: seq<byte>, rest: seq<byte>, t: Transaction, p: Packet)
    requires t.zeroNamespace && t.path == path && p.to == t.from && p.from == t.to && p.payload == [0] + (path + rest)
    ensures Accepts(t, p) && p.payload[1 + |path|..] == rest
  {
    assert p.payload[1..1 + |path|] == path;
  }

  /**
   When the dispatch ends at the called index, the reply is valid on the caller's side, answers
   the caller's transaction, and carries exactly the values of the service behind the path.
   */
  lemma {:induction false} ReplyAnswersCall(
      bridge: Bridge, caller: i32, callee: i32, path: seq<byte>, params: seq<RpcValue>, values: seq<RpcValue>, t: Transaction)
    requires bridge.target.None? || bridge.target.value == callee
    requires bridge.path <= CallPayload(path, params)
    requires Dispatch(bridge.service, CallPayload(path, params), |bridge.path|) == Replies(|path|, values)
    requires t.to == callee && t.from == caller && t.path == path && t.zeroNamespace
    ensures
      var response := Feed(bridge, Addressed(callee, caller, CallPayload(path, params)));
      && response.Some? && GetValidPacket(response.value).Some?
      && var parsed := Parse(GetValidPacket(response.value).value);
      && parsed.Ok? && Accepts(t, parsed.value)
      && parsed.value.payload[1 + |path|..] == EncodeAll(values)
  {
    var payload := CallPayload(path, params);
    ParseAddressed(callee, caller, payload);
    assert payload[..|path|] == path;
    var answer := [0] + (path + EncodeAll(values));
    PacketRoundTrip(caller, callee, answer);
    PathComesBack(path, EncodeAll(values), t, Packet(Addressed(caller, callee, answer), callee, caller, answer));
  }

  /** The value a function returned is the value its caller extracts. */
  lemma {:induction false} ValueComesBack(f: UbFunction, v: RpcValue)
    requires f.ret.Typed? && Readable(f.ret.ty) && HasType(v, f.ret.ty)
    ensures Extract(f, EncodeAll(if f.posix then [VU8(0), v] else [v])) == Ok(Some(v))
  {
    var prefix: seq<byte> := if f.posix then [0] else [];
    var data := EncodeAll(if f.posix then [VU8(0), v] else [v]);
    EncodeReturned(f.posix, 0, v);
    ReadBehind(prefix, data, v, f.ret.ty);
  }

  lemma {:induction false} ReadBehind(prefix: seq<byte>, data: seq<byte>, v: RpcValue, ty: RpcType)
    requires Readable(ty) && HasType(v, ty) && data == prefix + EncodeValue(v)
    ensures Read(data, |prefix|, ty).Ok? && Read(data, |prefix|, ty).value.0 == v
  {
    assert data[|prefix|..|prefix| + |EncodeValue(v)|] == EncodeValue(v);
    ReadWritten(data, |prefix|, v, ty);
  }

  lemma {:induction false} EncodeReturned(posix: bool, errno: byte, v: RpcValue)
    ensures EncodeAll(if posix then [VU8(errno), v] else [v]) == (if posix then [errno] else []) + EncodeValue(v)
    ensures EncodeAll([VU8(errno)]) == [errno]
  {
    var one, two := [v], [VU8(errno), v];
    assert one[1..] == [] && two[1..] == one && [VU8(errno)][1..] == [];
    assert EncodeAll(one) == EncodeValue(v) + EncodeAll([]);
    assert EncodeAll(two) == EncodeValue(VU8(errno)) + EncodeAll(one);
    assert EncodeAll([VU8(errno)]) == EncodeValue(VU8(errno)) + EncodeAll([]);
  }

  /** An error number is reported exactly to the callers of functions that can report one. */
  lemma {:induction false} ErrnoComesBack(f: UbFunction, errno: byte)
    requires f.posix
    ensures Extract(f, EncodeAll([VU8(errno)])) == Err(PosixError(errno)) <==> errno != 0
  {
    EncodeReturned(true, errno, VBool(false));
  }

  // ---- a call as a whole ----

  /** The function did what the caller's declaration of it says. */
  predicate Declared(f: UbFunction, result: Result<ServiceReply, ServiceError>) {
    match result
    case Ok(Void) => f.ret.NoValue?
    case Ok(Value(v)) => f.ret.Typed? && Readable(f.ret.ty) && HasType(v, f.ret.ty)
    case Err(Posix(errno)) => f.posix && errno != 0
    case _ => false
  }

  /** What the caller should get. */
  function Expected(result: Result<ServiceReply, ServiceError>): Result<Option<RpcValue>, RpcError> {
    match result
    case Ok(Value(v)) => Ok(Some(v))
    case Err(Posix(errno)) => Err(PosixError(errno))
    case _ => Ok(None)
  }

  lemma {:induction false} ResultComesBack(f: UbFunction, call: ServiceCall, pathEnd: nat)
    requires Declared(f, call.result) && call.posix == f.posix
    ensures
      var reply := ReplyOf(call, pathEnd);
      reply.Replies? && reply.pathEnd == pathEnd && Extract(f, EncodeAll(reply.values)) == Expected(call.result)
  {
    match call.result
    case Ok(Value(v)) => ValueComesBack(f, v);
    case Ok(Void) => EncodeReturned(true, 0, VBool(false));
    case Err(Posix(errno)) => ErrnoComesBack(f, errno);
  }

  /** The answer that the service's device sends to the call. */
  function ReplyPacket(t: Transaction, values: seq<RpcValue>): Packet {
    var payload := [0] + (t.path + EncodeAll(values));
    Packet(Addressed(t.from, t.to, payload), t.to, t.from, payload)
  }

  /** A request with its checksum reaches the service, which answers it. */
  lemma {:induction false} RequestIsServed(bridge: Bridge, t: Transaction, params: seq<RpcValue>, values: seq<RpcValue>)
    requires bridge.target.None? || bridge.target.value == t.to
    requires bridge.path <= CallPayload(t.path, params)
    requires Dispatch(bridge.service, CallPayload(t.path, params), |bridge.path|) == Replies(|t.path|, values)
    ensures
      var request := Addressed(t.to, t.from, CallPayload(t.path, params));
      GetValidPacket(WithCrc(request)) == Some(request) && Feed(bridge, request) == Some(WithCrc(ReplyPacket(t, values).raw))
  {
    var payload := CallPayload(t.path, params);
    PacketRoundTrip(t.to, t.from, payload);
    assert payload[..|t.path|] == t.path;
  }

  /** The answer arrives, is one to the call, and carries the values. */
  lemma {:induction false} ReplyArrives(t: Transaction, values: seq<RpcValue>)
    requires t.zeroNamespace
    ensures Classify(WithCrc(ReplyPacket(t, values).raw)) == Parsed(ReplyPacket(t, values))
    ensures Accepts(t, ReplyPacket(t, values)) && ReplyPacket(t, values).payload[1 + |t.path|..] == EncodeAll(values)
  {
    PacketRoundTrip(t.from, t.to, ReplyPacket(t, values).payload);
    PathComesBack(t.path, EncodeAll(values), t, ReplyPacket(t, values));
  }

  /** An accepted packet answers one transaction, which is `t` if no older one accepts it. */
  lemma {:induction false} GetsAnswer(c: Client, packet: seq<byte>, p: Packet, t: Transaction) returns (got: Transaction)
    requires Sound(c) && t in c.pending && Accepts(t, p)
    ensures OldestMatch(c.pending, p, got) && (got == t <==> OldestMatch(c.pending, p, t))
    ensures Place(c, packet, Parsed(p)).answered == c.answered + [Answer(got, p.payload)]
    ensures forall u :: u in Place(c, packet, Parsed(p)).pending <==> u in c.pending && u != got
  {
    OldestIsAnswered(c, packet, p);
    var k := FirstAccepting(c.pending, p);
    assert k.Some?;
    got := c.pending[k.value];
    if OldestMatch(c.pending, p, t) {
      SameId(c.pending, got, t);
    }
  }

  lemma {:induction false} SameId(pending: seq<Transaction>, t: Transaction, u: Transaction)
    requires InOrder(pending) && t in pending && u in pending && t.id == u.id
    ensures t == u
  {
    var i, j :| 0 <= i < |pending| && 0 <= j < |pending| && pending[i] == t && pending[j] == u;
  }

  lemma {:induction false} ProcessedNext(ops: seq<Operation>, response: seq<byte>, p: Packet)
    requires Classify(response) == Parsed(p)
    ensures ApplyAll(FRESH, ops + [Processing(response)]) == Place(ApplyAll(FRESH, ops), response, Parsed(p))
  {
    assert (ops + [Processing(response)])[..|ops|] == ops;
  }

  /**
   `UartBusDevice::call` from end to end, in any run of the client: if `t` waits for the answer and a service
   at the end of the called path does what the function is declared to do, then the request passes the checksum, the service answers, and
   the answer gives the oldest transaction that accepts it, and no other, exactly one answer. If that is `t`,
   which it is exactly when no older transaction waits for the same answer, then the caller gets the very
   value or error number that the service returned.
   */
  lemma {:induction false} CallReturnsResult(
      bridge: Bridge, ops: seq<Operation>, t: Transaction, params: seq<RpcValue>, f: UbFunction, hops: seq<Hop>)
    returns (response: seq<byte>, p: Packet, got: Transaction)
    requires t in ApplyAll(FRESH, ops).pending && t.zeroNamespace
    requires bridge.target.None? || bridge.target.value == t.to
    requires bridge.path <= CallPayload(t.path, params) && Route(bridge.service, CallPayload(t.path, params), |bridge.path|, hops)
    requires
      var last := hops[|hops| - 1];
      last.at + 1 == |t.path| && Declared(f, last.call.result) && last.call.posix == f.posix
    ensures
      var request := Addressed(t.to, t.from, CallPayload(t.path, params));
      GetValidPacket(WithCrc(request)) == Some(request) && Feed(bridge, request) == Some(response)
    ensures Classify(response) == Parsed(p)
    ensures
      var client := ApplyAll(FRESH, ops);
      var after := ApplyAll(FRESH, ops + [Processing(response)]);
      && OldestMatch(client.pending, p, got) && (got == t <==> OldestMatch(client.pending, p, t))
      && after.answered == client.answered + [Answer(got, p.payload)]
      && forall u :: u in after.pending <==> u in client.pending && u != got
    ensures 1 + |t.path| <= |p.payload| && Extract(f, p.payload[1 + |t.path|..]) == Expected(hops[|hops| - 1].call.result)
  {
    var call := hops[|hops| - 1].call;
    DispatchFollows(bridge.service, CallPayload(t.path, params), |bridge.path|, hops);
    var fates := EachPacketOnce(ops);
    ResultComesBack(f, call, |t.path|);
    var values := ReplyOf(call, |t.path|).values;
    RequestIsServed(bridge, t, params, values);
    ReplyArrives(t, values);
    p := ReplyPacket(t, values);
    response := WithCrc(p.raw);
    got := GetsAnswer(ApplyAll(FRESH, ops), response, p, t);
    ProcessedNext(ops, response, p);
  }
}
