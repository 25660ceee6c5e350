/** Pairing the packets that come from the bus with the transactions that wait for an answer. */
module RpcBus {
  import opened Bytes
  import opened Crc8
  import opened Packets

  datatype Transaction = Transaction(id: nat, to: i32, from: i32, path: seq<byte>, zeroNamespace: bool)

  /** `try_accept_response`: from the called address, and the payload begins with (0 and) the path. */
  predicate Accepts(t: Transaction, p: Packet) {
    var diff := if t.zeroNamespace then 1 else 0;
    && p.to == t.from && p.from == t.to
    && |p.payload| >= |t.path| + diff
    && (t.zeroNamespace ==> p.payload[0] == 0)
    && p.payload[diff..diff + |t.path|] == t.path
  }

  datatype Answer = Answer(transaction: Transaction, payload: seq<byte>)

  /** The client, and what has become of the packets it got. */
  datatype Client = Client(
    pending: seq<Transaction>,
    nextId: nat,
    answered: seq<Answer>,
    unrelated: seq<seq<byte>>,
    invalid: seq<seq<byte>>,
    unparsable: seq<seq<byte>>)

  function FirstAccepting(pending: seq<Transaction>, p: Packet): (r: Option<nat>)
    ensures r.Some? ==> r.value < |pending| && Accepts(pending[r.value], p)
    ensures r.Some? ==> forall k :: 0 <= k < r.value ==> !Accepts(pending[k], p)
    ensures r.None? ==> forall k :: 0 <= k < |pending| ==> !Accepts(pending[k], p)
  {
    if pending == [] then None
    else if Accepts(pending[0], p) then Some(0)
    else match FirstAccepting(pending[1..], p) case None => None case Some(k) => Some(k + 1)
  }

  function Registered(c: Client, to: i32, from: i32, path: seq<byte>, zeroNamespace: bool): Client {
    c.(pending := c.pending + [Transaction(c.nextId, to, from, path, zeroNamespace)], nextId := c.nextId + 1)
  }

  function Without(pending: seq<Transaction>, id: nat): seq<Transaction> {
    if pending == [] then []
    else if pending[0].id == id then Without(pending[1..], id) else [pending[0]] + Without(pending[1..], id)
  }

  function Revoke(c: Client, id: nat): Client {
    c.(pending := Without(c.pending, id))
  }

  /** What a received packet turns out to be. */
  datatype Kind = Invalid | Unparsable | Parsed(p: Packet)

  function Classify(packet: seq<byte>): Kind {
    match GetValidPacket(packet)
    case None => Invalid
    case Some(data) => match Parse(data) case Err(_) => Unparsable case Ok(p) => Parsed(p)
  }

  function Place(c: Client, packet: seq<byte>, kind: Kind): Client {
    match kind
    case Invalid => c.(invalid := c.invalid + [packet])
    case Unparsable => c.(unparsable := c.unparsable + [packet])
    case Parsed(p) =>
      match FirstAccepting(c.pending, p)
      case None => c.(unrelated := c.unrelated + [p.raw])
      case Some(k) => c.(
        pending := c.pending[..k] + c.pending[k + 1..],
        answered := c.answered + [Answer(c.pending[k], p.payload)])
  }

  function Process(c: Client, packet: seq<byte>): Client {
    Place(c, packet, Classify(packet))
  }

  datatype Operation =
    | Registering(to: i32, from: i32, path: seq<byte>, zeroNamespace: bool)
    | Revoking(id: nat)
    | Processing(packet: seq<byte>)

  function Apply(c: Client, op: Operation): Client {
    match op
    case Registering(to, from, path, zero) => Registered(c, to, from, path, zero)
    case Revoking(id) => Revoke(c, id)
    case Processing(packet) => Process(c, packet)
  }

  function ApplyAll(c: Client, ops: seq<Operation>): Client {
    if ops == [] then c else Apply(ApplyAll(c, ops[..|ops| - 1]), ops[|ops| - 1])
  }

  // ---- every run ----

  /** Waiting transactions are in the order of their registration. */
  predicate InOrder(pending: seq<Transaction>) {
    forall i, j :: 0 <= i < j < |pending| ==> pending[i].id < pending[j].id
  }

  /** No transaction is answered twice, or both answered and still waiting. */
  predicate AnsweredOnce(c: Client) {
    && (forall i, j :: 0 <= i < j < |c.answered| ==> c.answered[i].transaction.id != c.answered[j].transaction.id)
    && (forall i, k :: 0 <= i < |c.answered| && 0 <= k < |c.pending| ==> c.answered[i].transaction.id != c.pending[k].id)
  }

  predicate Sound(c: Client) {
    && InOrder(c.pending) && AnsweredOnce(c)
    && (forall k :: 0 <= k < |c.pending| ==> c.pending[k].id < c.nextId)
    && (forall k :: 0 <= k < |c.answered| ==> c.answered[k].transaction.id < c.nextId)
  }

  /** What becomes of a packet. */
  datatype Fate =
    | Answers(answer: Answer)
    | GoesUnrelated(raw: seq<byte>)
    | IsInvalid(packet: seq<byte>)
    | IsUnparsable(packet: seq<byte>)

  /** The transaction that a valid packet answers: the oldest of those that match it. */
  predicate OldestMatch(pending: seq<Transaction>, p: Packet, t: Transaction) {
    t in pending && Accepts(t, p) && forall u :: u in pending && Accepts(u, p) ==> t.id <= u.id
  }

  /** The fate that a packet should have at a client. */
  predicate Fits(pending: seq<Transaction>, packet: seq<byte>, kind: Kind, fate: Fate) {
    match kind
    case Invalid => fate == IsInvalid(packet)
    case Unparsable => fate == IsUnparsable(packet)
    case Parsed(p) =>
      if fate.Answers? then fate.answer.payload == p.payload && OldestMatch(pending, p, fate.answer.transaction)
      else fate == GoesUnrelated(p.raw) && forall t :: t in pending ==> !Accepts(t, p)
  }

  const FRESH := Client([], 0, [], [], [], [])

  /** One fate for each packet processed in `ops`, in order, each right for the client at that time. */
  predicate FateOfEach(ops: seq<Operation>, fates: seq<Fate>) {
    if ops == [] then fates == []
    else
      var before, op := ops[..|ops| - 1], ops[|ops| - 1];
      if op.Processing? then
        && fates != [] && FateOfEach(before, fates[..|fates| - 1])
        && Fits(ApplyAll(FRESH, before).pending, op.packet, Classify(op.packet), fates[|fates| - 1])
      else FateOfEach(before, fates)
  }

  /** The lists of the client that `fates` lead to. */
  function Filed(fates: seq<Fate>): Client {
    if fates == [] then FRESH
    else
      var c := Filed(fates[..|fates| - 1]);
      match fates[|fates| - 1]
      case Answers(answer) => c.(answered := c.answered + [answer])
      case GoesUnrelated(raw) => c.(unrelated := c.unrelated + [raw])
      case IsInvalid(packet) => c.(invalid := c.invalid + [packet])
      case IsUnparsable(packet) => c.(unparsable := c.unparsable + [packet])
  }

  predicate SameLists(c: Client, d: Client) {
    c.answered == d.answered && c.unrelated == d.unrelated && c.invalid == d.invalid && c.unparsable == d.unparsable
  }

  lemma {:induction false} WithoutIsPart(pending: seq<Transaction>, id: nat)
    requires InOrder(pending)
    ensures InOrder(Without(pending, id))
    ensures forall t :: t in Without(pending, id) <==> t in pending && t.id != id
  {
    if pending != [] {
      var rest := pending[1..];
      WithoutIsPart(rest, id);
      assert pending == [pending[0]] + rest;
      forall k | 0 <= k < |Without(rest, id)| ensures pending[0].id < Without(rest, id)[k].id {
        assert Without(rest, id)[k] in rest;
      }
    }
  }

  lemma {:induction false} SoundRevoked(c: Client, id: nat)
    requires Sound(c)
    ensures Sound(Revoke(c, id))
  {
    WithoutIsPart(c.pending, id);
    var left := Without(c.pending, id);
    forall k | 0 <= k < |left| ensures exists j :: 0 <= j < |c.pending| && c.pending[j] == left[k] {
      assert left[k] in c.pending;
    }
  }

  /** Answering one transaction takes it out of the waiting ones. */
  lemma {:induction false} SoundAnswered(c: Client, k: nat, payload: seq<byte>)
    requires Sound(c) && k < |c.pending|
    ensures Sound(c.(
      pending := c.pending[..k] + c.pending[k + 1..],
      answered := c.answered + [Answer(c.pending[k], payload)]))
  {
    var left := c.pending[..k] + c.pending[k + 1..];
    forall i | 0 <= i < |left| ensures left[i] == c.pending[if i < k then i else i + 1] {
    }
  }

  lemma {:induction false} PlaceKept(c: Client, packet: seq<byte>, kind: Kind)
    requires Sound(c)
    ensures Sound(Place(c, packet, kind))
  {
    if kind.Parsed? {
      var k := FirstAccepting(c.pending, kind.p);
      if k.Some? {
        SoundAnswered(c, k.value, kind.p.payload);
      }
    }
  }

  lemma {:induction false} SoundKept(c: Client, op: Operation)
    requires Sound(c)
    ensures Sound(Apply(c, op))
  {
    match op
    case Registering(_, _, _, _) =>
    case Revoking(id) => SoundRevoked(c, id);
    case Processing(packet) => PlaceKept(c, packet, Classify(packet));
  }

  lemma {:induction false} FirstIsOldest(pending: seq<Transaction>, p: Packet, k: nat, t: Transaction)
    requires InOrder(pending) && FirstAccepting(pending, p) == Some(k) && t in pending && Accepts(t, p)
    ensures pending[k].id <= t.id
  {
    var j :| 0 <= j < |pending| && pending[j] == t;
  }

  lemma {:induction false} OneIsRemoved(pending: seq<Transaction>, k: nat, t: Transaction)
    requires InOrder(pending) && k < |pending|
    ensures t in pending[..k] + pending[k + 1..] <==> t in pending && t != pending[k]
  {
    assert pending == pending[..k] + [pending[k]] + pending[k + 1..];
  }

  /** A valid packet answers the oldest transaction that matches it, or goes to the listeners if none does. */
  lemma {:induction false} OldestIsAnswered(c: Client, packet: seq<byte>, p: Packet)
    requires Sound(c)
    ensures
      var after := Place(c, packet, Parsed(p));
      match FirstAccepting(c.pending, p)
      case None =>
        && after == c.(unrelated := c.unrelated + [p.raw])
        && forall t :: t in c.pending ==> !Accepts(t, p)
      case Some(k) =>
        && OldestMatch(c.pending, p, c.pending[k])
        && after.answered == c.answered + [Answer(c.pending[k], p.payload)]
        && forall t :: t in after.pending <==> t in c.pending && t != c.pending[k]
  {
    match FirstAccepting(c.pending, p)
    case None =>
    case Some(k) =>
      forall t | t in c.pending && Accepts(t, p) ensures c.pending[k].id <= t.id {
        FirstIsOldest(c.pending, p, k, t);
      }
      forall t ensures t in c.pending[..k] + c.pending[k + 1..] <==> t in c.pending && t != c.pending[k] {
        OneIsRemoved(c.pending, k, t);
      }
  }

  /** Placing a packet files it under the one fate that fits. */
  lemma {:induction false} PlaceFits(c: Client, packet: seq<byte>, kind: Kind, fates: seq<Fate>) returns (fate: Fate)
    requires Sound(c) && SameLists(c, Filed(fates))
    ensures Fits(c.pending, packet, kind, fate) && SameLists(Place(c, packet, kind), Filed(fates + [fate]))
  {
    match kind
    case Invalid => fate := IsInvalid(packet);
    case Unparsable => fate := IsUnparsable(packet);
    case Parsed(p) =>
      OldestIsAnswered(c, packet, p);
      match FirstAccepting(c.pending, p)
      case None => fate := GoesUnrelated(p.raw);
      case Some(k) => fate := Answers(Answer(c.pending[k], p.payload));
    assert (fates + [fate])[..|fates|] == fates;
  }

  /**
   Over any run, every packet has one fate: it answers the oldest transaction that waits for it, or
   goes to the unrelated listeners, or to the listeners of invalid packets, or cannot be parsed. The
   client's lists are exactly these fates, in order, and no transaction is answered twice.
   */
  lemma {:induction false} EachPacketOnce(ops: seq<Operation>) returns (fates: seq<Fate>)
    ensures FateOfEach(ops, fates)
    ensures Sound(ApplyAll(FRESH, ops)) && SameLists(ApplyAll(FRESH, ops), Filed(fates))
  {
    fates := [];
    if ops != [] {
      var before, op := ops[..|ops| - 1], ops[|ops| - 1];
      fates := EachPacketOnce(before);
      SoundKept(ApplyAll(FRESH, before), op);
      if op.Processing? {
        var earlier := fates;
        var fate := PlaceFits(ApplyAll(FRESH, before), op.packet, Classify(op.packet), earlier);
        fates := earlier + [fate];
        assert fates[..|fates| - 1] == earlier;
      }
    }
  }

  // ---- which packets are answers ----

  /** What the payload of an answer begins with. */
  function Opening(t: Transaction): seq<byte> {
    (if t.zeroNamespace then [0] else []) + t.path
  }

  /** The parts of a packet make it an answer: from the called device, to the caller, and with the path. */
  predicate AnswerParts(t: Transaction, to: i32, from: i32, payload: seq<byte>) {
    from == t.to && to == t.from && Opening(t) <= payload
  }

  lemma {:induction false} AcceptsIff(t: Transaction, p: Packet)
    ensures Accepts(t, p) <==> AnswerParts(t, p.to, p.from, p.payload)
  {
    var diff := if t.zeroNamespace then 1 else 0;
    if |p.payload| >= diff + |t.path| {
      var head: seq<byte>, part := p.payload[..diff], p.payload[diff..diff + |t.path|];
      assert p.payload[..diff + |t.path|] == head + part;
      if Accepts(t, p) {
        assert head == if t.zeroNamespace then [0] else [];
      }
    }
  }

  /** The same for the bytes on the bus. */
  lemma {:induction false} AcceptedOnTheBus(t: Transaction, to: i32, from: i32, payload: seq<byte>)
    ensures
      var kind := Classify(WithCrc(Addressed(to, from, payload)));
      kind.Parsed? && (Accepts(t, kind.p) <==> AnswerParts(t, to, from, payload))
  {
    PacketRoundTrip(to, from, payload);
    AcceptsIff(t, Packet(Addressed(to, from, payload), from, to, payload));
  }

  /** The answer came with the packet processed as operation `j`, while the transaction was waiting. */
  predicate AnsweredBy(ops: seq<Operation>, j: nat, answer: Answer) {
    && j < |ops| && ops[j].Processing? && Classify(ops[j].packet).Parsed?
    && var p := Classify(ops[j].packet).p;
    && answer.payload == p.payload && AnswerParts(answer.transaction, p.to, p.from, p.payload)
    && answer.transaction in ApplyAll(FRESH, ops[..j]).pending
  }

  predicate RegisteredAt(ops: seq<Operation>, i: nat, t: Transaction) {
    i < |ops| && ops[i] == Registering(t.to, t.from, t.path, t.zeroNamespace)
  }

  lemma {:induction false} StillAnsweredBy(ops: seq<Operation>, j: nat, answer: Answer, op: Operation)
    requires AnsweredBy(ops, j, answer)
    ensures AnsweredBy(ops + [op], j, answer)
  {
    assert (ops + [op])[..j] == ops[..j];
  }

  lemma {:induction false} PendingOrNew(c: Client, op: Operation, t: Transaction)
    requires Sound(c) && t in Apply(c, op).pending
    ensures t in c.pending || op == Registering(t.to, t.from, t.path, t.zeroNamespace)
  {
    match op
    case Registering(_, _, _, _) =>
    case Revoking(id) => WithoutIsPart(c.pending, id);
    case Processing(packet) =>
  }

  /** Every waiting transaction was registered with what it waits for. */
  lemma {:induction false} WaitingWasRegistered(ops: seq<Operation>, t: Transaction) returns (i: nat)
    requires t in ApplyAll(FRESH, ops).pending
    ensures RegisteredAt(ops, i, t)
  {
    var before, op := ops[..|ops| - 1], ops[|ops| - 1];
    var fates := EachPacketOnce(before);
    PendingOrNew(ApplyAll(FRESH, before), op, t);
    if t in ApplyAll(FRESH, before).pending {
      i := WaitingWasRegistered(before, t);
    } else {
      i := |ops| - 1;
    }
  }

  /**
   Over any run, each answered transaction was registered, and was answered while it waited by a packet
   that came from the called device to the caller with its path.
   */
  lemma {:induction false} AnsweredByItsDevice(ops: seq<Operation>, k: nat) returns (i: nat, j: nat)
    requires k < |ApplyAll(FRESH, ops).answered|
    ensures i < j && AnsweredBy(ops, j, ApplyAll(FRESH, ops).answered[k])
    ensures RegisteredAt(ops, i, ApplyAll(FRESH, ops).answered[k].transaction)
  {
    var n := |ops| - 1;
    var before, op := ops[..n], ops[n];
    var c, answer := ApplyAll(FRESH, before), ApplyAll(FRESH, ops).answered[k];
    assert ops == before + [op];
    if k < |c.answered| {
      i, j := AnsweredByItsDevice(before, k);
      StillAnsweredBy(before, j, answer, op);
    } else {
      NewAnswer(c, op, k, answer);
      j := n;
      i := WaitingWasRegistered(before, answer.transaction);
    }
  }

  lemma {:induction false} NewAnswer(c: Client, op: Operation, k: nat, answer: Answer)
    requires |c.answered| <= k < |Apply(c, op).answered| && answer == Apply(c, op).answered[k]
    ensures op.Processing? && Classify(op.packet).Parsed? && answer.transaction in c.pending
    ensures
      var p := Classify(op.packet).p;
      answer.payload == p.payload && AnswerParts(answer.transaction, p.to, p.from, p.payload)
  {
    var p := Classify(op.packet).p;
    var first := FirstAccepting(c.pending, p).value;
    assert Apply(c, op).answered == c.answered + [Answer(c.pending[first], p.payload)];
    AcceptsIff(c.pending[first], p);
  }

  /** A packet that is no answer to a waiting transaction, in whatever respect, leaves it waiting. */
  lemma {:induction false} OthersLeaveItWaiting(ops: seq<Operation>, packet: seq<byte>, t: Transaction)
    requires t in ApplyAll(FRESH, ops).pending
    requires Classify(packet).Parsed? ==> !AnswerParts(t, Classify(packet).p.to, Classify(packet).p.from, Classify(packet).p.payload)
    ensures t in ApplyAll(FRESH, ops + [Processing(packet)]).pending
  {
    assert (ops + [Processing(packet)])[..|ops|] == ops;
    var fates := EachPacketOnce(ops);
    var c := ApplyAll(FRESH, ops);
    if Classify(packet).Parsed? {
      AcceptsIff(t, Classify(packet).p);
      OldestIsAnswered(c, packet, Classify(packet).p);
    }
  }

  // ---- revoked transactions ----

  /** The transaction is not waiting and has, of all answers, only the first `n`, if it is among them. */
  predicate Gone(c: Client, id: nat, n: nat) {
    && id < c.nextId && n <= |c.answered| && (forall t :: t in c.pending ==> t.id != id)
    && (forall k :: n <= k < |c.answered| ==> c.answered[k].transaction.id != id)
  }

  lemma {:induction false} GoneKept(c: Client, op: Operation, id: nat, n: nat)
    requires Sound(c) && Gone(c, id, n)
    ensures Gone(Apply(c, op), id, n)
  {
    match op
    case Registering(_, _, _, _) =>
    case Revoking(other) => WithoutIsPart(c.pending, other);
    case Processing(packet) =>
  }

  lemma {:induction false} GoneAfterRevoke(c: Client, id: nat)
    requires Sound(c) && id < c.nextId
    ensures Gone(Apply(c, Revoking(id)), id, |c.answered|)
  {
    WithoutIsPart(c.pending, id);
  }

  lemma {:induction false} GoneAlong(c: Client, more: seq<Operation>, id: nat, n: nat)
    requires Sound(c) && Gone(c, id, n)
    ensures Sound(ApplyAll(c, more)) && Gone(ApplyAll(c, more), id, n)
  {
    if more != [] {
      var last := |more| - 1;
      GoneAlong(c, more[..last], id, n);
      SoundKept(ApplyAll(c, more[..last]), more[last]);
      GoneKept(ApplyAll(c, more[..last]), more[last], id, n);
    }
  }

  /** Whatever happens after a transaction was revoked, it waits no more and gets no answer any more. */
  lemma {:induction false} RevokedIsNotAnswered(ops: seq<Operation>, id: nat, more: seq<Operation>)
    requires id < ApplyAll(FRESH, ops).nextId
    ensures
      var before := ApplyAll(FRESH, ops);
      Gone(ApplyAll(Apply(before, Revoking(id)), more), id, |before.answered|)
  {
    var fates := EachPacketOnce(ops);
    var before := ApplyAll(FRESH, ops);
    SoundKept(before, Revoking(id));
    GoneAfterRevoke(before, id);
    GoneAlong(Apply(before, Revoking(id)), more, id, |before.answered|);
  }

  // ---- the client object ----

  class UartBus {
    var pending: seq<Transaction>
    var nextId: nat
    var answered: seq<Answer>
    var unrelated: seq<seq<byte>>      // given to the unrelated packet listeners
    var invalid: seq<seq<byte>>        // given to the invalid packet listeners
    var unparsable: seq<seq<byte>>     // only logged

    constructor ()
      ensures View() == Client([], 0, [], [], [], [])
    {
      pending, nextId, answered, unrelated, invalid, unparsable := [], 0, [], [], [], [];
    }

    function View(): Client
      reads this
    {
      Client(pending, nextId, answered, unrelated, invalid, unparsable)
    }

    method Register(to: i32, from: i32, path: seq<byte>, zeroNamespace: bool) returns (t: Transaction)
      modifies this`pending, this`nextId
      ensures View() == Registered(old(View()), to, from, path, zeroNamespace)
      ensures t == pending[|pending| - 1]
    {
      t := Transaction(nextId, to, from, path, zeroNamespace);
      pending := pending + [t];
      nextId := nextId + 1;
    }

    method RevokePendingRequest(t: Transaction)
      modifies this`pending
      ensures View() == Revoke(old(View()), t.id)
    {
      var kept: seq<Transaction> := [];
      for k := 0 to |pending|
        invariant kept + Without(pending[k..], t.id) == Without(pending, t.id)
      {
        assert pending[k..][1..] == pending[k + 1..];
        if pending[k].id != t.id {
          kept := kept + [pending[k]];
        }
      }
      pending := kept;
    }

    method ProcessPacket(packet: seq<byte>)
      modifies this
      ensures View() == Process(old(View()), packet)
    {
      var data := GetValidPacket(packet);
      if data.None? {
        invalid := invalid + [packet];
        return;
      }
      var parsed := Parse(data.value);
      if parsed.Err? {
        unparsable := unparsable + [packet];
        return;
      }
      Offer(packet, parsed.value);
    }

    /** Gives the packet to the first transaction that accepts it, else to the listeners. */
    method Offer(packet: seq<byte>, p: Packet)
      modifies this
      ensures View() == Place(old(View()), packet, Parsed(p))
    {
      var k := 0;
      while k < |pending| && !Accepts(pending[k], p)
        invariant k <= |pending| && forall i :: 0 <= i < k ==> !Accepts(pending[i], p)
      {
        k := k + 1;
      }
      if k < |pending| {
        answered := answered + [Answer(pending[k], p.payload)];
        pending := pending[..k] + pending[k + 1..];
      } else {
        unrelated := unrelated + [p.raw];
      }
    }
  }
}
