/**
 The link layer of a node, in the interrupt-read configuration: what each entry point of the
 library does to the node, as functions on a node value, and the steps a node can take.
 */
module Link {
  import opened Bytes
  import opened Clock

  datatype Status = Connecting | Idle | Sending | Fairwait | Receiving | Collision

  datatype Event = ReceiveStart | ReceiveEnd | SendStart | SendEnd | CollisionStart | CollisionEnd

  /** What happens at a node, in the order it happens. */
  datatype Entry =
    | Notified(event: Event)                  // `serial_event` callback
    | Received(data: byte)                    // `serial_byte_received` callback
    | Heard(sample: word, connecting: bool)   // receive interrupt, and was the node still connecting
    | Put(data: byte)                         // `do_send_byte`
    | Loaded(packet: seq<byte>)               // `send_on_idle` handed over this packet

  /** Everything that happened so far; the latest entry is the outermost. */
  datatype History = Empty | Snoc(prev: History, at: nat, entry: Entry)

  datatype Config = Config(
    byteTime: word,
    packetTimeout: byte,
    fairwaitLow: bool,
    fairwaitHigh: bool,
    skipCollisionData: bool)

  /** Where the main program is: outside of `ub_send_packet`, or in it with `i` bytes sent. */
  datatype Pc = Main | Loop(i: nat)

  /** `wi` of a sending node that expects no echo (`~0` in an `int16_t`). */
  const NOTHING: int := -1

  /**
   A node. `lastAt` is the real time at which `last_bus_activity` was written (the register
   holds `Counter(lastAt)`); `toSend` is the buffer of `to_send_size` bytes.
   */
  datatype Node = Node(
    status: Status,
    wi: int,
    lastAt: nat,
    toSend: seq<byte>,
    pc: Pc,
    now: nat,
    log: History)
  {
    function Emit(e: Entry): Node {
      this.(log := Snoc(log, now, e))
    }

    function Touch(): Node {
      this.(lastAt := now)
    }
  }

  function FairwaitCycles(cfg: Config): nat {
    1 + (if cfg.fairwaitLow then 1 else 0) + (if cfg.fairwaitHigh then 2 else 0)
  }

  function Timeout(cfg: Config, n: Node): nat {
    cfg.byteTime * (if n.status.Fairwait? then n.wi % 0x100 else cfg.packetTimeout)
  }

  predicate SliceExceeded(cfg: Config, n: Node) {
    Measured(n.lastAt, n.now) >= Timeout(cfg, n)
  }

  function CollisionHappened(n: Node): Node {
    var m := n.(status := Collision);
    var m := if n.status.Collision? then m else m.Emit(Notified(CollisionStart));
    if n.status.Sending? then m.Emit(Notified(SendEnd)) else m
  }

  /** `ub_out_update_state`; `rnd` is what `rand` returns. */
  function UpdateState(cfg: Config, n: Node, rnd: byte): Node {
    if n.status.Idle? || !SliceExceeded(cfg, n) then n
    else match n.status
      case Fairwait =>
        n.(status := Idle).Touch()
      case Receiving =>
        n.(status := Fairwait, wi := FairwaitCycles(cfg) + rnd % 3).Touch().Emit(Notified(ReceiveEnd))
      case Sending =>
        if n.wi != NOTHING then CollisionHappened(n)
        else n.(status := Fairwait, wi := FairwaitCycles(cfg), toSend := []).Touch().Emit(Notified(SendEnd))
      case Collision =>
        n.(status := Fairwait, wi := FairwaitCycles(cfg)).Touch().Emit(Notified(CollisionEnd))
      case Connecting =>
        n.(status := Idle)
      case Idle => n
  }

  function CheckAndHandleCollision(cfg: Config, n: Node, data: word): Node {
    if data > 255 || n.wi != data || SliceExceeded(cfg, n) then
      var m := CollisionHappened(n);
      if cfg.skipCollisionData then m else m.Emit(Received(data % 0x100))
    else
      n.(wi := NOTHING)
  }

  function PredictTransmissionStart(n: Node): Node {
    if n.status.Idle? || n.status.Fairwait? then
      n.(status := Receiving).Touch().Emit(Notified(ReceiveStart))
    else
      n
  }

  /** `ub_out_rec_byte` */
  function RecByte(cfg: Config, n: Node, data: word): Node {
    var n := n.Emit(Heard(data, n.status.Connecting?));
    if n.status.Sending? || n.status.Collision? then
      CheckAndHandleCollision(cfg, n, data).Touch()
    else if !n.status.Receiving? then
      PredictTransmissionStart(n).Emit(Received(data % 0x100))
    else
      n.Touch().Emit(Received(data % 0x100))
  }

  /** `ub_init` */
  function Init(now: nat): Node {
    Node(Connecting, NOTHING, now, [], Main, now, Empty)
  }

  /** One atomic step: the clock, an interrupt, or the main program up to its next shared access. */
  datatype Action =
    | Tick(elapsed: nat)
    | Hear(data: word)
    | Predict
    | Poll(rnd: byte)
    | Load(packet: seq<byte>)
    | Start
    | SendNext
    | Finish
    | Abort

  /** `ub_send_packet` waits for the echo of the byte it sent. */
  predicate AwaitsEcho(n: Node) {
    n.pc.Loop? && n.status.Sending? && n.wi != NOTHING
  }

  predicate EchoArrived(n: Node) {
    n.pc.Loop? && n.status.Sending? && n.wi == NOTHING
  }

  /** The next byte may be put: after its check, an interrupt may still have brought a collision. */
  predicate MayPut(n: Node) {
    EchoArrived(n) || (n.pc.Loop? && n.status.Collision?)
  }

  predicate Enabled(n: Node, a: Action) {
    match a
    case Tick(_) => true
    case Hear(_) => true
    case Predict => true
    case Poll(_) => n.pc.Main? || AwaitsEcho(n)
    case Load(_) => n.pc.Main? && n.toSend == []
    case Start => n.pc.Main? && n.status.Idle? && n.toSend != []
    case SendNext => MayPut(n) && n.pc.i < |n.toSend|
    case Finish => EchoArrived(n) && n.pc.i >= |n.toSend|
    case Abort => n.pc.Loop? && !n.status.Sending?
  }

  function Step(cfg: Config, n: Node, a: Action): Node
    requires Enabled(n, a)
  {
    match a
    case Tick(d) => n.(now := n.now + d)
    case Hear(data) => RecByte(cfg, n, data)
    case Predict => PredictTransmissionStart(n)
    case Poll(rnd) => UpdateState(cfg, n, rnd)
    case Load(packet) => n.(toSend := packet).Emit(Loaded(packet))
    case Start => n.(status := Sending, pc := Loop(0), wi := NOTHING).Touch().Emit(Notified(SendStart))
    case SendNext =>
      n.(wi := n.toSend[n.pc.i], pc := Loop(n.pc.i + 1)).Emit(Put(n.toSend[n.pc.i]))
    case Finish => n.(pc := Main)
    case Abort => n.(pc := Main)
  }

  predicate ValidRun(cfg: Config, n: Node, run: seq<Action>)
    decreases |run|
  {
    run == [] || (Enabled(n, run[0]) && ValidRun(cfg, Step(cfg, n, run[0]), run[1..]))
  }

  function Run(cfg: Config, n: Node, run: seq<Action>): Node
    requires ValidRun(cfg, n, run)
    decreases |run|
  {
    if run == [] then n else Run(cfg, Step(cfg, n, run[0]), run[1..])
  }

  // ---- what a history says ----

  function Events(h: History): seq<Event> {
    match h
    case Empty => []
    case Snoc(p, _, Notified(e)) => Events(p) + [e]
    case Snoc(p, _, _) => Events(p)
  }

  /** The bytes on the wire since the node started to send. */
  function HeardSinceStart(h: History): seq<word> {
    match h
    case Empty => []
    case Snoc(p, _, Notified(SendStart)) => []
    case Snoc(p, _, Heard(d, _)) => HeardSinceStart(p) + [d]
    case Snoc(p, _, _) => HeardSinceStart(p)
  }

  /** The bytes the node transmitted since it started to send. */
  function PutSinceStart(h: History): seq<byte> {
    match h
    case Empty => []
    case Snoc(p, _, Notified(SendStart)) => []
    case Snoc(p, _, Put(d)) => PutSinceStart(p) + [d]
    case Snoc(p, _, _) => PutSinceStart(p)
  }

  /** The non-empty packets handed over for sending, in order. */
  function Loads(h: History): seq<seq<byte>> {
    match h
    case Empty => []
    case Snoc(p, _, Loaded(packet)) => if packet == [] then Loads(p) else Loads(p) + [packet]
    case Snoc(p, _, _) => Loads(p)
  }

  /** Is `h` followed by a `send_end`, that end is the end of a collided send. */
  predicate JustCollided(h: History) {
    h.Snoc? && h.entry == Notified(CollisionStart)
  }

  /** For each send that ended without collision, the bytes heard from its start to its end. */
  function CleanSends(h: History): seq<seq<word>> {
    match h
    case Empty => []
    case Snoc(p, _, Notified(SendEnd)) =>
      if JustCollided(p) then CleanSends(p) else CleanSends(p) + [HeardSinceStart(p)]
    case Snoc(p, _, _) => CleanSends(p)
  }

  /** When the last byte was heard, not counting the ones heard while connecting. */
  function LastHeard(h: History): Option<nat> {
    match h
    case Empty => None
    case Snoc(p, at, Heard(_, false)) => Some(at)
    case Snoc(p, _, _) => LastHeard(p)
  }

  /** Bytes reported since the last `receive_start`. */
  function OpenFrame(h: History): seq<byte> {
    match h
    case Empty => []
    case Snoc(p, _, Notified(ReceiveStart)) => []
    case Snoc(p, _, Received(d)) => OpenFrame(p) + [d]
    case Snoc(p, _, _) => OpenFrame(p)
  }

  /** The packets reported between a `receive_start` and its `receive_end`. */
  function Frames(h: History): seq<seq<byte>> {
    match h
    case Empty => []
    case Snoc(p, _, Notified(ReceiveEnd)) => Frames(p) + [OpenFrame(p)]
    case Snoc(p, _, _) => Frames(p)
  }
}
