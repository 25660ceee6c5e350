/** The receive buffer of the bootloader: filled by the callbacks of the link layer, released by the dispatch. */
module BootloaderReceive {
  import opened Bytes
  import opened Link
  import opened LinkBus
  import opened LinkRuns

  const MAX_PACKET_SIZE: nat := 48

  /** `ub_rec_byte` on `received_data[..received_ep]`: the byte that does not fit empties the buffer. */
  function Stored(buffer: seq<byte>, b: byte): seq<byte> {
    if |buffer| == MAX_PACKET_SIZE then [] else buffer + [b]
  }

  predicate Resets(e: Event) {
    e.CollisionStart? || e.ReceiveStart? || e.SendEnd?
  }

  /** A callback, or what `try_dispatch_received_packet` does meanwhile to the buffer. */
  datatype BootStep =
    | Callback(at: nat, entry: Entry)
    | Begin         // finds `received` set and clears it
    | Release       // `received_ep = 0`, once or twice, or never for an address that cannot be read
    | End

  datatype Trace = Nil | Then(prev: Trace, step: BootStep)

  /** The callbacks alone. */
  function LinkLog(t: Trace): History {
    match t
    case Nil => Empty
    case Then(p, Callback(at, entry)) => Snoc(LinkLog(p), at, entry)
    case Then(p, _) => LinkLog(p)
  }

  /** The buffer. */
  function Buffer(t: Trace): seq<byte> {
    match t
    case Nil => []
    case Then(p, Callback(_, Notified(e))) => if Resets(e) then [] else Buffer(p)
    case Then(p, Callback(_, Received(b))) => Stored(Buffer(p), b)
    case Then(p, Release) => []
    case Then(p, _) => Buffer(p)
  }

  /** The flag `received`. */
  predicate Flag(t: Trace) {
    match t
    case Nil => false
    case Then(p, Callback(_, Notified(e))) =>
      if Resets(e) then false else if e.ReceiveEnd? then Buffer(p) != [] else Flag(p)
    case Then(_, Begin) => false
    case Then(p, _) => Flag(p)
  }

  predicate Dispatching(t: Trace) {
    match t
    case Nil => false
    case Then(_, Begin) => true
    case Then(_, End) => false
    case Then(p, _) => Dispatching(p)
  }

  /** A dispatch begins only with a received packet, and releases the buffer only before it ends. */
  predicate Possible(t: Trace) {
    match t
    case Nil => true
    case Then(p, Callback(_, _)) => Possible(p)
    case Then(p, Begin) => Possible(p) && Flag(p) && !Dispatching(p)
    case Then(p, _) => Possible(p) && Dispatching(p)
  }

  /** What the buffer keeps of a list of bytes. */
  function Kept(frame: seq<byte>): (r: seq<byte>)
    ensures |r| <= MAX_PACKET_SIZE && |r| <= |frame|
  {
    if frame == [] then [] else Stored(Kept(frame[..|frame| - 1]), frame[|frame| - 1])
  }

  /** A frame is kept whole exactly when it fits. */
  lemma {:induction false} KeptWhole(frame: seq<byte>)
    ensures Kept(frame) == frame <==> |frame| <= MAX_PACKET_SIZE
  {
    if frame != [] && |frame| <= MAX_PACKET_SIZE {
      KeptWhole(frame[..|frame| - 1]);
    }
  }

  /** The bytes reported since the last `receive_start` or release. */
  function Unreleased(t: Trace): seq<byte> {
    match t
    case Nil => []
    case Then(_, Callback(_, Notified(ReceiveStart))) => []
    case Then(p, Callback(_, Received(b))) => Unreleased(p) + [b]
    case Then(_, Release) => []
    case Then(p, _) => Unreleased(p)
  }

  /** A dispatch released the buffer after the first byte of the present frame. */
  predicate CutShort(t: Trace) {
    match t
    case Nil => false
    case Then(_, Callback(_, Notified(ReceiveStart))) => false
    case Then(p, Release) => CutShort(p) || OpenFrame(LinkLog(p)) != []
    case Then(p, _) => CutShort(p)
  }

  lemma {:induction false} BufferHoldsUnreleased(t: Trace)
    requires Nested(LinkLog(t), true)
    ensures Buffer(t) == Kept(Unreleased(t))
    ensures CutShort(t) ==> |Unreleased(t)| < |OpenFrame(LinkLog(t))|
    ensures !CutShort(t) ==> Unreleased(t) == OpenFrame(LinkLog(t))
  {
    match t
    case Then(p, Callback(_, Notified(_))) =>
    case Then(p, Callback(_, Received(b))) =>
      BufferHoldsUnreleased(p);
      assert Unreleased(t)[..|Unreleased(t)| - 1] == Unreleased(p);
    case Then(p, _) =>
      BufferHoldsUnreleased(p);
  }

  /** While a frame is open, the buffer holds all of it exactly when it fits and no dispatch cut it short. */
  lemma {:induction false} BufferHoldsFrame(t: Trace)
    requires Nested(LinkLog(t), true)
    ensures Buffer(t) == OpenFrame(LinkLog(t)) <==> |OpenFrame(LinkLog(t))| <= MAX_PACKET_SIZE && !CutShort(t)
  {
    BufferHoldsUnreleased(t);
    KeptWhole(OpenFrame(LinkLog(t)));
  }

  /**
   At every `receive_end` in the trace, the buffer holds the frame that ended exactly when it fits
   and was not cut short, and `received` tells whether the buffer holds anything.
   */
  predicate FramesAreBuffered(t: Trace) {
    match t
    case Nil => true
    case Then(p, Callback(_, Notified(ReceiveEnd))) =>
      var frame := OpenFrame(LinkLog(p));
      && FramesAreBuffered(p)
      && (Buffer(t) == frame <==> |frame| <= MAX_PACKET_SIZE && !CutShort(p))
      && (Flag(t) <==> Buffer(t) != [])
    case Then(p, _) => FramesAreBuffered(p)
  }

  lemma {:induction false} NestedIsBuffered(t: Trace, receiving: bool)
    requires Nested(LinkLog(t), receiving)
    ensures FramesAreBuffered(t)
  {
    match t
    case Nil =>
    case Then(p, Callback(_, Notified(ReceiveStart))) => NestedIsBuffered(p, false);
    case Then(p, Callback(_, Notified(ReceiveEnd))) =>
      NestedIsBuffered(p, true);
      BufferHoldsFrame(p);
    case Then(p, _) => NestedIsBuffered(p, receiving);
  }

  /** In every run of the link layer, with any dispatches in between. */
  lemma {:induction false} BootloaderSeesFrames(cfg: Config, n: Node, t: Trace)
    requires Reachable(cfg, n) && LinkLog(t) == n.log
    ensures FramesAreBuffered(t)
  {
    ReachableInvariant(cfg, n);
    NestedIsBuffered(t, n.status.Receiving?);
  }

  /** A dispatch was going on when the present frame started. */
  predicate BusyAtStart(t: Trace) {
    match t
    case Nil => false
    case Then(p, Callback(_, Notified(ReceiveStart))) => Dispatching(p)
    case Then(p, _) => BusyAtStart(p)
  }

  /** A dispatch that ended before the frame started cannot cut it short. */
  lemma {:induction false} DispatchInTime(t: Trace)
    requires Possible(t) && Nested(LinkLog(t), true) && !BusyAtStart(t)
    ensures !CutShort(t) && !Dispatching(t) && !Flag(t)
  {
    match t
    case Then(p, Callback(_, Notified(_))) =>
    case Then(p, _) => DispatchInTime(p);
  }

  /** `n` is what `run` makes of a node at power-on. */
  predicate RunsTo(cfg: Config, run: seq<Action>, n: Node) {
    ValidRun(cfg, Init(0), run) && Run(cfg, Init(0), run) == n
  }

  lemma {:induction false} RunsOn(cfg: Config, run: seq<Action>, n: Node, a: Action)
    requires RunsTo(cfg, run, n) && Enabled(n, a)
    ensures RunsTo(cfg, run + [a], Step(cfg, n, a))
  {
    RunExtends(cfg, Init(0), run, a);
  }

  const SLOW := Config(1, 1, false, false, true)

  /** A node that has got a frame of one byte, and what the bootloader saw of it. */
  lemma {:induction false} FirstFrame() returns (run: seq<Action>, n: Node, t: Trace)
    ensures RunsTo(SLOW, run, n) && n.status.Fairwait? && n.now == n.lastAt == 2 && LinkLog(t) == n.log
    ensures t == Then(Then(Then(Then(Nil,
      Callback(1, Heard(7, false))), Callback(1, Notified(ReceiveStart))), Callback(1, Received(7))),
      Callback(2, Notified(ReceiveEnd)))
  {
    var n0 := Init(0);
    var n1 := Step(SLOW, n0, Tick(1));
    var n2 := Step(SLOW, n1, Poll(0));
    assert n2 == n1.(status := Idle);
    var n3 := Step(SLOW, n2, Hear(7));
    var n4 := Step(SLOW, n3, Tick(1));
    n := Step(SLOW, n4, Poll(0));
    assert RunsTo(SLOW, [], n0);
    RunsOn(SLOW, [], n0, Tick(1));
    RunsOn(SLOW, [] + [Tick(1)], n1, Poll(0));
    RunsOn(SLOW, [] + [Tick(1)] + [Poll(0)], n2, Hear(7));
    RunsOn(SLOW, [] + [Tick(1)] + [Poll(0)] + [Hear(7)], n3, Tick(1));
    RunsOn(SLOW, [] + [Tick(1)] + [Poll(0)] + [Hear(7)] + [Tick(1)], n4, Poll(0));
    run := [] + [Tick(1)] + [Poll(0)] + [Hear(7)] + [Tick(1)] + [Poll(0)];
    t := Then(Then(Then(Then(Nil,
      Callback(1, Heard(7, false))), Callback(1, Notified(ReceiveStart))), Callback(1, Received(7))),
      Callback(2, Notified(ReceiveEnd)));
  }

  /**
   A late one can: the packet of one byte is still being dispatched when the next frame starts, and the
   release takes the first of its two bytes.
   */
  lemma {:induction false} LateReleaseCutsShort() returns (n: Node, late: Trace)
    ensures Reachable(SLOW, n) && LinkLog(late) == n.log && Possible(late) && n.status.Receiving?
    ensures OpenFrame(n.log) == [8, 9] && Buffer(late) == [9] && CutShort(late)
  {
    var run, n5, t := FirstFrame();
    assert Flag(t) && Possible(t) && Buffer(t) == [7];
    var n6 := Step(SLOW, n5, Hear(8));
    n := Step(SLOW, n6, Hear(9));
    RunsOn(SLOW, run, n5, Hear(8));
    RunsOn(SLOW, run + [Hear(8)], n6, Hear(9));
    assert Reachable(SLOW, n);
    var busy := Then(t, Begin);
    var started := Then(Then(busy, Callback(2, Heard(8, false))), Callback(2, Notified(ReceiveStart)));
    var second := Then(started, Callback(2, Received(8)));
    assert LinkLog(second) == n6.log && OpenFrame(n6.log) == [8];
    assert Dispatching(second) && Possible(second);
    var released := Then(second, Release);
    late := Then(Then(released, Callback(2, Heard(9, false))), Callback(2, Received(9)));
    assert Buffer(released) == [] && CutShort(released) && Possible(released);
  }

  class Receiver {
    const data: array<byte>
    var ep: nat
    var received: bool
    ghost var trace: Trace

    ghost predicate Valid()
      reads this, data
    {
      && data.Length == MAX_PACKET_SIZE && ep <= MAX_PACKET_SIZE
      && data[..ep] == Buffer(trace) && received == Flag(trace)
    }

    constructor ()
      ensures Valid() && trace == Nil
    {
      data := new byte[MAX_PACKET_SIZE](_ => 0);
      ep, received, trace := 0, false, Nil;
    }

    method UbRecByte(b: byte, ghost at: nat)
      requires Valid()
      modifies this`ep, this`trace, data
      ensures Valid() && trace == Then(old(trace), Callback(at, Received(b)))
    {
      if ep == MAX_PACKET_SIZE {
        ep := 0;
      } else {
        data[ep] := b;
        ep := ep + 1;
        assert data[..ep] == old(data[..ep]) + [b];
      }
      trace := Then(trace, Callback(at, Received(b)));
    }

    method UbEvent(e: Event, ghost at: nat)
      requires Valid()
      modifies this`ep, this`received, this`trace
      ensures Valid() && trace == Then(old(trace), Callback(at, Notified(e)))
    {
      if e.CollisionStart? || e.ReceiveStart? || e.SendEnd? {
        ep := 0;
        received := false;
      }
      if e.ReceiveEnd? {
        received := 0 != ep;
      }
      trace := Then(trace, Callback(at, Notified(e)));
    }

    /** The beginning of `try_dispatch_received_packet`. */
    method TryBegin() returns (begun: bool)
      requires Valid() && !Dispatching(trace)
      modifies this`received, this`trace
      ensures Valid() && begun == old(received)
      ensures trace == if begun then Then(old(trace), Begin) else old(trace)
    {
      begun := received;
      if begun {
        received := false;
        trace := Then(trace, Begin);
      }
    }

    method ReleaseBuffer()
      requires Valid() && Dispatching(trace)
      modifies this`ep, this`trace
      ensures Valid() && trace == Then(old(trace), Release)
    {
      ep := 0;
      trace := Then(trace, Release);
    }
  }

  // ---- a packet that waits for its dispatch ----

  /** A packet not yet dispatched is forgotten when a collision or the next reception starts, or when the node has sent. */
  lemma {:induction false} WaitingIsForgotten(t: Trace, at: nat)
    ensures
      var collided := Then(t, Callback(at, Notified(CollisionStart)));
      var receiving := Then(t, Callback(at, Notified(ReceiveStart)));
      var sent := Then(t, Callback(at, Notified(SendEnd)));
      && !Flag(collided) && Buffer(collided) == [] && !Flag(receiving) && Buffer(receiving) == []
      && !Flag(sent) && Buffer(sent) == []
  {
  }

  /** And by nothing else but its dispatch. */
  lemma {:induction false} WaitingIsKept(t: Trace, step: BootStep)
    requires Flag(t) && !step.Begin?
    requires step.Callback? ==> step.entry !in {Notified(CollisionStart), Notified(ReceiveStart), Notified(SendEnd), Notified(ReceiveEnd)}
    ensures Flag(Then(t, step))
  {
  }
}
