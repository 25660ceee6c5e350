/**
 Two nodes on one wire. Both hear every byte at the same instant and have the same clock and
 the same byte time and packet timeout; each of them takes its other steps on its own.
 */
module LinkDelivery {
  import opened Bytes
  import opened Clock
  import opened Link
  import opened LinkRuns

  datatype Pair = Pair(s: Node, r: Node)

  datatype JointAction =
    | Elapse(time: nat)
    | Wire(data: word)
    | SenderDoes(own: Action)
    | ReceiverDoes(own: Action)

  /** A step of one node alone: its main program, or the start of a transmission that it detects. */
  predicate Own(n: Node, a: Action) {
    !a.Tick? && !a.Hear? && Enabled(n, a)
  }

  predicate Listening(n: Node) {
    n.status.Idle? || n.status.Fairwait?
  }

  /** The silence in which a receiver closes a frame has passed since `t`. */
  predicate TimedOut(cfg: Config, t: nat, now: nat) {
    Measured(t, now) >= cfg.byteTime * cfg.packetTimeout
  }

  /**
   The receiver listens when the first byte comes, or has detected the start of the transmission not
   longer ago than the packet timeout. No pause inside the send is as long as the range of the
   32-bit counter. On a noisy line the receiver may also detect a start after it has closed the frame.
   */
  predicate JointEnabled(cr: Config, p: Pair, a: JointAction, noisy: bool) {
    var quiet := HeardSinceStart(p.s.log) == [];
    match a
    case Elapse(time) =>
      && p.s.now + time < p.s.lastAt + WRAP
      && (quiet && p.r.status.Receiving? ==> !TimedOut(cr, p.r.lastAt, p.r.now + time))
    case Wire(_) => quiet ==> Listening(p.r) || p.r.status.Receiving?
    case SenderDoes(own) => Own(p.s, own)
    case ReceiverDoes(own) =>
      Own(p.r, own) && (own.Predict? ==> p.r.status.Receiving? || (if quiet then !TimedOut(cr, p.r.now, p.r.now) else noisy))
  }

  function JointStep(cs: Config, cr: Config, p: Pair, a: JointAction): Pair
    requires JointEnabled(cr, p, a, true)
  {
    match a
    case Elapse(time) => Pair(Step(cs, p.s, Tick(time)), Step(cr, p.r, Tick(time)))
    case Wire(data) => Pair(Step(cs, p.s, Hear(data)), Step(cr, p.r, Hear(data)))
    case SenderDoes(own) => Pair(Step(cs, p.s, own), p.r)
    case ReceiverDoes(own) => Pair(p.s, Step(cr, p.r, own))
  }

  /** A joint run in which the sender is sending until the last step. */
  predicate SendingRun(cs: Config, cr: Config, p: Pair, run: seq<JointAction>, noisy: bool)
    decreases |run|
  {
    || run == []
    || (&& p.s.status.Sending? && JointEnabled(cr, p, run[0], noisy)
        && SendingRun(cs, cr, JointStep(cs, cr, p, run[0]), run[1..], noisy))
  }

  function JointRun(cs: Config, cr: Config, p: Pair, run: seq<JointAction>, noisy: bool): Pair
    requires SendingRun(cs, cr, p, run, noisy)
    decreases |run|
  {
    if run == [] then p else JointRun(cs, cr, JointStep(cs, cr, p, run[0]), run[1..], noisy)
  }

  predicate SameTiming(cs: Config, cr: Config) {
    cs.byteTime == cr.byteTime && cs.packetTimeout == cr.packetTimeout
  }

  /**
   The receiver, which had the frames `before`, has got the bytes `heard` as one more frame; on a noisy
   line, nothing but empty frames may follow it.
   */
  predicate Got(n: Node, before: seq<seq<byte>>, heard: seq<word>, noisy: bool) {
    && !n.status.Connecting?
    && if noisy then
         && before + [heard] <= Frames(n.log) && OnlyEmpty(Frames(n.log), |before| + 1)
         && (n.status.Receiving? ==> OpenFrame(n.log) == [])
       else
         !n.status.Receiving? && Frames(n.log) == before + [heard]
  }

  predicate OnlyEmpty(frames: seq<seq<byte>>, from: nat) {
    forall k :: from <= k < |frames| ==> frames[k] == []
  }

  /** The receiver has got the bytes `heard` as the frame it is receiving. */
  predicate Getting(n: Node, before: seq<seq<byte>>, heard: seq<word>) {
    n.status.Receiving? && Frames(n.log) == before && OpenFrame(n.log) == heard
  }

  /** The receiver has the frames `before` and is not inside of one, or just detected its start. */
  predicate Ready(cfg: Config, n: Node, before: seq<seq<byte>>) {
    && !n.status.Connecting? && Frames(n.log) == before
    && (n.status.Receiving? ==> OpenFrame(n.log) == [] && !TimedOut(cfg, n.lastAt, n.now))
  }

  /** The receiver follows the sender: it may close the frame early only if the sender will notice. */
  predicate Follows(cs: Config, p: Pair, before: seq<seq<byte>>, noisy: bool) {
    var heard := HeardSinceStart(p.s.log);
    && p.s.status.Sending? && p.s.now == p.r.now && p.s.lastAt <= p.s.now < p.s.lastAt + WRAP
    && if heard == [] then Ready(cs, p.r, before)
       else
         || (Getting(p.r, before, heard) && p.r.lastAt == p.s.lastAt)
         || (Got(p.r, before, heard, noisy) && TimedOut(cs, p.s.lastAt, p.s.now))
  }

  lemma {:induction false} FollowsAfterWire(cs: Config, cr: Config, p: Pair, before: seq<seq<byte>>, data: word, noisy: bool)
    requires SameTiming(cs, cr) && Follows(cs, p, before, noisy) && JointEnabled(cr, p, Wire(data), noisy)
    requires RecByte(cs, p.s, data).status.Sending?
    ensures Follows(cs, JointStep(cs, cr, p, Wire(data)), before, noisy)
  {
    var h := AfterHeard(p.r, data);
    assert Frames(h) == Frames(p.r.log) && OpenFrame(h) == OpenFrame(p.r.log);
    assert HeardSinceStart(AfterHeard(p.s, data)) == HeardSinceStart(p.s.log) + [data];
    assert data % 0x100 == data;
    if HeardSinceStart(p.s.log) == [] {
      var g := Snoc(h, p.r.now, Notified(ReceiveStart));
      assert Frames(g) == before && OpenFrame(g) == [];
      assert OpenFrame(Snoc(g, p.r.now, Received(data))) == [data];
    }
  }

  /** Without hearing a byte, a node that is not receiving gets no frame and does not begin one. */
  lemma {:induction false} OwnStepsReceiveNothing(cfg: Config, n: Node, a: Action)
    requires Own(n, a) && !a.Predict? && !n.status.Receiving? && !n.status.Connecting?
    ensures !Step(cfg, n, a).status.Receiving? && !Step(cfg, n, a).status.Connecting?
    ensures Frames(Step(cfg, n, a).log) == Frames(n.log)
  {
    assert Frames(Snoc(n.log, n.now, Notified(CollisionStart))) == Frames(n.log);
  }

  /** What the receiver of a packet does on a noisy line adds empty frames only. */
  lemma {:induction false} NoiseKept(cfg: Config, n: Node, a: Action, before: seq<seq<byte>>, heard: seq<word>)
    requires Own(n, a) && Got(n, before, heard, true)
    ensures Got(Step(cfg, n, a), before, heard, true)
  {
    if n.status.Receiving? {
      assert OpenFrame(n.log) == [];
    } else if a.Predict? {
      assert OpenFrame(Snoc(n.log, n.now, Notified(ReceiveStart))) == [];
    } else {
      OwnStepsReceiveNothing(cfg, n, a);
    }
  }

  lemma {:induction false} FollowsKept(cs: Config, cr: Config, p: Pair, before: seq<seq<byte>>, a: JointAction, noisy: bool)
    requires SameTiming(cs, cr) && Follows(cs, p, before, noisy) && JointEnabled(cr, p, a, noisy)
    requires JointStep(cs, cr, p, a).s.status.Sending?
    ensures Follows(cs, JointStep(cs, cr, p, a), before, noisy)
  {
    match a
    case Elapse(time) =>
      MeasuredMonotone(p.s.lastAt, p.s.now, p.s.now + time);
    case Wire(data) =>
      FollowsAfterWire(cs, cr, p, before, data, noisy);
    case SenderDoes(own) =>
    case ReceiverDoes(own) =>
      if noisy && HeardSinceStart(p.s.log) != [] && Got(p.r, before, HeardSinceStart(p.s.log), noisy) {
        NoiseKept(cr, p.r, own, before, HeardSinceStart(p.s.log));
      } else if own.Predict? {
        assert OpenFrame(Snoc(p.r.log, p.r.now, Notified(ReceiveStart))) == [];
      } else if !p.r.status.Receiving? {
        OwnStepsReceiveNothing(cr, p.r, own);
      }
  }

  function PolledLater(cfg: Config, n: Node, time: nat, rnd: byte): Node {
    UpdateState(cfg, n.(now := n.now + time), rnd)
  }

  /** The packet has arrived, or any poll within the counter range will report it. */
  ghost predicate Arrives(cfg: Config, n: Node, before: seq<seq<byte>>, packet: seq<byte>, noisy: bool) {
    || Got(n, before, packet, noisy)
    || (&& Getting(n, before, packet)
        && forall time: nat, rnd: byte :: n.now + time < n.lastAt + WRAP ==>
             Got(PolledLater(cfg, n, time, rnd), before, packet, false))
  }

  /** A receiver that holds the whole packet closes the frame at its first poll after the silence. */
  lemma {:induction false} PollClosesFrame(
      cs: Config, cr: Config, r: Node, before: seq<seq<byte>>, packet: seq<byte>, time: nat, rnd: byte)
    requires SameTiming(cs, cr) && Getting(r, before, packet) && TimedOut(cs, r.lastAt, r.now)
    requires r.lastAt <= r.now && r.now + time < r.lastAt + WRAP
    ensures Got(PolledLater(cr, r, time, rnd), before, packet, false)
  {
    MeasuredMonotone(r.lastAt, r.now, r.now + time);
  }

  /** The moment the sender reports success: the receiver has the packet, or has it all but closed. */
  lemma {:induction false} CleanEnd(cs: Config, cr: Config, p: Pair, a: JointAction, before: seq<seq<byte>>, noisy: bool)
    requires SameTiming(cs, cr) && Control(cs, p.s) && Echo(p.s) && Follows(cs, p, before, noisy)
    requires JointEnabled(cr, p, a, noisy) && JointStep(cs, cr, p, a).s.status.Fairwait?
    ensures
      var r := JointStep(cs, cr, p, a).r;
      || Got(r, before, p.s.toSend, noisy)
      || (Getting(r, before, p.s.toSend) && TimedOut(cs, r.lastAt, r.now) && r.lastAt <= r.now)
  {
    assert a.SenderDoes? && a.own.Poll? && p.s.pc.Main?;
  }

  lemma {:induction false} SendingGoesOn(cs: Config, cr: Config, p: Pair, a: JointAction, before: seq<seq<byte>>, noisy: bool)
    requires SameTiming(cs, cr) && Control(cs, p.s) && Echo(p.s) && Follows(cs, p, before, noisy)
    requires JointEnabled(cr, p, a, noisy) && JointStep(cs, cr, p, a).s.status.Sending?
    ensures
      var q := JointStep(cs, cr, p, a);
      Control(cs, q.s) && Echo(q.s) && Follows(cs, q, before, noisy) && q.s.toSend == p.s.toSend
  {
    FollowsKept(cs, cr, p, before, a, noisy);
    match a {
      case Elapse(time) =>
      case Wire(data) => EchoKept(cs, p.s, Hear(data));
      case SenderDoes(own) => EchoKept(cs, p.s, own);
      case ReceiverDoes(_) =>
    }
  }

  lemma {:induction false} SendingIsOver(cs: Config, cr: Config, p: Pair, a: JointAction, before: seq<seq<byte>>, noisy: bool)
    requires SameTiming(cs, cr) && Control(cs, p.s) && Echo(p.s) && Follows(cs, p, before, noisy)
    requires JointEnabled(cr, p, a, noisy) && JointStep(cs, cr, p, a).s.status.Fairwait?
    ensures Arrives(cr, JointStep(cs, cr, p, a).r, before, p.s.toSend, noisy)
  {
    CleanEnd(cs, cr, p, a, before, noisy);
    EndOfSilence(cs, cr, JointStep(cs, cr, p, a).r, before, p.s.toSend, noisy);
  }

  lemma {:induction false} EndOfSilence(cs: Config, cr: Config, r: Node, before: seq<seq<byte>>, packet: seq<byte>, noisy: bool)
    requires SameTiming(cs, cr)
    requires Got(r, before, packet, noisy) || (Getting(r, before, packet) && TimedOut(cs, r.lastAt, r.now) && r.lastAt <= r.now)
    ensures Arrives(cr, r, before, packet, noisy)
  {
    if !Got(r, before, packet, noisy) {
      forall time: nat, rnd: byte | r.now + time < r.lastAt + WRAP
        ensures Got(PolledLater(cr, r, time, rnd), before, packet, false)
      {
        PollClosesFrame(cs, cr, r, before, packet, time, rnd);
      }
    }
  }

  /**
   A send that ends without collision delivers its packet: once the receiver polls in the silence
   that follows, it has reported exactly one frame more, and that frame is the packet. On a noisy line,
   where it detects starts of which no byte follows, empty frames may come after it.
   */
  lemma {:induction false} CleanSendIsDelivered(
      cs: Config, cr: Config, p: Pair, run: seq<JointAction>, before: seq<seq<byte>>, noisy: bool)
    requires SameTiming(cs, cr) && Control(cs, p.s) && Echo(p.s) && Follows(cs, p, before, noisy)
    requires SendingRun(cs, cr, p, run, noisy) && JointRun(cs, cr, p, run, noisy).s.status.Fairwait?
    ensures Arrives(cr, JointRun(cs, cr, p, run, noisy).r, before, p.s.toSend, noisy)
    decreases |run|
  {
    var q := JointStep(cs, cr, p, run[0]);
    if q.s.status.Sending? {
      SendingGoesOn(cs, cr, p, run[0], before, noisy);
      CleanSendIsDelivered(cs, cr, q, run[1..], before, noisy);
    } else {
      assert run[1..] == [];
      SendingIsOver(cs, cr, p, run[0], before, noisy);
    }
  }

  /** The same from the start of the send, whatever the two nodes did before. */
  lemma {:induction false} CleanSendReachesListener(cs: Config, cr: Config, p: Pair, run: seq<JointAction>, noisy: bool)
    requires SameTiming(cs, cr) && Reachable(cs, p.s) && p.s.now == p.r.now
    requires p.s.status.Sending? && p.s.pc == Loop(0) && p.s.lastAt == p.s.now
    requires Ready(cs, p.r, Frames(p.r.log))
    requires SendingRun(cs, cr, p, run, noisy) && JointRun(cs, cr, p, run, noisy).s.status.Fairwait?
    ensures Arrives(cr, JointRun(cs, cr, p, run, noisy).r, Frames(p.r.log), p.s.toSend, noisy)
  {
    ReachableInvariant(cs, p.s);
    CleanSendIsDelivered(cs, cr, p, run, Frames(p.r.log), noisy);
  }
}
