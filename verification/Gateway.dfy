/**
 The gateway between the PC and the bus: the frame decoder fills the queue, the link layer
 empties it, and what the link layer receives is framed for the PC.
 */
module Gateway {
  import opened Bytes
  import opened Framing
  import opened FirmwareDecoder
  import opened Link
  import opened LinkRuns

  const MAX_PACKET_SIZE: nat := 64
  const MAX_QUEUE_ENTRY: nat := 16
  const PACKET_ESCAPE: byte := 0xff

  // ---- from the bus to the PC ----

  /** The variable `receive`: set and cleared by `ub_event`. */
  predicate Receive(h: History) {
    match h
    case Empty => false
    case Snoc(_, _, Notified(ReceiveStart)) => true
    case Snoc(_, _, Notified(ReceiveEnd)) => false
    case Snoc(p, _, _) => Receive(p)
  }

  /** What `ub_rec_byte` and `ub_event` have written to the PC. */
  function PcOutput(h: History): seq<byte> {
    match h
    case Empty => []
    case Snoc(p, _, Received(b)) => if Receive(p) then PcOutput(p) + EscapedByte(b, PACKET_ESCAPE) else PcOutput(p)
    case Snoc(p, _, Notified(ReceiveEnd)) => PcOutput(p) + Terminator(PACKET_ESCAPE)
    case Snoc(p, _, _) => PcOutput(p)
  }

  function FrameInProgress(h: History, receiving: bool): seq<byte> {
    if receiving then Escaped(OpenFrame(h), PACKET_ESCAPE) else []
  }

  lemma {:induction false} FrameIsOver(frames: seq<seq<byte>>, open: seq<byte>)
    ensures FrameAll(frames, PACKET_ESCAPE) + Escaped(open, PACKET_ESCAPE) + Terminator(PACKET_ESCAPE)
         == FrameAll(frames + [open], PACKET_ESCAPE) + []
  {
    assert (frames + [open])[..|frames|] == frames;
    assert FrameAll(frames + [open], PACKET_ESCAPE) == FrameAll(frames, PACKET_ESCAPE) + Frame(open, PACKET_ESCAPE);
  }

  /** The PC gets whole frames, and the beginning of the one being received. */
  lemma {:induction false} OutputIsFrames(h: History, receiving: bool)
    requires Nested(h, receiving)
    ensures Receive(h) == receiving
    ensures PcOutput(h) == FrameAll(Frames(h), PACKET_ESCAPE) + FrameInProgress(h, receiving)
  {
    match h
    case Empty =>
    case Snoc(p, _, Notified(ReceiveStart)) =>
      OutputIsFrames(p, false);
      assert FrameInProgress(h, true) == [];
    case Snoc(p, _, Notified(ReceiveEnd)) =>
      OutputIsFrames(p, true);
      FrameIsOver(Frames(p), OpenFrame(p));
    case Snoc(p, _, Received(b)) =>
      OutputIsFrames(p, receiving);
      var open := OpenFrame(h);
      assert open[..|open| - 1] == OpenFrame(p);
    case Snoc(p, _, _) =>
      OutputIsFrames(p, receiving);
  }

  /** In every run, the cutter on the PC recovers exactly the frames the node has received. */
  lemma {:induction false} PcRecoversFrames(cfg: Config, n: Node)
    requires Reachable(cfg, n)
    ensures
      var cutter := Feed(Cutter(false, [], []), PACKET_ESCAPE, PcOutput(n.log));
      && cutter.cut == Frames(n.log)
      && !cutter.mayCut
      && cutter.packet == if n.status.Receiving? then OpenFrame(n.log) else []
  {
    ReachableInvariant(cfg, n);
    OutputIsFrames(n.log, n.status.Receiving?);
    var c, frames := Cutter(false, [], []), Frames(n.log);
    var part := FrameInProgress(n.log, n.status.Receiving?);
    FeedConcat(c, PACKET_ESCAPE, FrameAll(frames, PACKET_ESCAPE), part);
    FeedFrames(c, PACKET_ESCAPE, frames);
    assert [] + frames == frames;
    if n.status.Receiving? {
      FeedEscaped(Cutter(false, [], frames), PACKET_ESCAPE, OpenFrame(n.log));
      assert [] + OpenFrame(n.log) == OpenFrame(n.log);
    }
  }

  // ---- from the PC to the bus ----

  /** The gateway; `input` is all that the PC sent, `dropped` counts the packets the full queue refused. */
  datatype State = State(
    node: Node,
    decoder: Decoder,
    queue: seq<seq<byte>>,
    input: seq<byte>,
    accepted: seq<seq<byte>>,
    dropped: nat)

  datatype Activity =
    | Bus(action: Action)       // any step of the link layer other than picking up a packet
    | PickUp                    // `send_on_idle`
    | FromPc(data: byte)        // one round of `manage_data_from_pc`

  predicate CanDo(g: State, a: Activity) {
    match a
    case Bus(action) => !action.Load? && Enabled(g.node, action)
    case PickUp => g.queue != [] && Enabled(g.node, Load(g.queue[0]))
    case FromPc(_) => true
  }

  function Do(cfg: Config, g: State, a: Activity): State
    requires CanDo(g, a)
  {
    match a
    case Bus(action) => g.(node := Step(cfg, g.node, action))
    case PickUp => g.(node := Step(cfg, g.node, Load(g.queue[0])), queue := g.queue[1..])
    case FromPc(b) =>
      var decoder := DecodeByte(g.decoder, MAX_PACKET_SIZE, PACKET_ESCAPE, b);
      var read := g.(decoder := decoder, input := g.input + [b]);
      if decoder.cut == g.decoder.cut then read
      else if |g.queue| >= MAX_QUEUE_ENTRY then read.(dropped := g.dropped + 1)
      else
        var packet := decoder.cut[|decoder.cut| - 1];
        read.(queue := g.queue + [packet], accepted := g.accepted + [packet])
  }

  function PowerOn(now: nat): State {
    State(Init(now), Decoder(false, [], []), [], [], [], 0)
  }

  predicate CanRun(cfg: Config, g: State, run: seq<Activity>)
    decreases |run|
  {
    run == [] || (CanDo(g, run[0]) && CanRun(cfg, Do(cfg, g, run[0]), run[1..]))
  }

  function After(cfg: Config, g: State, run: seq<Activity>): State
    requires CanRun(cfg, g, run)
    decreases |run|
  {
    if run == [] then g else After(cfg, Do(cfg, g, run[0]), run[1..])
  }

  /** The bus carries no empty packets. */
  function NonEmpty(packets: seq<seq<byte>>): seq<seq<byte>> {
    if packets == [] then []
    else
      var init, last := NonEmpty(packets[..|packets| - 1]), packets[|packets| - 1];
      if last == [] then init else init + [last]
  }

  lemma {:induction false} NonEmptyConcat(a: seq<seq<byte>>, b: seq<seq<byte>>)
    ensures NonEmpty(a + b) == NonEmpty(a) + NonEmpty(b)
  {
    if b == [] {
      assert a + b == a;
    } else {
      assert (a + b)[..|a + b| - 1] == a + b[..|b| - 1];
      NonEmptyConcat(a, b[..|b| - 1]);
    }
  }

  /** `a` is `b` with some packets left out. */
  predicate Subsequence(a: seq<seq<word>>, b: seq<seq<word>>) {
    if a == [] then true
    else if b == [] then false
    else
      var rest := b[..|b| - 1];
      (a[|a| - 1] == b[|b| - 1] && Subsequence(a[..|a| - 1], rest)) || Subsequence(a, rest)
  }

  lemma {:induction false} SubsequenceAppend(a: seq<seq<word>>, b: seq<seq<word>>, x: seq<word>)
    requires Subsequence(a, b)
    ensures Subsequence(a, b + [x]) && Subsequence(a + [x], b + [x])
  {
    assert (a + [x])[..|a|] == a && (b + [x])[..|b|] == b;
  }

  lemma {:induction false} SubsequenceOfLonger(a: seq<seq<word>>, b: seq<seq<word>>, c: seq<seq<word>>)
    requires Subsequence(a, b) && b <= c
    ensures Subsequence(a, c)
    decreases |c|
  {
    if b == c {
    } else {
      var rest := c[..|c| - 1];
      assert b <= rest;
      SubsequenceOfLonger(a, b, rest);
    }
  }

  lemma {:induction false} PrefixOfSubsequence(a: seq<seq<word>>, b: seq<seq<word>>, c: seq<seq<word>>)
    requires a <= b && Subsequence(b, c)
    ensures Subsequence(a, c)
    decreases |c|
  {
    if a != [] && a != b {
      var rest := c[..|c| - 1];
      if Subsequence(b, rest) {
        PrefixOfSubsequence(a, b, rest);
      } else {
        PrefixOfSubsequence(a, b[..|b| - 1], rest);
      }
    }
  }

  lemma {:induction false} SubsequenceLength(a: seq<seq<word>>, b: seq<seq<word>>)
    requires Subsequence(a, b)
    ensures |a| <= |b| && (|a| == |b| ==> a == b)
    decreases |b|
  {
    if a != [] {
      var rest := b[..|b| - 1];
      if a[|a| - 1] == b[|b| - 1] && Subsequence(a[..|a| - 1], rest) {
        SubsequenceLength(a[..|a| - 1], rest);
        assert a == a[..|a| - 1] + [a[|a| - 1]] && b == rest + [b[|b| - 1]];
      } else {
        SubsequenceLength(a, rest);
      }
    }
  }

  lemma {:induction false} SubsequenceMember(a: seq<seq<word>>, b: seq<seq<word>>, x: seq<word>)
    requires Subsequence(a, b) && x in a
    ensures x in b
    decreases |b|
  {
    var rest := b[..|b| - 1];
    if a[|a| - 1] == b[|b| - 1] && Subsequence(a[..|a| - 1], rest) {
      if x != a[|a| - 1] {
        SubsequenceMember(a[..|a| - 1], rest, x);
      }
    } else {
      SubsequenceMember(a, rest, x);
    }
  }

  /** Nothing is lost between the decoder, the queue and the link layer, and nothing is reordered. */
  predicate Balanced(g: State) {
    && |g.queue| <= MAX_QUEUE_ENTRY
    && NonEmpty(g.accepted) == Loads(g.node.log) + NonEmpty(g.queue)
  }

  /** Every decoded packet was accepted, in order, or dropped. */
  predicate Accounted(g: State) {
    Subsequence(g.accepted, g.decoder.cut) && |g.decoder.cut| == |g.accepted| + g.dropped
  }

  predicate Decoded(g: State) {
    g.decoder == Decode(Decoder(false, [], []), MAX_PACKET_SIZE, PACKET_ESCAPE, g.input)
  }

  ghost predicate Sound(cfg: Config, g: State) {
    Invariant(cfg, g.node) && Balanced(g) && Accounted(g) && Decoded(g)
  }

  lemma {:induction false} LoadsOnlyByLoading(cfg: Config, n: Node, action: Action)
    requires Enabled(n, action) && !action.Load?
    ensures Loads(Step(cfg, n, action).log) == Loads(n.log)
  {
    assert Loads(Snoc(n.log, n.now, Notified(CollisionStart))) == Loads(n.log);
    if action.Hear? {
      var h1, h2, h3 := AfterHeard(n, action.data), AfterCollisionStart(n, action.data), AfterCollidedSend(n, action.data);
      assert Loads(h1) == Loads(h2) == Loads(h3);
      assert Loads(Snoc(h1, n.now, Notified(ReceiveStart))) == Loads(h1);
    }
  }

  lemma {:induction false} BalancedAfterPickUp(cfg: Config, g: State)
    requires Balanced(g) && CanDo(g, PickUp)
    ensures Balanced(Do(cfg, g, PickUp))
  {
    var oldest, rest: seq<seq<byte>> := [g.queue[0]], g.queue[1..];
    assert oldest[..0] == [] && oldest + rest == g.queue;
    NonEmptyConcat(oldest, rest);
    assert Loads(g.node.log) + (NonEmpty(oldest) + NonEmpty(rest)) == Loads(g.node.log) + NonEmpty(oldest) + NonEmpty(rest);
  }

  lemma {:induction false} BalancedAfterPc(cfg: Config, g: State, b: byte)
    requires Balanced(g)
    ensures Balanced(Do(cfg, g, FromPc(b)))
  {
    var cut := Do(cfg, g, FromPc(b)).decoder.cut;
    if cut != g.decoder.cut && |g.queue| < MAX_QUEUE_ENTRY {
      var packet := [cut[|cut| - 1]];
      NonEmptyConcat(g.accepted, packet);
      NonEmptyConcat(g.queue, packet);
      assert Loads(g.node.log) + NonEmpty(g.queue) + NonEmpty(packet) == Loads(g.node.log) + (NonEmpty(g.queue) + NonEmpty(packet));
    }
  }

  lemma {:induction false} AccountedAfterPc(cfg: Config, g: State, b: byte)
    requires Accounted(g)
    ensures Accounted(Do(cfg, g, FromPc(b)))
  {
    var cut := Do(cfg, g, FromPc(b)).decoder.cut;
    if cut != g.decoder.cut {
      assert cut == g.decoder.cut + [cut[|cut| - 1]];
      SubsequenceAppend(g.accepted, g.decoder.cut, cut[|cut| - 1]);
    }
  }

  lemma {:induction false} DecodedAfterPc(cfg: Config, g: State, b: byte)
    requires Decoded(g)
    ensures Decoded(Do(cfg, g, FromPc(b)))
  {
    var input := g.input + [b];
    assert input[..|input| - 1] == g.input;
  }

  lemma {:induction false} SoundKept(cfg: Config, g: State, a: Activity)
    requires Sound(cfg, g) && CanDo(g, a)
    ensures Sound(cfg, Do(cfg, g, a))
  {
    match a
    case Bus(action) =>
      InvariantKept(cfg, g.node, action);
      LoadsOnlyByLoading(cfg, g.node, action);
    case PickUp =>
      InvariantKept(cfg, g.node, Load(g.queue[0]));
      BalancedAfterPickUp(cfg, g);
    case FromPc(b) =>
      BalancedAfterPc(cfg, g, b);
      AccountedAfterPc(cfg, g, b);
      DecodedAfterPc(cfg, g, b);
  }

  lemma {:induction false} SoundAlong(cfg: Config, g: State, run: seq<Activity>)
    requires Sound(cfg, g) && CanRun(cfg, g, run)
    ensures Sound(cfg, After(cfg, g, run))
    decreases |run|
  {
    if run != [] {
      SoundKept(cfg, g, run[0]);
      SoundAlong(cfg, Do(cfg, g, run[0]), run[1..]);
    }
  }

  /**
   In every run of the gateway, the non-empty packets accepted into the queue are those that
   completed on the bus, in the same order and each once, then the one being sent, then the queue.
   */
  lemma {:induction false} GatewayIsFifo(cfg: Config, now: nat, run: seq<Activity>)
    requires CanRun(cfg, PowerOn(now), run)
    ensures
      var g := After(cfg, PowerOn(now), run);
      NonEmpty(g.accepted) == CleanSends(g.node.log) + Pending(g.node) + NonEmpty(g.queue)
  {
    InvariantAtInit(cfg, now);
    SoundAlong(cfg, PowerOn(now), run);
  }

  lemma {:induction false} CutsGrow(d: Decoder, bytes: seq<byte>, more: seq<byte>)
    ensures Decode(d, MAX_PACKET_SIZE, PACKET_ESCAPE, bytes).cut
         <= Decode(d, MAX_PACKET_SIZE, PACKET_ESCAPE, bytes + more).cut
  {
    if more == [] {
      assert bytes + more == bytes;
    } else {
      var all := bytes + more;
      assert all[..|all| - 1] == bytes + more[..|more| - 1];
      CutsGrow(d, bytes, more[..|more| - 1]);
    }
  }

  lemma {:induction false} NonEmptyOfAllNonEmpty(packets: seq<seq<byte>>)
    requires [] !in packets
    ensures NonEmpty(packets) == packets
  {
    if packets != [] {
      NonEmptyOfAllNonEmpty(packets[..|packets| - 1]);
    }
  }

  /**
   From the PC to the wire: while the PC streams framed packets that fit the buffer, what has
   completed on the bus is a subsequence of the PC's packets, and their prefix if the queue never
   refused one.
   */
  lemma {:induction false} PcPacketsReachTheBus(cfg: Config, now: nat, run: seq<Activity>, packets: seq<seq<byte>>)
    requires CanRun(cfg, PowerOn(now), run)
    requires After(cfg, PowerOn(now), run).input <= FrameAll(packets, PACKET_ESCAPE)
    requires AllShorter(packets, MAX_PACKET_SIZE) && [] !in packets
    ensures
      var g := After(cfg, PowerOn(now), run);
      && Subsequence(CleanSends(g.node.log), packets)
      && (g.dropped == 0 ==> CleanSends(g.node.log) <= packets)
      && |CleanSends(g.node.log)| + |Pending(g.node)| + |NonEmpty(g.queue)| + g.dropped == |g.decoder.cut| <= |packets|
  {
    var g := After(cfg, PowerOn(now), run);
    InvariantAtInit(cfg, now);
    SoundAlong(cfg, PowerOn(now), run);
    CutsArePackets(g, packets);
    AcceptedArePackets(g, packets);
    GatewayIsFifo(cfg, now, run);
    var done := CleanSends(g.node.log);
    assert done <= g.accepted;
    PrefixOfSubsequence(done, g.accepted, packets);
    if g.dropped == 0 {
      SubsequenceLength(g.accepted, g.decoder.cut);
    }
  }

  lemma {:induction false} CutsArePackets(g: State, packets: seq<seq<byte>>)
    requires Decoded(g) && g.input <= FrameAll(packets, PACKET_ESCAPE) && AllShorter(packets, MAX_PACKET_SIZE)
    ensures g.decoder.cut <= packets
  {
    var stream := FrameAll(packets, PACKET_ESCAPE);
    CutsGrow(Decoder(false, [], []), g.input, stream[|g.input|..]);
    assert g.input + stream[|g.input|..] == stream;
    DecoderAgreesWithCutter(MAX_PACKET_SIZE, PACKET_ESCAPE, packets);
    FeedFrames(Cutter(false, [], []), PACKET_ESCAPE, packets);
    assert [] + packets == packets;
  }

  lemma {:induction false} AcceptedArePackets(g: State, packets: seq<seq<byte>>)
    requires Accounted(g) && g.decoder.cut <= packets && [] !in packets
    ensures Subsequence(g.accepted, packets) && NonEmpty(g.accepted) == g.accepted && [] !in g.accepted
  {
    SubsequenceOfLonger(g.accepted, g.decoder.cut, packets);
    if [] in g.accepted {
      SubsequenceMember(g.accepted, packets, []);
    }
    NonEmptyOfAllNonEmpty(g.accepted);
  }
}
