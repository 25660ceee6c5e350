/**
 The gateway as one program: the link layer's object and the connector with its queue. Whatever it does
 is a run of the gateway's state machine, so what `Gateway` says about runs holds for the program.
 */
module GatewayDevice {
  import opened Bytes
  import opened FirmwareDecoder
  import opened Framing
  import opened Link
  import opened LinkRuns
  import opened LinkBus
  import opened LinkProgress
  import opened Gateway
  import opened GatewayConnector

  // ---- runs of the parts are runs of the gateway ----

  function Lifted(run: seq<Action>): (acts: seq<Activity>)
    ensures |acts| == |run| && forall i :: 0 <= i < |run| ==> acts[i] == Bus(run[i])
  {
    seq(|run|, i requires 0 <= i < |run| => Bus(run[i]))
  }

  lemma {:induction false} LinkRunIsRun(cfg: Config, g: State, run: seq<Action>)
    requires ValidRun(cfg, g.node, run) && NoLoad(run)
    ensures CanRun(cfg, g, Lifted(run)) && After(cfg, g, Lifted(run)) == g.(node := Run(cfg, g.node, run))
    decreases |run|
  {
    if run != [] {
      assert run[0] in run;
      assert Lifted(run)[1..] == Lifted(run[1..]);
      LinkRunIsRun(cfg, Do(cfg, g, Bus(run[0])), run[1..]);
    }
  }

  lemma {:induction false} ActivitiesCompose(cfg: Config, g: State, acts: seq<Activity>, more: seq<Activity>)
    requires CanRun(cfg, g, acts) && CanRun(cfg, After(cfg, g, acts), more)
    ensures CanRun(cfg, g, acts + more) && After(cfg, g, acts + more) == After(cfg, After(cfg, g, acts), more)
    decreases |acts|
  {
    if acts == [] {
      assert acts + more == more;
    } else {
      assert (acts + more)[1..] == acts[1..] + more;
      ActivitiesCompose(cfg, Do(cfg, g, acts[0]), acts[1..], more);
    }
  }

  lemma {:induction false} PickUpIsRun(cfg: Config, g: State)
    requires CanDo(g, PickUp)
    ensures CanRun(cfg, g, [PickUp]) && After(cfg, g, [PickUp]) == Do(cfg, g, PickUp)
  {
    assert [PickUp][1..] == [];
    assert After(cfg, Do(cfg, g, PickUp), []) == Do(cfg, g, PickUp);
  }

  function Reads(bytes: seq<byte>): (acts: seq<Activity>)
    ensures |acts| == |bytes| && forall i :: 0 <= i < |bytes| ==> acts[i] == FromPc(bytes[i])
  {
    seq(|bytes|, i requires 0 <= i < |bytes| => FromPc(bytes[i]))
  }

  lemma {:induction false} ReadingIsRun(cfg: Config, g: State, bytes: seq<byte>)
    ensures CanRun(cfg, g, Reads(bytes)) && After(cfg, g, Reads(bytes)) == ReadFromPc(cfg, g, bytes)
    ensures ReadFromPc(cfg, g, bytes).node == g.node && ReadFromPc(cfg, g, bytes).input == g.input + bytes
  {
    if bytes != [] {
      var init, last := bytes[..|bytes| - 1], bytes[|bytes| - 1];
      ReadingIsRun(cfg, g, init);
      var h := ReadFromPc(cfg, g, init);
      assert [FromPc(last)][1..] == [];
      assert After(cfg, Do(cfg, h, FromPc(last)), []) == Do(cfg, h, FromPc(last));
      ActivitiesCompose(cfg, g, Reads(init), [FromPc(last)]);
      assert Reads(bytes) == Reads(init) + [FromPc(last)];
      assert g.input + init + [last] == g.input + bytes;
    }
  }

  /**
   A gateway that is idle, in any run, and that nobody disturbs, sends the oldest packet of its queue:
   it takes the packet up, the bus carries it cleanly, and the rest of the queue is what remains.
   */
  lemma {:induction false} QueuedPacketGoesOut(
      cfg: Config, now: nat, acts: seq<Activity>, gaps: seq<Gap>, pause: nat, rnd: byte) returns (more: seq<Activity>)
    requires CanRun(cfg, PowerOn(now), acts)
    requires
      var g := After(cfg, PowerOn(now), acts);
      && g.node.status.Idle? && g.node.pc.Main? && g.node.toSend == [] && g.queue != [] && g.queue[0] != []
      && |gaps| == |g.queue[0]| && forall k :: 0 <= k < |gaps| ==> Prompt(cfg, gaps[k])
    requires Long(cfg, pause)
    ensures
      var g := After(cfg, PowerOn(now), acts);
      && more == [PickUp] + Lifted(CleanRun(g.queue[0], gaps, pause, rnd)) && CanRun(cfg, g, more)
      && var h := After(cfg, g, more);
      && CleanSends(h.node.log) == CleanSends(g.node.log) + [g.queue[0]] && h.queue == g.queue[1..] && h.node.toSend == []
  {
    var g := After(cfg, PowerOn(now), acts);
    InvariantAtInit(cfg, now);
    SoundAlong(cfg, PowerOn(now), acts);
    PickUpIsRun(cfg, g);
    SoundKept(cfg, g, PickUp);
    var h := Do(cfg, g, PickUp);
    UndisturbedSend(cfg, h.node, gaps, pause, rnd);
    var run := CleanRun(g.queue[0], gaps, pause, rnd);
    CleanRunLoadsNothing(g.queue[0], gaps, pause, rnd);
    LinkRunIsRun(cfg, h, run);
    ActivitiesCompose(cfg, g, [PickUp], Lifted(run));
    more := [PickUp] + Lifted(run);
  }

  lemma {:induction false} CleanRunLoadsNothing(packet: seq<byte>, gaps: seq<Gap>, pause: nat, rnd: byte)
    requires |packet| == |gaps|
    ensures NoLoad(CleanRun(packet, gaps, pause, rnd))
  {
    BytesLoadNothing(packet, gaps, 0);
  }

  lemma {:induction false} BytesLoadNothing(packet: seq<byte>, gaps: seq<Gap>, i: nat)
    requires i <= |packet| == |gaps|
    ensures NoLoad(BytesRun(packet, gaps, i))
    decreases |packet| - i
  {
    if i < |packet| {
      BytesLoadNothing(packet, gaps, i + 1);
    }
  }

  // ---- the program ----

  /** What happens during one round of `ubg_handle_events`; `env` ends when the send is cut off. */
  datatype Round = Round(rnd: byte, early: seq<Action>, late: seq<Action>, env: seq<seq<Action>>, available: seq<byte>)

  predicate OnlyInterrupts(r: Round) {
    && (forall a :: a in r.early ==> Interrupting(a)) && (forall a :: a in r.late ==> Interrupting(a))
    && (forall e, a :: e in r.env && a in e ==> Interrupting(a))
  }

  /** What happens before the send on a bus that the poll found idle: the oldest packet is taken if none is pending. */
  function Prelude(g: State, r: Round, pending: seq<byte>): seq<Activity> {
    Lifted([Poll(r.rnd)] + r.early) + if pending == [] && g.queue != [] then [PickUp] else []
  }

  /** What `ub_manage` does in a round, as activities of the gateway; `sent` are the steps of `ub_send_packet`. */
  ghost predicate Managed(
      cfg: Config, g: State, r: Round, acts: seq<Activity>, sent: seq<Action>, after: Status, code: int, k: nat, cut: bool)
    requires g.node.pc.Main?
  {
    var polled := Step(cfg, g.node, Poll(r.rnd));
    if !polled.status.Idle? then acts == Lifted([Poll(r.rnd)]) && !cut && code == 2
    else
      var ready := Prelude(g, r, polled.toSend);
      && CanRun(cfg, g, ready)
      && var h := After(cfg, g, ready);
      if h.node.toSend == [] then acts == ready && !cut && code == if g.queue == [] then 1 else 2
      else
        && ValidRun(cfg, h.node, r.late) && acts == ready + Lifted(r.late + sent)
        && SendsNow(Run(cfg, h.node, r.late).status, sent, after, code, cut)
        && k <= |r.env| && Outside(sent) == Between(r.env, 0, k) && (cut ==> k == |r.env|)
  }

  /** How many of the available bytes a call of `manage_data_from_pc` takes. */
  function Taken(available: seq<byte>): (n: nat)
    ensures n <= |available|
  {
    if |available| < 20 then |available| else 19
  }

  /** What a round was in fact: the activities of `ub_manage`, with the steps of the send and its code, and the bytes read. */
  datatype Part = Part(managed: seq<Activity>, sent: seq<Action>, after: Status, code: int, pauses: nat, cut: bool, read: nat)

  ghost predicate Handled(cfg: Config, g: State, r: Round, part: Part) {
    && g.node.pc.Main?
    && Managed(cfg, g, r, part.managed, part.sent, part.after, part.code, part.pauses, part.cut)
    && part.read == if part.cut then 0 else Taken(r.available)
  }

  function ActivitiesOf(r: Round, part: Part): seq<Activity>
    requires part.read <= |r.available|
  {
    part.managed + Reads(r.available[..part.read])
  }

  /** `acts` is one round after the other, each as it should be for the state it begins in. */
  ghost predicate Played(cfg: Config, g: State, rounds: seq<Round>, parts: seq<Part>, acts: seq<Activity>)
    requires |parts| <= |rounds|
    decreases |parts|
  {
    if parts == [] then acts == []
    else
      var n := |parts| - 1;
      exists before ::
        && Played(cfg, g, rounds, parts[..n], before) && CanRun(cfg, g, before)
        && Handled(cfg, After(cfg, g, before), rounds[n], parts[n]) && acts == before + ActivitiesOf(rounds[n], parts[n])
  }

  lemma {:induction false} PlayedNext(
      cfg: Config, g: State, rounds: seq<Round>, parts: seq<Part>, acts: seq<Activity>, part: Part)
    requires |parts| < |rounds| && Played(cfg, g, rounds, parts, acts) && CanRun(cfg, g, acts)
    requires Handled(cfg, After(cfg, g, acts), rounds[|parts|], part)
    ensures Played(cfg, g, rounds, parts + [part], acts + ActivitiesOf(rounds[|parts|], part))
  {
    assert (parts + [part])[..|parts|] == parts;
  }

  /** What the first `k` rounds take from the PC. */
  function TakenIn(rounds: seq<Round>, k: nat): seq<byte>
    requires k <= |rounds|
  {
    if k == 0 then []
    else TakenIn(rounds, k - 1) + rounds[k - 1].available[..Taken(rounds[k - 1].available)]
  }

  /** The bytes are the beginning of a stream of framed packets that fit the buffer. */
  predicate Framed(bytes: seq<byte>, packets: seq<seq<byte>>) {
    bytes <= FrameAll(packets, PACKET_ESCAPE) && AllShorter(packets, MAX_PACKET_SIZE) && [] !in packets
  }

  lemma {:induction false} AllFramedReachTheBus(cfg: Config, now: nat, acts: seq<Activity>, got: seq<byte>)
    requires CanRun(cfg, PowerOn(now), acts) && After(cfg, PowerOn(now), acts).input == got
    ensures forall packets: seq<seq<byte>> :: Framed(got, packets) ==>
      Subsequence(CleanSends(After(cfg, PowerOn(now), acts).node.log), packets)
  {
    forall packets: seq<seq<byte>> | Framed(got, packets)
      ensures Subsequence(CleanSends(After(cfg, PowerOn(now), acts).node.log), packets)
    {
      PcPacketsReachTheBus(cfg, now, acts, packets);
    }
  }

  /** Bytes read after a run. */
  lemma {:induction false} ReadAfter(cfg: Config, g: State, acts: seq<Activity>, bytes: seq<byte>)
    requires CanRun(cfg, g, acts)
    ensures CanRun(cfg, g, acts + Reads(bytes))
    ensures
      var h, m := After(cfg, g, acts), After(cfg, g, acts + Reads(bytes));
      m.node == h.node && InletOf(m) == TakeInAll(InletOf(h), bytes) && m.input == h.input + bytes
  {
    var h := After(cfg, g, acts);
    InletRefinesGateway(cfg, h, bytes);
    ReadingIsRun(cfg, h, bytes);
    ActivitiesCompose(cfg, g, acts, Reads(bytes));
  }

  class Program {
    const link: UartBus
    const connector: Connector
    const sendData: array<byte>

    constructor (cfg: Config, now: nat)
      ensures Valid() && link.cfg == cfg && link.pc == Main && Models(PowerOn(now))
    {
      link := new UartBus(cfg, now);
      connector := new Connector();
      sendData := new byte[MAX_PACKET_SIZE](_ => 0);
    }

    ghost predicate Valid()
      reads this, link, connector, connector.queue, connector.queue.entries, connector.queue.buffers
    {
      && link.Valid() && connector.Valid()
      && sendData.Length == MAX_PACKET_SIZE && sendData !in connector.queue.buffers && sendData != connector.decode
    }

    /** The program is in the state `g` of the gateway. */
    ghost predicate Models(g: State)
      requires connector.ep <= connector.decode.Length
      reads this, link, connector, connector.decode, connector.queue
    {
      g.node == link.Model() && InletOf(g) == connector.View()
    }

    /** `send_on_idle` when the bus has nothing to send: the oldest packet, if any, is picked up. */
    method SendOnIdle(ghost g: State) returns (took: bool)
      requires Valid() && Models(g) && link.pc == Main && link.toSend == []
      modifies link`toSend, link`log, connector.queue, connector.queue.entries, sendData
      ensures Valid() && link.pc == Main
      ensures if took then CanDo(g, PickUp) && Models(Do(link.cfg, g, PickUp)) else g.queue == [] && Models(g)
    {
      var size := connector.queue.SendOnIdle(sendData);
      took := size.Some?;
      if took {
        link.PickUp(sendData[..size.value]);
      }
    }

    /** `ub_send_packet`, after the interrupts that come before it. */
    method Send(r: Round, ghost g: State) returns (code: int, k: nat, cut: bool, ghost sent: seq<Action>)
      requires Valid() && Models(g) && link.pc == Main && link.toSend != [] && OnlyInterrupts(r)
      modifies link
      ensures Valid() && (!cut ==> link.pc == Main)
      ensures ValidRun(link.cfg, g.node, r.late + sent) && NoLoad(r.late + sent)
      ensures Models(g.(node := Run(link.cfg, g.node, r.late + sent)))
      ensures ValidRun(link.cfg, g.node, r.late) && SendsNow(Run(link.cfg, g.node, r.late).status, sent, link.status, code, cut)
      ensures k <= |r.env| && Outside(sent) == Between(r.env, 0, k) && (cut ==> k == |r.env|)
    {
      code, k, cut, sent := link.SendLoaded(r.late, r.env, g.node, []);
      assert [] + r.late == r.late;
    }

    /** The beginning of `ub_manage_connection`: the poll and, on an idle bus with nothing to send, the pick-up. */
    method GetReady(r: Round, ghost g: State) returns (idle: bool, refused: bool, ghost ready: seq<Activity>)
      requires Valid() && Models(g) && link.pc == Main && OnlyInterrupts(r)
      modifies link, connector.queue, connector.queue.entries, sendData
      ensures Valid() && CanRun(link.cfg, g, ready) && Models(After(link.cfg, g, ready)) && link.pc == Main
      ensures After(link.cfg, g, ready).input == g.input
      ensures
        var polled := Step(link.cfg, g.node, Poll(r.rnd));
        && idle == polled.status.Idle? && refused == (idle && polled.toSend == [] && g.queue == [])
        && (polled.toSend != [] ==> link.toSend != [])
        && ready == if idle then Prelude(g, r, polled.toSend) else Lifted([Poll(r.rnd)])
    {
      refused := false;
      ghost var cfg := link.cfg;
      ghost var run;
      idle, run := link.PollForIdle(r.rnd, r.early);
      LinkRunIsRun(cfg, g, run);
      ready := Lifted(run);
      ghost var h := After(cfg, g, ready);
      if idle && link.toSend == [] {
        var took := SendOnIdle(h);
        if took {
          PickUpIsRun(cfg, h);
          ActivitiesCompose(cfg, g, ready, [PickUp]);
          ready := ready + [PickUp];
        }
        refused := !took;
      }
      assert idle && !(Step(cfg, g.node, Poll(r.rnd)).toSend == [] && g.queue != []) ==> ready + [] == ready;
    }

    /** `ub_manage`: `ub_manage_connection` with `send_on_idle`. */
    method ManageConnection(r: Round, ghost g: State)
      returns (code: int, k: nat, cut: bool, ghost acts: seq<Activity>, ghost sent: seq<Action>)
      requires Valid() && Models(g) && link.pc == Main && OnlyInterrupts(r)
      modifies link, connector.queue, connector.queue.entries, sendData
      ensures Valid() && CanRun(link.cfg, g, acts) && Models(After(link.cfg, g, acts)) && (!cut ==> link.pc == Main)
      ensures After(link.cfg, g, acts).input == g.input
      ensures Managed(link.cfg, g, r, acts, sent, link.status, code, k, cut)
    {
      k, cut, sent := 0, false, [];
      ghost var cfg := link.cfg;
      var idle, refused;
      idle, refused, acts := GetReady(r, g);
      code := if refused then 1 else 2;
      if idle && link.toSend != [] {
        ghost var ready := acts;
        code, k, cut, sent := Send(r, After(cfg, g, ready));
        LinkRunIsRun(cfg, After(cfg, g, ready), r.late + sent);
        ActivitiesCompose(cfg, g, ready, Lifted(r.late + sent));
        acts := ready + Lifted(r.late + sent);
      }
    }

    /** `ubg_handle_events`: `ub_manage` and then `manage_data_from_pc`. */
    method HandleEvents(r: Round, ghost g: State) returns (cut: bool, read: nat, ghost part: Part)
      requires Valid() && Models(g) && link.pc == Main && OnlyInterrupts(r)
      modifies link, connector, connector.decode, connector.queue, connector.queue.entries, connector.queue.buffers, sendData
      ensures Valid() && (!cut ==> link.pc == Main)
      ensures Handled(link.cfg, g, r, part) && part.cut == cut && part.read == read && part.after == link.status
      ensures CanRun(link.cfg, g, ActivitiesOf(r, part)) && Models(After(link.cfg, g, ActivitiesOf(r, part)))
      ensures After(link.cfg, g, ActivitiesOf(r, part)).input == g.input + r.available[..read]
    {
      read := 0;
      var code, k;
      ghost var managed, sent;
      code, k, cut, managed, sent := ManageConnection(r, g);
      ghost var h := After(link.cfg, g, managed);
      if !cut {
        read := connector.ManageDataFromPc(r.available);
      }
      ghost var bytes := r.available[..read];
      ReadAfter(link.cfg, g, managed, bytes);
      part := Part(managed, sent, link.status, code, k, cut, read);
    }

    /**
     The main loop, from power-on, which gets the bytes `got` from the PC. In every run, what completed on
     the bus, what is being sent and what is queued are together exactly the non-empty packets that were
     accepted, in order; and while the PC sends framed packets, what completed is a subsequence of them.
     */
    method Loop(rounds: seq<Round>, ghost now: nat)
      returns (k: nat, cut: bool, got: seq<byte>, ghost acts: seq<Activity>, ghost parts: seq<Part>)
      requires Valid() && Models(PowerOn(now)) && link.pc == Main
      requires forall i :: 0 <= i < |rounds| ==> OnlyInterrupts(rounds[i])
      modifies link, connector, connector.decode, connector.queue, connector.queue.entries, connector.queue.buffers, sendData
      ensures k <= |rounds| && (if cut then 0 < k else k == |rounds|)
      ensures got == TakenIn(rounds, if cut then k - 1 else k)
      ensures Valid() && CanRun(link.cfg, PowerOn(now), acts) && Models(After(link.cfg, PowerOn(now), acts))
      ensures |parts| == k && Played(link.cfg, PowerOn(now), rounds, parts, acts)
      ensures NonEmpty(After(link.cfg, PowerOn(now), acts).accepted)
           == CleanSends(link.log) + Pending(link.Model()) + NonEmpty(connector.queue.contents)
      ensures After(link.cfg, PowerOn(now), acts).input == got
      ensures forall packets: seq<seq<byte>> :: Framed(got, packets) ==>
        Subsequence(CleanSends(link.log), packets)
    {
      k, cut, got, acts, parts := 0, false, [], [], [];
      ghost var cfg, start := link.cfg, PowerOn(now);
      while k < |rounds| && !cut
        invariant k <= |rounds| && Valid() && (!cut ==> link.pc == Main) && (cut ==> 0 < k)
        invariant got == TakenIn(rounds, if cut then k - 1 else k)
        invariant CanRun(cfg, start, acts) && Models(After(cfg, start, acts)) && After(cfg, start, acts).input == got
        invariant |parts| == k && Played(cfg, start, rounds, parts, acts)
      {
        var read;
        ghost var part;
        cut, read, part := HandleEvents(rounds[k], After(cfg, start, acts));
        PlayedNext(cfg, start, rounds, parts, acts, part);
        ActivitiesCompose(cfg, start, acts, ActivitiesOf(rounds[k], part));
        acts, parts := acts + ActivitiesOf(rounds[k], part), parts + [part];
        got, k := got + rounds[k].available[..read], k + 1;
      }
      GatewayIsFifo(cfg, now, acts);
      AllFramedReachTheBus(cfg, now, acts, got);
    }
  }
}
