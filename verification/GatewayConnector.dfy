/** The gateway program itself: its buffers and flags, over the pool-backed queue. */
module GatewayConnector {
  import opened Bytes
  import opened FirmwareDecoder
  import opened Framing
  import opened GatewayQueue
  import opened Link
  import opened Gateway

  /** The part of the gateway that the PC's bytes change. */
  datatype Inlet = Inlet(mayCut: bool, buffer: seq<byte>, queue: seq<seq<byte>>)

  function InletOf(g: State): Inlet {
    Inlet(g.decoder.mayCut, g.decoder.buffer, g.queue)
  }

  /** The decoder takes the byte; a packet that it cuts goes into the queue if there is room. */
  function TakeIn(i: Inlet, b: byte): Inlet {
    var d := DecodeByte(Decoder(i.mayCut, i.buffer, []), MAX_PACKET_SIZE, PACKET_ESCAPE, b);
    Inlet(d.mayCut, d.buffer, if d.cut == [] || |i.queue| >= MAX_QUEUE_ENTRY then i.queue else i.queue + [d.cut[0]])
  }

  function TakeInAll(i: Inlet, bytes: seq<byte>): Inlet {
    if bytes == [] then i else TakeIn(TakeInAll(i, bytes[..|bytes| - 1]), bytes[|bytes| - 1])
  }

  /** The gateway after it has read `bytes` from the PC. */
  function ReadFromPc(cfg: Config, g: State, bytes: seq<byte>): State {
    if bytes == [] then g
    else Do(cfg, ReadFromPc(cfg, g, bytes[..|bytes| - 1]), FromPc(bytes[|bytes| - 1]))
  }

  lemma {:induction false} TakeInNext(i: Inlet, bytes: seq<byte>, k: nat)
    requires k < |bytes|
    ensures TakeInAll(i, bytes[..k + 1]) == TakeIn(TakeInAll(i, bytes[..k]), bytes[k])
  {
    assert bytes[..k + 1][..k] == bytes[..k];
  }

  lemma {:induction false} OneByteRefines(cfg: Config, g: State, b: byte)
    ensures InletOf(Do(cfg, g, FromPc(b))) == TakeIn(InletOf(g), b)
  {
    var d := DecodeByte(g.decoder, MAX_PACKET_SIZE, PACKET_ESCAPE, b);
    if d.cut != g.decoder.cut {
      assert d.cut[|d.cut| - 1] == if |g.decoder.buffer| >= MAX_PACKET_SIZE then [] else g.decoder.buffer;
    }
  }

  /** The program's view of its input and the gateway model agree. */
  lemma {:induction false} InletRefinesGateway(cfg: Config, g: State, bytes: seq<byte>)
    ensures InletOf(ReadFromPc(cfg, g, bytes)) == TakeInAll(InletOf(g), bytes)
  {
    if bytes != [] {
      InletRefinesGateway(cfg, g, bytes[..|bytes| - 1]);
      OneByteRefines(cfg, ReadFromPc(cfg, g, bytes[..|bytes| - 1]), bytes[|bytes| - 1]);
    }
  }

  class Connector {
    const queue: Queue
    const decode: array<byte>
    var ep: nat
    var mayCut: bool
    var receive: bool
    var toPc: seq<byte>

    constructor ()
      ensures Valid() && View() == Inlet(false, [], []) && !receive && toPc == []
    {
      queue := new Queue(MAX_QUEUE_ENTRY, MAX_PACKET_SIZE);
      decode := new byte[MAX_PACKET_SIZE](_ => 0);
      ep, mayCut, receive, toPc := 0, false, false, [];
    }

    ghost predicate Valid()
      reads this, queue, queue.entries, queue.buffers
    {
      && queue.Valid() && queue.taken == {}
      && queue.capacity == MAX_PACKET_SIZE && |queue.entries| == MAX_QUEUE_ENTRY
      && decode.Length == MAX_PACKET_SIZE && ep <= MAX_PACKET_SIZE && decode !in queue.buffers
    }

    ghost function View(): Inlet
      requires ep <= decode.Length
      reads this, decode, queue
    {
      Inlet(mayCut, decode[..ep], queue.contents)
    }

    method UbRecByte(b: byte)
      modifies this`toPc
      ensures toPc == old(toPc) + if receive then EscapedByte(b, PACKET_ESCAPE) else []
    {
      if receive {
        if b == PACKET_ESCAPE {
          toPc := toPc + [PACKET_ESCAPE];
        }
        toPc := toPc + [b];
      }
    }

    method UbEvent(event: Event)
      modifies this`toPc, this`receive
      ensures toPc == old(toPc) + if event == ReceiveEnd then Terminator(PACKET_ESCAPE) else []
      ensures receive == (event == ReceiveStart || (event != ReceiveEnd && old(receive)))
    {
      if event == ReceiveStart {
        receive := true;
      } else if event == ReceiveEnd {
        toPc := toPc + [PACKET_ESCAPE];
        toPc := toPc + [Not(PACKET_ESCAPE)];
        receive := false;
      }
    }

    /** The callbacks write what `PcOutput` says of the history. */
    method Deliver(e: Entry, ghost h: History, ghost at: nat)
      requires receive == Receive(h) && toPc == PcOutput(h)
      modifies this`toPc, this`receive
      ensures receive == Receive(Snoc(h, at, e)) && toPc == PcOutput(Snoc(h, at, e))
    {
      match e {
        case Notified(event) => UbEvent(event);
        case Received(b) => UbRecByte(b);
        case _ =>
      }
    }

    method Append(b: byte)
      requires Valid() && ep < MAX_PACKET_SIZE
      modifies this`ep, decode
      ensures Valid() && View() == old(View()).(buffer := old(View()).buffer + [b])
    {
      decode[ep] := b;
      ep := ep + 1;
    }

    method CutPacket()
      requires Valid()
      modifies this`ep, queue, queue.entries, queue.buffers
      ensures Valid()
      ensures
        var Inlet(cut, buffer, waiting) := old(View());
        View() == Inlet(cut, [], if |waiting| < MAX_QUEUE_ENTRY then waiting + [buffer] else waiting)
    {
      var _ := queue.EnqueueContent(decode[..ep]);
      ep := 0;
    }

    /** One round of `manage_data_from_pc`. */
    method ReadByte(b: byte)
      requires Valid()
      modifies this`ep, this`mayCut, decode, queue, queue.entries, queue.buffers
      ensures Valid() && View() == TakeIn(old(View()), b)
    {
      if ep >= MAX_PACKET_SIZE {
        ep := 0;
      }
      if mayCut {
        mayCut := false;
        if b == Not(PACKET_ESCAPE) {
          CutPacket();
        } else {
          Append(b);
        }
      } else if b == PACKET_ESCAPE {
        mayCut := true;
      } else {
        Append(b);
      }
    }

    /** `manage_data_from_pc`: reads at most 19 of the bytes that are available. */
    method ManageDataFromPc(available: seq<byte>) returns (read: nat)
      requires Valid()
      modifies this`ep, this`mayCut, decode, queue, queue.entries, queue.buffers
      ensures read == if |available| < 20 then |available| else 19
      ensures Valid() && View() == TakeInAll(old(View()), available[..read])
    {
      read := 0;
      var i := 1;
      while read < |available| && i < 20
        invariant read == i - 1 <= |available| && i <= 20
        invariant Valid() && View() == TakeInAll(old(View()), available[..read])
      {
        TakeInNext(old(View()), available, read);
        ReadByte(available[read]);
        read, i := read + 1, i + 1;
      }
    }
  }
}
