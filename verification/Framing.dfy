/**
 Escaped stream framing between the PC and the gateway: a packet ends with `escape, !escape`,
 an escape byte inside of it is doubled.
 */
module Framing {
  import opened Bytes

  function Not(b: byte): byte {
    255 - b
  }

  function EscapedByte(b: byte, escape: byte): seq<byte> {
    if b == escape then [escape, b] else [b]
  }

  function Escaped(data: seq<byte>, escape: byte): seq<byte> {
    if data == [] then []
    else Escaped(data[..|data| - 1], escape) + EscapedByte(data[|data| - 1], escape)
  }

  function Terminator(escape: byte): seq<byte> {
    [escape, Not(escape)]
  }

  function Frame(data: seq<byte>, escape: byte): seq<byte> {
    Escaped(data, escape) + Terminator(escape)
  }

  function FrameAll(packets: seq<seq<byte>>, escape: byte): seq<byte> {
    if packets == [] then []
    else FrameAll(packets[..|packets| - 1], escape) + Frame(packets[|packets| - 1], escape)
  }

  method FrameBytes(data: seq<byte>, escape: byte) returns (framed: seq<byte>)
    ensures framed == Frame(data, escape)
  {
    framed := [];
    for k := 0 to |data|
      invariant framed == Escaped(data[..k], escape)
    {
      assert data[..k + 1][..k] == data[..k];
      if data[k] == escape {
        framed := framed + [escape];
      }
      framed := framed + [data[k]];
    }
    assert data[..|data|] == data;
    framed := framed + [escape];
    framed := framed + [Not(escape)];
  }

  /** The state of the cutter, and the packets it has handed over. */
  datatype Cutter = Cutter(mayCut: bool, packet: seq<byte>, cut: seq<seq<byte>>)

  function FeedByte(c: Cutter, escape: byte, b: byte): Cutter {
    if c.mayCut then
      if b == escape then c.(mayCut := false, packet := c.packet + [escape])
      else Cutter(false, [], c.cut + [c.packet])
    else if b == escape then c.(mayCut := true)
    else c.(packet := c.packet + [b])
  }

  function Feed(c: Cutter, escape: byte, bytes: seq<byte>): Cutter {
    if bytes == [] then c
    else FeedByte(Feed(c, escape, bytes[..|bytes| - 1]), escape, bytes[|bytes| - 1])
  }

  class FramedPacketCutter {
    const escape: byte
    var mayCut: bool
    var packet: seq<byte>

    constructor (escape: byte)
      ensures this.escape == escape && State() == Cutter(false, [], [])
    {
      this.escape, mayCut, packet := escape, false, [];
    }

    function State(): Cutter
      reads this
    {
      Cutter(mayCut, packet, [])
    }

    /** Drops the bytes of the unfinished packet; an escape byte already seen stays seen. */
    method Clear()
      modifies this`packet
      ensures State() == old(State()).(packet := [])
    {
      packet := [];
    }

    method FeedBytes(bytes: seq<byte>) returns (cut: seq<seq<byte>>)
      modifies this
      ensures Feed(old(State()), escape, bytes) == Cutter(mayCut, packet, cut)
    {
      cut := [];
      for k := 0 to |bytes|
        invariant Feed(old(State()), escape, bytes[..k]) == Cutter(mayCut, packet, cut)
      {
        assert bytes[..k + 1][..k] == bytes[..k];
        if mayCut {
          if bytes[k] == escape {
            packet := packet + [escape];
          } else {
            cut, packet := cut + [packet], [];
          }
          mayCut := false;
        } else if bytes[k] == escape {
          mayCut := true;
        } else {
          packet := packet + [bytes[k]];
        }
      }
      assert bytes[..|bytes|] == bytes;
    }
  }

  // ---- the stream may arrive in any pieces ----

  lemma {:induction false} FeedConcat(c: Cutter, escape: byte, a: seq<byte>, b: seq<byte>)
    ensures Feed(c, escape, a + b) == Feed(Feed(c, escape, a), escape, b)
  {
    if b == [] {
      assert a + b == a;
    } else {
      assert (a + b)[..|a + b| - 1] == a + b[..|b| - 1];
      FeedConcat(c, escape, a, b[..|b| - 1]);
    }
  }

  function Concat(chunks: seq<seq<byte>>): seq<byte> {
    if chunks == [] then [] else chunks[0] + Concat(chunks[1..])
  }

  function FeedChunks(c: Cutter, escape: byte, chunks: seq<seq<byte>>): Cutter
    decreases |chunks|
  {
    if chunks == [] then c else FeedChunks(Feed(c, escape, chunks[0]), escape, chunks[1..])
  }

  lemma {:induction false} ChunkingDoesNotMatter(c: Cutter, escape: byte, chunks: seq<seq<byte>>)
    ensures FeedChunks(c, escape, chunks) == Feed(c, escape, Concat(chunks))
    decreases |chunks|
  {
    if chunks != [] {
      FeedConcat(c, escape, chunks[0], Concat(chunks[1..]));
      ChunkingDoesNotMatter(Feed(c, escape, chunks[0]), escape, chunks[1..]);
    }
  }

  // ---- the cutter inverts the framing ----

  lemma {:induction false} FeedTwo(c: Cutter, escape: byte, a: byte, b: byte)
    ensures Feed(c, escape, [a, b]) == FeedByte(FeedByte(c, escape, a), escape, b)
    ensures Feed(c, escape, [a]) == FeedByte(c, escape, a)
  {
    assert [a][..0] == [] && [a, b][..1] == [a];
    assert Feed(c, escape, [a]) == FeedByte(Feed(c, escape, []), escape, a);
  }

  lemma {:induction false} FeedEscaped(c: Cutter, escape: byte, data: seq<byte>)
    requires !c.mayCut
    ensures Feed(c, escape, Escaped(data, escape)) == c.(packet := c.packet + data)
  {
    if data == [] {
      assert c.packet + data == c.packet;
    } else {
      var init, last := data[..|data| - 1], data[|data| - 1];
      FeedEscaped(c, escape, init);
      FeedConcat(c, escape, Escaped(init, escape), EscapedByte(last, escape));
      FeedTwo(c.(packet := c.packet + init), escape, escape, last);
      FeedTwo(c.(packet := c.packet + init), escape, last, last);
      assert c.packet + data == c.packet + init + [last];
    }
  }

  lemma {:induction false} FeedFrame(c: Cutter, escape: byte, data: seq<byte>)
    requires !c.mayCut
    ensures Feed(c, escape, Frame(data, escape)) == Cutter(false, [], c.cut + [c.packet + data])
  {
    FeedEscaped(c, escape, data);
    FeedConcat(c, escape, Escaped(data, escape), Terminator(escape));
    FeedTwo(c.(packet := c.packet + data), escape, escape, Not(escape));
  }

  lemma {:induction false} FeedFrames(c: Cutter, escape: byte, packets: seq<seq<byte>>)
    requires !c.mayCut && c.packet == []
    ensures Feed(c, escape, FrameAll(packets, escape)) == c.(cut := c.cut + packets)
  {
    if packets == [] {
      assert c.cut + packets == c.cut;
    } else {
      var init, last := packets[..|packets| - 1], packets[|packets| - 1];
      FeedFrames(c, escape, init);
      FeedConcat(c, escape, FrameAll(init, escape), Frame(last, escape));
      FeedFrame(c.(cut := c.cut + init), escape, last);
      assert [] + last == last;
      assert c.cut + packets == c.cut + init + [last];
    }
  }

  /** However the framed packets are chopped up, the cutter hands over exactly them. */
  lemma {:induction false} CutterRecoversPackets(escape: byte, packets: seq<seq<byte>>, chunks: seq<seq<byte>>)
    requires Concat(chunks) == FrameAll(packets, escape)
    ensures FeedChunks(Cutter(false, [], []), escape, chunks) == Cutter(false, [], packets)
  {
    ChunkingDoesNotMatter(Cutter(false, [], []), escape, chunks);
    FeedFrames(Cutter(false, [], []), escape, packets);
    assert [] + packets == packets;
  }

  // ---- it finds the frame borders again from any state ----

  /** A byte other than the escape always leaves the cutter outside of an escape sequence. */
  lemma {:induction false} FrameLeavesNoEscape(c: Cutter, escape: byte, data: seq<byte>)
    ensures !Feed(c, escape, Frame(data, escape)).mayCut
  {
    var f := Frame(data, escape);
    assert f[|f| - 1] == Not(escape);
  }

  /** Whatever the state, two whole frames later the cutter is exact. */
  lemma {:induction false} ExactAfterTwoFrames(
      c: Cutter, escape: byte, first: seq<byte>, second: seq<byte>, packets: seq<seq<byte>>)
    ensures
      var stream := Frame(first, escape) + Frame(second, escape);
      var synced := Feed(c, escape, stream);
      && !synced.mayCut && synced.packet == []
      && Feed(c, escape, stream + FrameAll(packets, escape)) == synced.(cut := synced.cut + packets)
  {
    var stream := Frame(first, escape) + Frame(second, escape);
    FrameLeavesNoEscape(c, escape, first);
    FeedConcat(c, escape, Frame(first, escape), Frame(second, escape));
    FeedFrame(Feed(c, escape, Frame(first, escape)), escape, second);
    FeedConcat(c, escape, stream, FrameAll(packets, escape));
    FeedFrames(Feed(c, escape, stream), escape, packets);
  }

  predicate OnlyEscapes(data: seq<byte>, escape: byte) {
    forall k :: 0 <= k < |data| ==> data[k] == escape
  }

  lemma {:induction false} OutOfStep(c: Cutter, escape: byte, data: seq<byte>)
    requires c.mayCut
    ensures Feed(c, escape, Escaped(data, escape)).mayCut == OnlyEscapes(data, escape)
  {
    if data != [] {
      var init, last := data[..|data| - 1], data[|data| - 1];
      OutOfStep(c, escape, init);
      var mid := Feed(c, escape, Escaped(init, escape));
      FeedConcat(c, escape, Escaped(init, escape), EscapedByte(last, escape));
      FeedTwo(mid, escape, escape, last);
      FeedTwo(mid, escape, last, last);
      assert data == init + [last];
    }
  }

  /** One frame is enough unless an escape was pending and the packet has nothing but escapes. */
  lemma {:induction false} OneFrameResyncs(c: Cutter, escape: byte, data: seq<byte>)
    ensures
      var after := Feed(c, escape, Frame(data, escape));
      after.packet == [] <==> !(c.mayCut && OnlyEscapes(data, escape))
  {
    var mid := Feed(c, escape, Escaped(data, escape));
    FeedConcat(c, escape, Escaped(data, escape), Terminator(escape));
    FeedTwo(mid, escape, escape, Not(escape));
    if c.mayCut {
      OutOfStep(c, escape, data);
    } else {
      FeedEscaped(c, escape, data);
    }
  }
}
