/**
 The frame decoders of the firmware, which have a buffer of `max` bytes: the one in the
 gateway and the one in the bootloader for a direct serial line.
 */
module FirmwareDecoder {
  import opened Arithmetic
  import opened Bytes
  import opened Framing

  /** Decoder of the gateway; `cut` are the packets given to `queue_enqueue_content`. */
  datatype Decoder = Decoder(mayCut: bool, buffer: seq<byte>, cut: seq<seq<byte>>)

  function DecodeByte(d: Decoder, max: nat, escape: byte, b: byte): Decoder {
    var buffer := if |d.buffer| >= max then [] else d.buffer;
    if d.mayCut then
      if b == Not(escape) then Decoder(false, [], d.cut + [buffer])
      else Decoder(false, buffer + [b], d.cut)
    else if b == escape then Decoder(true, buffer, d.cut)
    else Decoder(false, buffer + [b], d.cut)
  }

  function Decode(d: Decoder, max: nat, escape: byte, bytes: seq<byte>): Decoder {
    if bytes == [] then d
    else DecodeByte(Decode(d, max, escape, bytes[..|bytes| - 1]), max, escape, bytes[|bytes| - 1])
  }

  lemma {:induction false} DecodeConcat(d: Decoder, max: nat, escape: byte, a: seq<byte>, b: seq<byte>)
    ensures Decode(d, max, escape, a + b) == Decode(Decode(d, max, escape, a), max, escape, b)
  {
    if b == [] {
      assert a + b == a;
    } else {
      assert (a + b)[..|a + b| - 1] == a + b[..|b| - 1];
      DecodeConcat(d, max, escape, a, b[..|b| - 1]);
    }
  }

  lemma {:induction false} DecodeTwo(d: Decoder, max: nat, escape: byte, a: byte, b: byte)
    ensures Decode(d, max, escape, [a, b]) == DecodeByte(DecodeByte(d, max, escape, a), max, escape, b)
    ensures Decode(d, max, escape, [a]) == DecodeByte(d, max, escape, a)
  {
    assert [a][..0] == [] && [a, b][..1] == [a];
    assert Decode(d, max, escape, [a]) == DecodeByte(Decode(d, max, escape, []), max, escape, a);
  }

  /** What is in the buffer after the bytes of a packet. */
  function Buffered(data: seq<byte>, max: nat): seq<byte> {
    if data == [] then []
    else
      var buffer := Buffered(data[..|data| - 1], max);
      (if |buffer| >= max then [] else buffer) + [data[|data| - 1]]
  }

  /** What is left of a packet when its end is seen: all but a leading multiple of `max` bytes. */
  function Remainder(data: seq<byte>, max: nat): seq<byte>
    requires 0 < max
  {
    data[|data| - Rem(|data|, max)..]
  }

  /** How many bytes are in the buffer after `n` bytes. */
  function Fill(n: nat, max: nat): nat {
    if n == 0 then 0 else if Fill(n - 1, max) >= max then 1 else Fill(n - 1, max) + 1
  }

  lemma {:induction false} FillIsRemainder(n: nat, max: nat)
    requires 0 < max
    ensures Fill(n, max) <= max && Rem(n, max) == if Fill(n, max) == max then 0 else Fill(n, max)
  {
    if n > 0 {
      FillIsRemainder(n - 1, max);
      NextRem(n - 1, max);
    }
  }

  lemma {:induction false} BufferedIsTail(data: seq<byte>, max: nat)
    ensures Fill(|data|, max) <= |data|
    ensures Buffered(data, max) == data[|data| - Fill(|data|, max)..]
  {
    if data != [] {
      var init, f := data[..|data| - 1], Fill(|data|, max);
      BufferedIsTail(init, max);
      assert data[|data| - f..] == init[|init| - (f - 1)..] + [data[|data| - 1]];
      assert |Buffered(init, max)| == Fill(|init|, max);
    }
  }

  /** A full buffer counts as an empty one: it is dropped at the next byte. */
  lemma {:induction false} BufferedIsRemainder(data: seq<byte>, max: nat)
    requires 0 < max
    ensures |Buffered(data, max)| <= max
    ensures Remainder(data, max) == if |Buffered(data, max)| == max then [] else Buffered(data, max)
  {
    FillIsRemainder(|data|, max);
    BufferedIsTail(data, max);
  }

  lemma {:induction false} DecodeEscaped(max: nat, escape: byte, cut: seq<seq<byte>>, data: seq<byte>)
    requires 0 < max
    ensures Decode(Decoder(false, [], cut), max, escape, Escaped(data, escape)) == Decoder(false, Buffered(data, max), cut)
  {
    if data != [] {
      var init, last := data[..|data| - 1], data[|data| - 1];
      var mid := Decoder(false, Buffered(init, max), cut);
      DecodeEscaped(max, escape, cut, init);
      DecodeConcat(Decoder(false, [], cut), max, escape, Escaped(init, escape), EscapedByte(last, escape));
      DecodeTwo(mid, max, escape, escape, last);
      DecodeTwo(mid, max, escape, last, last);
    }
  }

  lemma {:induction false} DecodeFrame(max: nat, escape: byte, cut: seq<seq<byte>>, data: seq<byte>)
    requires 0 < max
    ensures Decode(Decoder(false, [], cut), max, escape, Frame(data, escape))
         == Decoder(false, [], cut + [Remainder(data, max)])
  {
    var mid := Decoder(false, Buffered(data, max), cut);
    DecodeEscaped(max, escape, cut, data);
    DecodeConcat(Decoder(false, [], cut), max, escape, Escaped(data, escape), Terminator(escape));
    DecodeTwo(mid, max, escape, escape, Not(escape));
    BufferedIsRemainder(data, max);
  }

  predicate AllShorter(packets: seq<seq<byte>>, max: nat) {
    forall k :: 0 <= k < |packets| ==> |packets[k]| < max
  }

  function Remainders(packets: seq<seq<byte>>, max: nat): seq<seq<byte>>
    requires 0 < max
  {
    seq(|packets|, k requires 0 <= k < |packets| => Remainder(packets[k], max))
  }

  lemma {:induction false} DecodeFrames(max: nat, escape: byte, cut: seq<seq<byte>>, packets: seq<seq<byte>>)
    requires 0 < max
    ensures Decode(Decoder(false, [], cut), max, escape, FrameAll(packets, escape))
         == Decoder(false, [], cut + Remainders(packets, max))
  {
    if packets == [] {
      assert cut + Remainders(packets, max) == cut;
    } else {
      var init, last := packets[..|packets| - 1], packets[|packets| - 1];
      DecodeFrames(max, escape, cut, init);
      DecodeConcat(Decoder(false, [], cut), max, escape, FrameAll(init, escape), Frame(last, escape));
      DecodeFrame(max, escape, cut + Remainders(init, max), last);
      assert Remainders(packets, max) == Remainders(init, max) + [Remainder(last, max)];
      assert cut + Remainders(packets, max) == cut + Remainders(init, max) + [Remainder(last, max)];
    }
  }

  lemma {:induction false} RemainderIsAllIff(packet: seq<byte>, max: nat)
    requires 0 < max
    ensures Remainder(packet, max) == packet <==> |packet| < max
  {
    if |packet| < max {
      assert Rem(|packet|, max) == |packet|;
    } else {
      assert |Remainder(packet, max)| == Rem(|packet|, max) < |packet|;
    }
  }

  lemma {:induction false} RemaindersAreAllIff(packets: seq<seq<byte>>, max: nat)
    requires 0 < max
    ensures Remainders(packets, max) == packets <==> AllShorter(packets, max)
  {
    var rest := Remainders(packets, max);
    forall k | 0 <= k < |packets| ensures rest[k] == packets[k] <==> |packets[k]| < max {
      RemainderIsAllIff(packets[k], max);
    }
  }


  /** The gateway cuts a stream of frames as the PC does, exactly when no packet fills the buffer. */
  lemma {:induction false} DecoderAgreesWithCutter(max: nat, escape: byte, packets: seq<seq<byte>>)
    requires 0 < max
    ensures
      var stream := FrameAll(packets, escape);
      Decode(Decoder(false, [], []), max, escape, stream).cut == Feed(Cutter(false, [], []), escape, stream).cut
      <==> AllShorter(packets, max)
  {
    DecodeFrames(max, escape, [], packets);
    FeedFrames(Cutter(false, [], []), escape, packets);
    var rest := Remainders(packets, max);
    assert [] + rest == rest && [] + packets == packets;
    RemaindersAreAllIff(packets, max);
  }

  // ---- direct serial line ----

  /** Receiver of the bootloader; a `received` packet blocks it until it is dispatched. */
  datatype Direct = Direct(received: bool, mayCut: bool, data: seq<byte>)

  function DirectByte(r: Direct, max: nat, escape: byte, b: byte): Direct {
    if r.received then r
    else
      var data := if |r.data| >= max then [] else r.data;
      if r.mayCut then
        if b == Not(escape) then Direct(true, false, data) else Direct(false, false, data + [b])
      else if b == escape then Direct(false, true, data)
      else Direct(false, false, data + [b])
  }

  function DirectFeed(r: Direct, max: nat, escape: byte, bytes: seq<byte>): Direct {
    if bytes == [] then r
    else DirectByte(DirectFeed(r, max, escape, bytes[..|bytes| - 1]), max, escape, bytes[|bytes| - 1])
  }

  /** The receiver as the first packet of the gateway's decoder, if it has one, leaves it. */
  function FirstPacket(d: Decoder): Direct {
    if d.cut == [] then Direct(false, d.mayCut, d.buffer) else Direct(true, false, d.cut[0])
  }

  lemma {:induction false} DirectIsFirstPacket(max: nat, escape: byte, bytes: seq<byte>)
    ensures DirectFeed(Direct(false, false, []), max, escape, bytes)
         == FirstPacket(Decode(Decoder(false, [], []), max, escape, bytes))
  {
    if bytes != [] {
      DirectIsFirstPacket(max, escape, bytes[..|bytes| - 1]);
    }
  }

  /** One frame, and any bytes that follow it before the dispatch, leave exactly its packet. */
  lemma {:induction false} DirectReceivesFrame(max: nat, escape: byte, data: seq<byte>, more: seq<byte>)
    requires 0 < max
    ensures DirectFeed(Direct(false, false, []), max, escape, Frame(data, escape) + more)
         == Direct(true, false, Remainder(data, max))
    ensures Remainder(data, max) == data <==> |data| < max
  {
    if more == [] {
      assert Frame(data, escape) + more == Frame(data, escape);
      DirectIsFirstPacket(max, escape, Frame(data, escape));
      DecodeFrame(max, escape, [], data);
      if |data| >= max {
        assert |Remainder(data, max)| == Rem(|data|, max) < |data|;
      }
    } else {
      var init := more[..|more| - 1];
      var all := Frame(data, escape) + more;
      assert all[..|all| - 1] == Frame(data, escape) + init;
      DirectReceivesFrame(max, escape, data, init);
    }
  }
}
