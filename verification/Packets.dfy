/** Addressed packets: target, sender, payload, and the checksum behind them. */
module Packets {
  import opened Bytes
  import opened Varint
  import opened RpcValues
  import opened Crc8
  import opened PacketIo

  const I32_MIN := -0x8000_0000
  const I32_MAX := 0x7fff_ffff

  type i32 = x: int | I32_MIN <= x <= I32_MAX

  datatype Packet = Packet(raw: seq<byte>, from: i32, to: i32, payload: seq<byte>)

  /** `ParsedUartBusPacket::new`; addresses outside of 32 bits become the extreme values. */
  function Parse(data: seq<byte>): Result<Packet, UnpackError> {
    match Unpack(true, data, 0)
    case Err(e) => Err(e)
    case Ok((to, used)) =>
      UsedInBounds(data, 0);
      match Unpack(true, data, used)
      case Err(e) => Err(e)
      case Ok((from, more)) =>
        UsedInBounds(data, used);
        Ok(Packet(
          data,
          if I32_MIN <= from <= I32_MAX then from else I32_MAX,
          if I32_MIN <= to <= I32_MAX then to else I32_MIN,
          data[used + more..]))
  }

  function Addressed(to: i32, from: i32, payload: seq<byte>): seq<byte> {
    Packed(true, to) + (Packed(true, from) + payload)
  }

  /** A packet as it goes to the bus. */
  function WithCrc(data: seq<byte>): seq<byte> {
    data + [CrcOf(data)]
  }

  lemma {:induction false} ParseTwo(data: seq<byte>, to: i32, used: nat, from: i32, more: nat)
    requires Unpack(true, data, 0) == Ok((to, used)) && Unpack(true, data, used) == Ok((from, more))
    requires used + more <= |data|
    ensures Parse(data) == Ok(Packet(data, from, to, data[used + more..]))
  {
  }

  lemma {:induction false} ParseAddressed(to: i32, from: i32, payload: seq<byte>)
    ensures Parse(Addressed(to, from, payload)) == Ok(Packet(Addressed(to, from, payload), from, to, payload))
  {
    var data := Addressed(to, from, payload);
    var a, b := Packed(true, to), Packed(true, from);
    assert Unpack(true, data, 0) == Ok((to, |a|)) by {
      RoundTrip(true, to, [], b + payload);
      assert [] + a + (b + payload) == data;
    }
    assert Unpack(true, data, |a|) == Ok((from, |b|)) by {
      RoundTrip(true, from, a, payload);
      assert a + b + payload == data;
    }
    ParseTwo(data, to, |a|, from, |b|);
    assert data[|a| + |b|..] == payload;
  }

  /** A packet that is put together here is valid on the other side and parses to its parts. */
  lemma {:induction false} PacketRoundTrip(to: i32, from: i32, payload: seq<byte>)
    ensures GetValidPacket(WithCrc(Addressed(to, from, payload))) == Some(Addressed(to, from, payload))
    ensures Parse(Addressed(to, from, payload)) == Ok(Packet(Addressed(to, from, payload), from, to, payload))
  {
    AppendedCrcIsValid(Addressed(to, from, payload));
    ParseAddressed(to, from, payload);
  }

  /** `to_packet` */
  method ToPacket(to: i32, from: i32, elements: seq<RpcValue>) returns (packet: seq<byte>)
    ensures packet == WithCrc(Addressed(to, from, EncodeAll(elements)))
  {
    var assembler := new PacketAssembler();
    var _ := assembler.WritePackedValue(true, to);
    assert assembler.buffer == Packed(true, to);
    var _ := assembler.WritePackedValue(true, from);
    var _ := assembler.AppendElements(elements);
    AddressedParts(to, from, EncodeAll(elements));
    assembler.AppendCrc8();
    packet := assembler.buffer;
  }

  lemma {:induction false} AddressedParts(to: i32, from: i32, payload: seq<byte>)
    ensures Packed(true, to) + Packed(true, from) + payload == Addressed(to, from, payload)
  {
  }

  // ---- what is parsed ----

  /** Addresses that do not fit 32 bits become the greatest sender and the least target. */
  lemma {:induction false} ParseAnyAddress(to: int, from: int, payload: seq<byte>)
    ensures
      var data := Packed(true, to) + (Packed(true, from) + payload);
      && Parse(data).Ok? && Parse(data).value.payload == payload && Parse(data).value.raw == data
      && Parse(data).value.to == (if -0x8000_0000 <= to < 0x8000_0000 then to else -0x8000_0000)
      && Parse(data).value.from == (if -0x8000_0000 <= from < 0x8000_0000 then from else 0x7fff_ffff)
  {
    var a, b := Packed(true, to), Packed(true, from);
    var data := a + (b + payload);
    assert Unpack(true, data, 0) == Ok((to, |a|)) by {
      RoundTrip(true, to, [], b + payload);
      assert [] + a + (b + payload) == data;
    }
    assert Unpack(true, data, |a|) == Ok((from, |b|)) by {
      RoundTrip(true, from, a, payload);
      assert a + b + payload == data;
    }
    assert data[|a| + |b|..] == payload;
  }

  lemma {:induction false} UsedIff(data: seq<byte>, at: nat)
    ensures Used(data, at).Some? <==> exists k :: at <= k < |data| && data[k] < 0x80
    ensures Used(data, at).Some? ==>
      var last := at + Used(data, at).value - 1;
      at <= last < |data| && data[last] < 0x80 && forall k :: at <= k < last ==> data[k] >= 0x80
    decreases |data| - at
  {
    if at < |data| && data[at] >= 0x80 {
      UsedIff(data, at + 1);
    }
  }

  /** A packet is parsed exactly if two bytes end a number, one behind the other. */
  lemma {:induction false} ParsedIff(data: seq<byte>)
    ensures Parse(data).Ok? <==> exists i, j :: 0 <= i < j < |data| && data[i] < 0x80 && data[j] < 0x80
  {
    UsedIff(data, 0);
    if Used(data, 0).Some? {
      var used := Used(data, 0).value;
      UsedIff(data, used);
      if Used(data, used).Some? {
        assert data[used - 1] < 0x80 && data[used + Used(data, used).value - 1] < 0x80;
      }
      if exists i, j :: 0 <= i < j < |data| && data[i] < 0x80 && data[j] < 0x80 {
        var i, j :| 0 <= i < j < |data| && data[i] < 0x80 && data[j] < 0x80;
        assert used - 1 <= i;
      }
    }
  }
}
