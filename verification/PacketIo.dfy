/** The packet assembler and the packet reader, and what they make of typed values. */
module PacketIo {
  import opened Bytes
  import opened Varint
  import opened VarintPack
  import opened RpcValues
  import opened Crc8

  class PacketAssembler {
    var buffer: seq<byte>

    constructor ()
      ensures buffer == []
    {
      buffer := [];
    }

    method WriteU8(x: byte)
      modifies this
      ensures buffer == old(buffer) + [x]
    {
      buffer := buffer + [x];
    }

    method WriteU16(x: word)
      modifies this
      ensures buffer == old(buffer) + TwoBytes(x)
    {
      buffer := buffer + [x / 0x100, x % 0x100];
    }

    method WriteBlob(data: seq<byte>)
      modifies this
      ensures buffer == old(buffer) + data
    {
      buffer := buffer + data;
    }

    /** Makes room for the packed value at the end of the buffer and packs into it. */
    method WritePackedValue(signed: bool, value: int) returns (r: Result<(), PackError>)
      modifies this
      ensures r == if !signed && value < 0 then Err(NegativeUnsignedValue) else Ok(())
      ensures buffer == if r.Ok? then old(buffer) + Packed(signed, value) else old(buffer)
    {
      var packed := PackValue(signed, value);
      if packed.Err? {
        return Err(packed.error);
      }
      var start, required := |buffer|, |packed.value|;
      var before := buffer;
      var room := new byte[start + required](i => if 0 <= i < start then before[i] else 0);
      assert room[..start] == buffer;
      var _ := PackValueInto(signed, value, room, start);
      buffer := room[..];
      r := Ok(());
    }

    /** The characters, and a zero behind them. */
    method WriteString(s: seq<byte>)
      modifies this
      ensures buffer == old(buffer) + EncodeValue(VString(s))
    {
      WriteBlob(s);
      WriteU8(0);
      assert buffer == old(buffer) + (s + [0]);
    }

    method AppendValue(v: RpcValue) returns (r: Result<(), PackError>)
      modifies this
      ensures r == Ok(()) && buffer == old(buffer) + EncodeValue(v)
      decreases v, 0
    {
      r := Ok(());
      match v {
        case VBool(b) => WriteU8(if b then 1 else 0);
        case VS8(x) => WriteU8(if x < 0 then x + 0x100 else x);
        case VU8(x) => WriteU8(x);
        case VUInt8(x) => WriteU8(x);
        case VU16(x) => WriteU16(x);
        case VUInt16(x) => WriteU16(x);
        case VS16(x) => WriteU16(if x < 0 then x + 0x1_0000 else x);
        case VBytes(b) => WriteBlob(b);
        case VString(s) => WriteString(s);
        case VSigned(x) => r := WritePackedValue(true, x);
        case VUnsigned(x) => r := WritePackedValue(true, x);
        case VEnum(k) => r := WritePackedValue(false, k);
        case VStruct(vs) => r := AppendElements(vs);
        case VArray(vs) => r := AppendElements(vs);
      }
    }

    method AppendElements(vs: seq<RpcValue>) returns (r: Result<(), PackError>)
      modifies this
      ensures r == Ok(()) && buffer == old(buffer) + EncodeAll(vs)
      decreases vs, 1
    {
      for k := 0 to |vs|
        invariant buffer + EncodeAll(vs[k..]) == old(buffer) + EncodeAll(vs)
      {
        r := AppendValue(vs[k]);
        assert vs[k..][1..] == vs[k + 1..];
      }
      r := Ok(());
    }

    method AppendCrc8()
      modifies this
      ensures buffer == old(buffer) + [CrcOf(old(buffer))]
    {
      var checksum := Crc8Prefix(buffer, |buffer|);
      assert buffer[..|buffer|] == buffer;
      WriteU8(checksum);
    }
  }

  class PacketReader {
    const data: seq<byte>
    var ep: nat

    constructor (data: seq<byte>)
      ensures this.data == data && ep == 0
    {
      this.data, ep := data, 0;
    }

    method ReadUByte() returns (r: Result<byte, ReadError>)
      modifies this
      ensures r.Ok? <==> ReadByte(data, old(ep)).Ok?
      ensures if r.Ok? then ReadByte(data, old(ep)) == Ok((r.value, ep)) else r == Err(Incomplete) && ep == old(ep)
    {
      if ep >= |data| {
        return Err(Incomplete);
      }
      r := Ok(data[ep]);
      ep := ep + 1;
    }

    method ReadU16() returns (r: Result<word, ReadError>)
      modifies this
      ensures r.Ok? <==> ReadWord(data, old(ep)).Ok?
      ensures if r.Ok? then ReadWord(data, old(ep)) == Ok((r.value, ep)) else r == Err(Incomplete) && ep == old(ep)
    {
      if ep + 2 > |data| {
        return Err(Incomplete);
      }
      var high: int, low: int := data[ep], data[ep + 1];
      r := Ok(high * 0x100 + low);
      ep := ep + 2;
    }

    method ReadVarint(signed: bool) returns (r: Result<int, ReadError>)
      modifies this
      ensures r.Ok? <==> ReadInt(signed, data, old(ep)).Ok?
      ensures if r.Ok? then ReadInt(signed, data, old(ep)) == Ok((r.value, ep)) else r == Err(Incomplete) && ep == old(ep)
    {
      var unpacked := UnpackValue(signed, data, ep);
      if unpacked.Err? {
        return Err(Incomplete);
      }
      r := Ok(unpacked.value.0);
      ep := ep + unpacked.value.1;
    }

    method ReadString() returns (r: Result<seq<byte>, ReadError>)
      requires ep <= |data|
      modifies this
      ensures r.Err? ==> r.error == Incomplete
      ensures
        match FindZero(data, old(ep))
        case None => r.Err?
        case Some(end) =>
          if ValidUtf8(data[old(ep)..end]) then r == Ok(data[old(ep)..end]) && ep == end + 1 else r.Err?
    {
      var end := ep;
      while end < |data| && data[end] != 0
        invariant ep <= end <= |data| && FindZero(data, ep) == FindZero(data, end)
      {
        end := end + 1;
      }
      if end == |data| || !ValidUtf8(data[ep..end]) {
        return Err(Incomplete);
      }
      r := Ok(data[ep..end]);
      ep := end + 1;
    }

    /** `read_type`, whenever its array loops end. */
    method ReadType(ty: RpcType) returns (r: Result<RpcValue, ReadError>)
      requires ep <= |data| && Read(data, ep, ty) != Err(Endless)
      modifies this
      ensures r.Ok? ==> Read(data, old(ep), ty) == Ok((r.value, ep)) && ep <= |data|
      ensures r.Err? ==> Read(data, old(ep), ty) == Err(r.error)
      decreases ty, 0
    {
      match ty {
        case TBool =>
          var b := ReadUByte();
          r := if b.Ok? then Ok(VBool(AsI8(b.value) != 0)) else Err(b.error);
        case TS8 =>
          var b := ReadUByte();
          r := if b.Ok? then Ok(VS8(AsI8(b.value))) else Err(b.error);
        case TU8 =>
          var b := ReadUByte();
          r := if b.Ok? then Ok(VU8(b.value)) else Err(b.error);
        case TUInt8 =>
          var b := ReadUByte();
          r := if b.Ok? then Ok(VUInt8(b.value)) else Err(b.error);
        case TU16 =>
          var x := ReadU16();
          r := if x.Ok? then Ok(VU16(x.value)) else Err(x.error);
        case TUInt16 =>
          var x := ReadU16();
          r := if x.Ok? then Ok(VUInt16(x.value)) else Err(x.error);
        case TS16 =>
          var x := ReadU16();
          r := if x.Ok? then Ok(VS16(AsI16(x.value))) else Err(x.error);
        case TBytes =>
          r := Ok(VBytes(data[ep..]));
          ep := |data|;
        case TString =>
          var s := ReadString();
          r := if s.Ok? then Ok(VString(s.value)) else Err(s.error);
        case TSigned =>
          var x := ReadVarint(true);
          r := if x.Ok? then Ok(VSigned(x.value)) else Err(x.error);
        case TUnsigned =>
          var x := ReadVarint(false);
          r := if x.Ok? then Ok(VUnsigned(x.value)) else Err(x.error);
        case TEnum(labels) => r := ReadEnum(labels);
        case TStruct(types) =>
          var vs := ReadStruct(types);
          r := if vs.Ok? then Ok(VStruct(vs.value)) else Err(vs.error);
        case TArray(item) =>
          var vs := ReadItems(item);
          r := if vs.Ok? then Ok(VArray(vs.value)) else Err(vs.error);
      }
    }

    method ReadEnum(labels: seq<string>) returns (r: Result<RpcValue, ReadError>)
      modifies this
      requires ep <= |data|
      ensures r.Ok? ==> Read(data, old(ep), TEnum(labels)) == Ok((r.value, ep)) && ep <= |data|
      ensures r.Err? ==> Read(data, old(ep), TEnum(labels)) == Err(r.error)
    {
      var x := ReadVarint(false);
      if x.Err? {
        return Err(x.error);
      }
      if x.value < 0 || x.value >= 0x1_0000_0000_0000_0000 {
        return Err(Incomplete);
      }
      if x.value >= |labels| {
        return Err(EnumIndexOutOfRange(x.value, |labels|));
      }
      r := Ok(VEnum(x.value));
    }

    method ReadStruct(types: seq<RpcType>) returns (r: Result<seq<RpcValue>, ReadError>)
      requires ep <= |data| && ReadAll(data, ep, types) != Err(Endless)
      modifies this
      ensures r.Ok? ==> ReadAll(data, old(ep), types) == Ok((r.value, ep)) && ep <= |data|
      ensures r.Err? ==> ReadAll(data, old(ep), types) == Err(r.error)
      decreases types, 1
    {
      var values: seq<RpcValue> := [];
      PrependedNone(ReadAll(data, ep, types));
      assert types[0..] == types;
      for k := 0 to |types|
        invariant ep <= |data|
        invariant ReadAll(data, old(ep), types) == Prepended(values, ReadAll(data, ep, types[k..]))
      {
        assert types[k..][1..] == types[k + 1..];
        ghost var at := ep;
        var v := ReadType(types[k]);
        if v.Err? {
          return Err(v.error);
        }
        PrependedOnce(values, v.value, ReadAll(data, ep, types[k + 1..]));
        values := values + [v.value];
      }
      assert types[|types|..] == [] && values + [] == values;
      r := Ok(values);
    }

    /** The array loop: every round advances, so it ends. */
    method ReadItems(item: RpcType) returns (r: Result<seq<RpcValue>, ReadError>)
      requires ep <= |data| && ReadArray(data, ep, item) != Err(Endless)
      modifies this
      ensures r.Ok? ==> ReadArray(data, old(ep), item) == Ok((r.value, ep)) && ep <= |data|
      ensures r.Err? ==> ReadArray(data, old(ep), item) == Err(r.error)
      decreases item, 1
    {
      var values: seq<RpcValue> := [];
      PrependedNone(ReadArray(data, ep, item));
      while ep < |data|
        invariant ep <= |data|
        invariant ReadArray(data, old(ep), item) == Prepended(values, ReadArray(data, ep, item))
        decreases |data| - ep
      {
        ghost var at := ep;
        var v := ReadType(item);
        if v.Err? {
          return Err(v.error);
        }
        PrependedOnce(values, v.value, ReadArray(data, ep, item));
        values := values + [v.value];
      }
      assert values + [] == values;
      r := Ok(values);
    }
  }

  function Prepended(values: seq<RpcValue>, r: Result<(seq<RpcValue>, nat), ReadError>): Result<(seq<RpcValue>, nat), ReadError> {
    match r case Err(e) => Err(e) case Ok((vs, end)) => Ok((values + vs, end))
  }

  lemma {:induction false} PrependedNone(r: Result<(seq<RpcValue>, nat), ReadError>)
    ensures Prepended([], r) == r
  {
    if r.Ok? {
      assert [] + r.value.0 == r.value.0;
    }
  }

  lemma {:induction false} PrependedOnce(values: seq<RpcValue>, v: RpcValue, r: Result<(seq<RpcValue>, nat), ReadError>)
    ensures Prepended(values, Prepended([v], r)) == Prepended(values + [v], r)
  {
    if r.Ok? {
      assert values + ([v] + r.value.0) == values + [v] + r.value.0;
    }
  }
}
