/** The typed values of remote calls, as bytes. */
module RpcValues {
  import opened Bytes
  import opened Varint

  type i8 = x: int | -0x80 <= x < 0x80
  type i16 = x: int | -0x8000 <= x < 0x8000

  datatype RpcValue =
    | VBool(flag: bool)
    | VS8(s8: i8)
    | VU8(u8: byte)
    | VUInt8(uint8: byte)
    | VU16(u16: word)
    | VUInt16(uint16: word)
    | VS16(s16: i16)
    | VBytes(blob: seq<byte>)
    | VString(utf8: seq<byte>)       // the UTF-8 bytes of the string
    | VSigned(signed: int)
    | VUnsigned(unsigned: int)
    | VEnum(index: nat)
    | VStruct(fields: seq<RpcValue>)
    | VArray(items: seq<RpcValue>)

  datatype RpcType =
    | TBool | TS8 | TU8 | TUInt8 | TU16 | TUInt16 | TS16 | TBytes | TString | TSigned | TUnsigned
    | TEnum(labels: seq<string>)
    | TStruct(types: seq<RpcType>)
    | TArray(item: RpcType)

  /** `Endless` stands for the reader that never comes back. */
  datatype ReadError = Incomplete | EnumIndexOutOfRange(index: nat, len: nat) | Endless

  // ---- writing ----

  function TwoBytes(x: word): seq<byte> {
    [x / 0x100, x % 0x100]
  }

  function EncodeValue(v: RpcValue): seq<byte>
    decreases v
  {
    match v
    case VBool(b) => [if b then 1 else 0]
    case VS8(x) => [x % 0x100]
    case VU8(x) => [x]
    case VUInt8(x) => [x]
    case VU16(x) => TwoBytes(x)
    case VUInt16(x) => TwoBytes(x)
    case VS16(x) => TwoBytes(x % 0x1_0000)
    case VBytes(b) => b
    case VString(s) => s + [0]
    case VSigned(x) => Packed(true, x)
    case VUnsigned(x) => Packed(true, x)
    case VEnum(k) => Packed(false, k)
    case VStruct(vs) => EncodeAll(vs)
    case VArray(vs) => EncodeAll(vs)
  }

  function EncodeAll(vs: seq<RpcValue>): seq<byte>
    decreases vs
  {
    if vs == [] then [] else EncodeValue(vs[0]) + EncodeAll(vs[1..])
  }

  // ---- UTF-8 ----

  predicate InRange(s: seq<byte>, at: nat, low: int, high: int) {
    at < |s| && low <= s[at] <= high
  }

  /** How many bytes the well-formed character at `at` takes; 0 if there is none. */
  function CharLength(s: seq<byte>, at: nat): nat
    requires at < |s|
  {
    var b := s[at];
    if b <= 0x7f then 1
    else if 0xc2 <= b <= 0xdf then
      if InRange(s, at + 1, 0x80, 0xbf) then 2 else 0
    else if 0xe0 <= b <= 0xef then
      if InRange(s, at + 1, if b == 0xe0 then 0xa0 else 0x80, if b == 0xed then 0x9f else 0xbf) && InRange(s, at + 2, 0x80, 0xbf)
      then 3 else 0
    else if 0xf0 <= b <= 0xf4 then
      if InRange(s, at + 1, if b == 0xf0 then 0x90 else 0x80, if b == 0xf4 then 0x8f else 0xbf) &&
         InRange(s, at + 2, 0x80, 0xbf) && InRange(s, at + 3, 0x80, 0xbf)
      then 4 else 0
    else 0
  }

  predicate Utf8From(s: seq<byte>, at: nat)
    requires at <= |s|
    decreases |s| - at
  {
    at == |s| || (CharLength(s, at) != 0 && Utf8From(s, at + CharLength(s, at)))
  }

  predicate ValidUtf8(s: seq<byte>) {
    Utf8From(s, 0)
  }

  /** A Unicode scalar value. */
  predicate Scalar(c: nat) {
    c < 0xd800 || 0xe000 <= c < 0x11_0000
  }

  /** Table 3-6 of the Unicode standard: six bits in each byte after the first. */
  function EncodeScalar(c: nat): (r: seq<byte>)
    requires Scalar(c)
    ensures 1 <= |r| <= 4
  {
    if c < 0x80 then [c]
    else if c < 0x800 then [0xc0 + c / 0x40, 0x80 + c % 0x40]
    else if c < 0x1_0000 then [0xe0 + c / 0x1000, 0x80 + c / 0x40 % 0x40, 0x80 + c % 0x40]
    else [0xf0 + c / 0x4_0000, 0x80 + c / 0x1000 % 0x40, 0x80 + c / 0x40 % 0x40, 0x80 + c % 0x40]
  }

  function EncodeScalars(cs: seq<nat>): seq<byte>
    requires forall k :: 0 <= k < |cs| ==> Scalar(cs[k])
  {
    if cs == [] then [] else EncodeScalar(cs[0]) + EncodeScalars(cs[1..])
  }

  /** A byte without its marker. */
  function Bits(s: seq<byte>, at: nat, marker: nat): nat
    requires at < |s| && marker <= s[at]
  {
    s[at] - marker
  }

  /** The value of a well-formed character. */
  function DecodeScalar(s: seq<byte>, at: nat): nat
    requires at < |s| && CharLength(s, at) != 0
  {
    match CharLength(s, at)
    case 1 => s[at]
    case 2 => Bits(s, at, 0xc0) * 0x40 + Bits(s, at + 1, 0x80)
    case 3 => Bits(s, at, 0xe0) * 0x1000 + Bits(s, at + 1, 0x80) * 0x40 + Bits(s, at + 2, 0x80)
    case _ => Bits(s, at, 0xf0) * 0x4_0000 + Bits(s, at + 1, 0x80) * 0x1000 + Bits(s, at + 2, 0x80) * 0x40 + Bits(s, at + 3, 0x80)
  }

  lemma {:induction false} TwoSextets(a: nat, b: nat, c: nat)
    requires b < 0x40 && c == a * 0x40 + b
    ensures c / 0x40 == a && c % 0x40 == b
  {
  }

  lemma {:induction false} ThreeSextets(a: nat, x: nat, y: nat, c: nat)
    requires x < 0x40 && y < 0x40 && c == a * 0x1000 + x * 0x40 + y
    ensures c / 0x1000 == a && c / 0x40 % 0x40 == x && c % 0x40 == y
  {
    TwoSextets(a * 0x40 + x, y, c);
    TwoSextets(a, x, c / 0x40);
    assert c / 0x1000 == c / 0x40 / 0x40;
  }

  lemma {:induction false} FourSextets(a: nat, x: nat, y: nat, z: nat, c: nat)
    requires x < 0x40 && y < 0x40 && z < 0x40 && c == a * 0x4_0000 + x * 0x1000 + y * 0x40 + z
    ensures c / 0x4_0000 == a && c / 0x1000 % 0x40 == x && c / 0x40 % 0x40 == y && c % 0x40 == z
  {
    ThreeSextets(a * 0x40 + x, y, z, c);
    TwoSextets(a, x, c / 0x1000);
    assert c / 0x4_0000 == c / 0x1000 / 0x40;
  }

  /** A well-formed character is the encoding of its value. */
  lemma {:induction false} CharIsScalar(s: seq<byte>, at: nat)
    requires at < |s| && CharLength(s, at) != 0
    ensures at + CharLength(s, at) <= |s| && Scalar(DecodeScalar(s, at))
    ensures s[at..at + CharLength(s, at)] == EncodeScalar(DecodeScalar(s, at))
  {
    match CharLength(s, at)
    case 1 =>
    case 2 => TwoByteChar(s, at, DecodeScalar(s, at));
    case 3 => ThreeByteChar(s, at, DecodeScalar(s, at));
    case _ => FourByteChar(s, at, DecodeScalar(s, at));
  }

  lemma {:induction false} TwoByteChar(s: seq<byte>, at: nat, c: nat)
    requires at < |s| && CharLength(s, at) == 2 && c == DecodeScalar(s, at)
    ensures Scalar(c) && s[at..at + 2] == EncodeScalar(c)
  {
    TwoSextets(Bits(s, at, 0xc0), Bits(s, at + 1, 0x80), c);
  }

  lemma {:induction false} ThreeByteChar(s: seq<byte>, at: nat, c: nat)
    requires at < |s| && CharLength(s, at) == 3 && c == DecodeScalar(s, at)
    ensures Scalar(c) && s[at..at + 3] == EncodeScalar(c)
  {
    ThreeSextets(Bits(s, at, 0xe0), Bits(s, at + 1, 0x80), Bits(s, at + 2, 0x80), c);
  }

  lemma {:induction false} FourByteChar(s: seq<byte>, at: nat, c: nat)
    requires at < |s| && CharLength(s, at) == 4 && c == DecodeScalar(s, at)
    ensures Scalar(c) && s[at..at + 4] == EncodeScalar(c)
  {
    FourSextets(Bits(s, at, 0xf0), Bits(s, at + 1, 0x80), Bits(s, at + 2, 0x80), Bits(s, at + 3, 0x80), c);
  }

  /** The encoding of a scalar value is a well-formed character. */
  lemma {:induction false} ScalarIsChar(c: nat, s: seq<byte>, at: nat)
    requires Scalar(c) && at + |EncodeScalar(c)| <= |s| && s[at..at + |EncodeScalar(c)|] == EncodeScalar(c)
    ensures CharLength(s, at) == |EncodeScalar(c)|
  {
    var part := EncodeScalar(c);
    assert forall k :: 0 <= k < |part| ==> s[at + k] == part[k];
  }

  lemma {:induction false} Utf8Decodes(s: seq<byte>, at: nat) returns (cs: seq<nat>)
    requires at <= |s| && Utf8From(s, at)
    ensures (forall k :: 0 <= k < |cs| ==> Scalar(cs[k])) && s[at..] == EncodeScalars(cs)
    decreases |s| - at
  {
    cs := [];
    if at < |s| {
      var n := CharLength(s, at);
      CharIsScalar(s, at);
      var rest := Utf8Decodes(s, at + n);
      cs := [DecodeScalar(s, at)] + rest;
      assert cs[1..] == rest && s[at..] == s[at..at + n] + s[at + n..];
    }
  }

  lemma {:induction false} SplitAt(s: seq<byte>, at: nat, part: seq<byte>, rest: seq<byte>)
    requires at <= |s| && s[at..] == part + rest
    ensures at + |part| <= |s| && s[at..at + |part|] == part && s[at + |part|..] == rest
  {
    var tail := s[at..];
    assert tail[..|part|] == part && tail[|part|..] == rest;
  }

  lemma {:induction false} Utf8Encodes(cs: seq<nat>, s: seq<byte>, at: nat)
    requires (forall k :: 0 <= k < |cs| ==> Scalar(cs[k])) && at <= |s| && s[at..] == EncodeScalars(cs)
    ensures Utf8From(s, at)
    decreases |cs|
  {
    if cs != [] {
      var part := EncodeScalar(cs[0]);
      SplitAt(s, at, part, EncodeScalars(cs[1..]));
      ScalarIsChar(cs[0], s, at);
      Utf8Encodes(cs[1..], s, at + |part|);
    }
  }

  /** Text is accepted exactly if it is the UTF-8 encoding of some scalar values. */
  lemma {:induction false} ValidUtf8Iff(s: seq<byte>)
    ensures ValidUtf8(s) <==> exists cs: seq<nat> :: (forall k :: 0 <= k < |cs| ==> Scalar(cs[k])) && s == EncodeScalars(cs)
  {
    assert s[0..] == s;
    if ValidUtf8(s) {
      var cs := Utf8Decodes(s, 0);
    }
    if cs: seq<nat> :| (forall k :: 0 <= k < |cs| ==> Scalar(cs[k])) && s == EncodeScalars(cs) {
      Utf8Encodes(cs, s, 0);
    }
  }

  // ---- reading ----

  function FindZero(data: seq<byte>, at: nat): Option<nat>
    requires at <= |data|
    ensures FindZero(data, at).Some? ==> at <= FindZero(data, at).value < |data|
    decreases |data| - at
  {
    if at == |data| then None else if data[at] == 0 then Some(at) else FindZero(data, at + 1)
  }

  function ReadByte(data: seq<byte>, ep: nat): Result<(byte, nat), ReadError> {
    if ep < |data| then Ok((data[ep], ep + 1)) else Err(Incomplete)
  }

  function ReadWord(data: seq<byte>, ep: nat): Result<(word, nat), ReadError> {
    if ep + 2 <= |data| then
      var high: int, low: int := data[ep], data[ep + 1];
      Ok((high * 0x100 + low, ep + 2))
    else Err(Incomplete)
  }

  function ReadInt(signed: bool, data: seq<byte>, ep: nat): (r: Result<(int, nat), ReadError>)
    ensures r.Ok? ==> ep < r.value.1 <= |data|
  {
    match Unpack(signed, data, ep)
    case Err(_) => Err(Incomplete)
    case Ok((x, used)) =>
      UsedInBounds(data, ep);
      Ok((x, ep + used))
  }

  function ReadText(data: seq<byte>, ep: nat): (r: Result<(seq<byte>, nat), ReadError>)
    requires ep <= |data|
    ensures r.Ok? ==> ep < r.value.1 <= |data|
  {
    match FindZero(data, ep)
    case None => Err(Incomplete)
    case Some(end) => if ValidUtf8(data[ep..end]) then Ok((data[ep..end], end + 1)) else Err(Incomplete)
  }

  function AsI8(b: byte): i8 {
    if b < 0x80 then b else b - 0x100
  }

  function AsI16(x: word): i16 {
    if x < 0x8000 then x else x - 0x1_0000
  }

  function Read(data: seq<byte>, ep: nat, ty: RpcType): (r: Result<(RpcValue, nat), ReadError>)
    requires ep <= |data|
    ensures r.Ok? ==> ep <= r.value.1 <= |data|
    decreases ty, 0, 0
  {
    match ty
    case TBool => (match ReadByte(data, ep) case Err(e) => Err(e) case Ok((b, n)) => Ok((VBool(AsI8(b) != 0), n)))
    case TS8 => (match ReadByte(data, ep) case Err(e) => Err(e) case Ok((b, n)) => Ok((VS8(AsI8(b)), n)))
    case TU8 => (match ReadByte(data, ep) case Err(e) => Err(e) case Ok((b, n)) => Ok((VU8(b), n)))
    case TUInt8 => (match ReadByte(data, ep) case Err(e) => Err(e) case Ok((b, n)) => Ok((VUInt8(b), n)))
    case TU16 => (match ReadWord(data, ep) case Err(e) => Err(e) case Ok((x, n)) => Ok((VU16(x), n)))
    case TUInt16 => (match ReadWord(data, ep) case Err(e) => Err(e) case Ok((x, n)) => Ok((VUInt16(x), n)))
    case TS16 => (match ReadWord(data, ep) case Err(e) => Err(e) case Ok((x, n)) => Ok((VS16(AsI16(x)), n)))
    case TBytes => Ok((VBytes(data[ep..]), |data|))
    case TString => (match ReadText(data, ep) case Err(e) => Err(e) case Ok((s, n)) => Ok((VString(s), n)))
    case TSigned => (match ReadInt(true, data, ep) case Err(e) => Err(e) case Ok((x, n)) => Ok((VSigned(x), n)))
    case TUnsigned => (match ReadInt(false, data, ep) case Err(e) => Err(e) case Ok((x, n)) => Ok((VUnsigned(x), n)))
    case TEnum(labels) => (
      match ReadInt(false, data, ep)
      case Err(e) => Err(e)
      case Ok((x, n)) =>
        if x < 0 || x >= 0x1_0000_0000_0000_0000 then Err(Incomplete)
        else if x >= |labels| then Err(EnumIndexOutOfRange(x, |labels|))
        else Ok((VEnum(x), n)))
    case TStruct(types) => (match ReadAll(data, ep, types) case Err(e) => Err(e) case Ok((vs, n)) => Ok((VStruct(vs), n)))
    case TArray(item) => (match ReadArray(data, ep, item) case Err(e) => Err(e) case Ok((vs, n)) => Ok((VArray(vs), n)))
  }

  function ReadAll(data: seq<byte>, ep: nat, types: seq<RpcType>): (r: Result<(seq<RpcValue>, nat), ReadError>)
    requires ep <= |data|
    ensures r.Ok? ==> ep <= r.value.1 <= |data|
    decreases types, 1, 0
  {
    if types == [] then Ok(([], ep))
    else match Read(data, ep, types[0])
      case Err(e) => Err(e)
      case Ok((v, n)) => match ReadAll(data, n, types[1..]) case Err(e) => Err(e) case Ok((vs, end)) => Ok(([v] + vs, end))
  }

  /** The items up to the end of the data; an item that takes no byte would be read for ever. */
  function ReadArray(data: seq<byte>, ep: nat, item: RpcType): (r: Result<(seq<RpcValue>, nat), ReadError>)
    requires ep <= |data|
    ensures r.Ok? ==> ep <= r.value.1 <= |data|
    decreases item, 1, |data| - ep
  {
    if ep == |data| then Ok(([], ep))
    else match Read(data, ep, item)
      case Err(e) => Err(e)
      case Ok((v, n)) =>
        if n == ep then Err(Endless)
        else match ReadArray(data, n, item) case Err(e) => Err(e) case Ok((vs, end)) => Ok(([v] + vs, end))
  }

  // ---- which values come back ----

  /** A type whose value reaches to the end of the data. */
  predicate ToTheEnd(ty: RpcType) {
    match ty
    case TBytes => true
    case TArray(_) => true
    case TStruct(types) => LastToTheEnd(types)
    case _ => false
  }

  predicate LastToTheEnd(types: seq<RpcType>) {
    types != [] && if |types| == 1 then ToTheEnd(types[0]) else LastToTheEnd(types[1..])
  }

  /** A type whose every value takes at least one byte. */
  predicate TakesBytes(ty: RpcType) {
    match ty
    case TBytes => false
    case TArray(_) => false
    case TStruct(types) => SomeTakesBytes(types)
    case _ => true
  }

  predicate SomeTakesBytes(types: seq<RpcType>) {
    types != [] && (TakesBytes(types[0]) || SomeTakesBytes(types[1..]))
  }

  /** Blobs and arrays only at the end, and no array of items that may take no byte. */
  predicate Readable(ty: RpcType) {
    match ty
    case TStruct(types) => AllReadable(types)
    case TArray(item) => Readable(item) && !ToTheEnd(item) && TakesBytes(item)
    case _ => true
  }

  predicate AllReadable(types: seq<RpcType>) {
    types == [] || (Readable(types[0]) && (|types| == 1 || !ToTheEnd(types[0])) && AllReadable(types[1..]))
  }

  predicate HasType(v: RpcValue, ty: RpcType)
    decreases v
  {
    match (v, ty)
    case (VBool(_), TBool) => true
    case (VS8(_), TS8) => true
    case (VU8(_), TU8) => true
    case (VUInt8(_), TUInt8) => true
    case (VU16(_), TU16) => true
    case (VUInt16(_), TUInt16) => true
    case (VS16(_), TS16) => true
    case (VBytes(_), TBytes) => true
    case (VString(s), TString) => ValidUtf8(s) && 0 !in s
    case (VSigned(_), TSigned) => true
    case (VUnsigned(x), TUnsigned) => 0 <= x
    case (VEnum(k), TEnum(labels)) => k < |labels| && k < 0x1_0000_0000_0000_0000
    case (VStruct(vs), TStruct(types)) => HaveTypes(vs, types)
    case (VArray(vs), TArray(item)) => AllHaveType(vs, item)
    case _ => false
  }

  predicate HaveTypes(vs: seq<RpcValue>, types: seq<RpcType>)
    decreases vs
  {
    if vs == [] || types == [] then vs == [] && types == []
    else HasType(vs[0], types[0]) && HaveTypes(vs[1..], types[1..])
  }

  predicate AllHaveType(vs: seq<RpcValue>, item: RpcType)
    decreases vs
  {
    vs == [] || (HasType(vs[0], item) && AllHaveType(vs[1..], item))
  }

  /** `data` has `part` at `ep`. */
  predicate Holds(data: seq<byte>, ep: nat, part: seq<byte>) {
    ep + |part| <= |data| && data[ep..ep + |part|] == part
  }

  lemma {:induction false} HoldsParts(data: seq<byte>, ep: nat, a: seq<byte>, b: seq<byte>)
    requires Holds(data, ep, a + b)
    ensures Holds(data, ep, a) && Holds(data, ep + |a|, b)
  {
    var part := data[ep..ep + |a + b|];
    assert data[ep..ep + |a|] == part[..|a|];
    assert data[ep + |a|..ep + |a| + |b|] == part[|a|..];
  }

  lemma {:induction false} FindZeroAfter(data: seq<byte>, ep: nat, s: seq<byte>)
    requires Holds(data, ep, s + [0]) && 0 !in s
    ensures FindZero(data, ep) == Some(ep + |s|)
    decreases |s|
  {
    assert data[ep] == (s + [0])[0];
    if s != [] {
      assert s + [0] == [s[0]] + (s[1..] + [0]);
      HoldsParts(data, ep, [s[0]], s[1..] + [0]);
      FindZeroAfter(data, ep + 1, s[1..]);
    }
  }

  lemma {:induction false} ReadScalar(data: seq<byte>, ep: nat, v: RpcValue, ty: RpcType)
    requires HasType(v, ty) && Holds(data, ep, EncodeValue(v)) && ty in {TBool, TS8, TU8, TUInt8, TU16, TUInt16, TS16}
    ensures Read(data, ep, ty) == Ok((v, ep + |EncodeValue(v)|))
  {
    var e := EncodeValue(v);
    assert data[ep] == data[ep..ep + |e|][0] == e[0];
    if |e| == 2 {
      assert data[ep + 1] == data[ep..ep + |e|][1] == e[1];
    }
  }

  lemma {:induction false} ReadWrittenString(data: seq<byte>, ep: nat, s: seq<byte>)
    requires ValidUtf8(s) && 0 !in s && Holds(data, ep, s + [0])
    ensures ReadText(data, ep) == Ok((s, ep + |s| + 1))
  {
    FindZeroAfter(data, ep, s);
    HoldsParts(data, ep, s, [0]);
  }

  lemma {:induction false} ReadWrittenNumber(data: seq<byte>, ep: nat, v: RpcValue, ty: RpcType)
    requires (v.VSigned? && ty.TSigned?) || (v.VUnsigned? && ty.TUnsigned?) || (v.VEnum? && ty.TEnum?)
    requires HasType(v, ty) && Holds(data, ep, EncodeValue(v))
    ensures Read(data, ep, ty) == Ok((v, ep + |EncodeValue(v)|))
  {
    match v
    case VSigned(x) => ReadWrittenSigned(data, ep, x);
    case VUnsigned(x) => ReadWrittenUnsigned(data, ep, x);
    case VEnum(k) => ReadWrittenEnum(data, ep, k, ty.labels);
  }

  lemma {:induction false} ReadWrittenSigned(data: seq<byte>, ep: nat, x: int)
    requires Holds(data, ep, Packed(true, x))
    ensures Read(data, ep, TSigned) == Ok((VSigned(x), ep + |Packed(true, x)|))
  {
    UnpackAt(true, x, data, ep);
  }

  lemma {:induction false} ReadWrittenUnsigned(data: seq<byte>, ep: nat, x: int)
    requires Holds(data, ep, Packed(true, x)) && 0 <= x
    ensures Read(data, ep, TUnsigned) == Ok((VUnsigned(x), ep + |Packed(true, x)|))
  {
    SignedReadUnsigned(x, data, ep);
  }

  lemma {:induction false} ReadWrittenEnum(data: seq<byte>, ep: nat, k: nat, labels: seq<string>)
    requires Holds(data, ep, Packed(false, k)) && k < |labels| && k < 0x1_0000_0000_0000_0000
    ensures Read(data, ep, TEnum(labels)) == Ok((VEnum(k), ep + |Packed(false, k)|))
  {
    UnpackAt(false, k, data, ep);
  }

  lemma {:induction false} ReadLeaf(data: seq<byte>, ep: nat, v: RpcValue, ty: RpcType)
    requires HasType(v, ty) && Holds(data, ep, EncodeValue(v)) && !ty.TStruct? && !ty.TArray?
    requires ToTheEnd(ty) ==> ep + |EncodeValue(v)| == |data|
    ensures Read(data, ep, ty) == Ok((v, ep + |EncodeValue(v)|))
  {
    if v.VBytes? {
      assert data[ep..] == data[ep..|data|];
    } else if v.VString? {
      ReadWrittenString(data, ep, v.utf8);
    } else if v.VSigned? || v.VUnsigned? || v.VEnum? {
      ReadWrittenNumber(data, ep, v, ty);
    } else {
      ReadScalar(data, ep, v, ty);
    }
  }

  lemma {:induction false} BytesTaken(v: RpcValue, ty: RpcType)
    requires HasType(v, ty) && TakesBytes(ty)
    ensures EncodeValue(v) != []
    decreases v, 0
  {
    if v.VStruct? {
      SomeBytesTaken(v.fields, ty.types);
    }
  }

  lemma {:induction false} SomeBytesTaken(vs: seq<RpcValue>, types: seq<RpcType>)
    requires HaveTypes(vs, types) && SomeTakesBytes(types)
    ensures EncodeAll(vs) != []
    decreases vs, 1
  {
    if TakesBytes(types[0]) {
      BytesTaken(vs[0], types[0]);
    } else {
      SomeBytesTaken(vs[1..], types[1..]);
    }
  }

  /**
   Reading back a written value, of any readable type, gives the same value and takes
   exactly its bytes.
   */
  lemma {:induction false} ReadWritten(data: seq<byte>, ep: nat, v: RpcValue, ty: RpcType)
    requires Readable(ty) && HasType(v, ty) && Holds(data, ep, EncodeValue(v))
    requires ToTheEnd(ty) ==> ep + |EncodeValue(v)| == |data|
    ensures Read(data, ep, ty) == Ok((v, ep + |EncodeValue(v)|))
    decreases v, 0
  {
    match v
    case VStruct(vs) => ReadWrittenAll(data, ep, vs, ty.types);
    case VArray(vs) => ReadWrittenArray(data, ep, vs, ty.item);
    case _ => ReadLeaf(data, ep, v, ty);
  }

  lemma {:induction false} ReadWrittenAll(data: seq<byte>, ep: nat, vs: seq<RpcValue>, types: seq<RpcType>)
    requires AllReadable(types) && HaveTypes(vs, types) && Holds(data, ep, EncodeAll(vs))
    requires LastToTheEnd(types) ==> ep + |EncodeAll(vs)| == |data|
    ensures ReadAll(data, ep, types) == Ok((vs, ep + |EncodeAll(vs)|))
    decreases vs, 1
  {
    if vs != [] {
      HoldsParts(data, ep, EncodeValue(vs[0]), EncodeAll(vs[1..]));
      assert |types| == 1 ==> EncodeAll(vs[1..]) == [];
      ReadWritten(data, ep, vs[0], types[0]);
      ReadWrittenAll(data, ep + |EncodeValue(vs[0])|, vs[1..], types[1..]);
      assert [vs[0]] + vs[1..] == vs;
    }
  }

  lemma {:induction false} ReadWrittenArray(data: seq<byte>, ep: nat, vs: seq<RpcValue>, item: RpcType)
    requires Readable(item) && !ToTheEnd(item) && TakesBytes(item) && AllHaveType(vs, item)
    requires Holds(data, ep, EncodeAll(vs)) && ep + |EncodeAll(vs)| == |data|
    ensures ReadArray(data, ep, item) == Ok((vs, |data|))
    decreases vs, 1
  {
    if vs != [] {
      HoldsParts(data, ep, EncodeValue(vs[0]), EncodeAll(vs[1..]));
      ReadWritten(data, ep, vs[0], item);
      BytesTaken(vs[0], item);
      ReadWrittenArray(data, ep + |EncodeValue(vs[0])|, vs[1..], item);
      assert [vs[0]] + vs[1..] == vs;
    }
  }

  /** An unsigned value, which is written as signed, comes back exactly when it is not negative. */
  lemma {:induction false} UnsignedComesBack(x: int)
    ensures Read(EncodeValue(VUnsigned(x)), 0, TUnsigned) == Ok((VUnsigned(x), |EncodeValue(VUnsigned(x))|)) <==> 0 <= x
  {
    var data := EncodeValue(VUnsigned(x));
    assert data[0..0 + |data|] == data;
    SignedReadUnsigned(x, data, 0);
  }

  // ---- any data ----

  /** A type of no bytes at all: built from empty structures only. */
  predicate Hollow(ty: RpcType) {
    match ty
    case TStruct(types) => AllHollow(types)
    case _ => false
  }

  predicate AllHollow(types: seq<RpcType>) {
    types == [] || (Hollow(types[0]) && AllHollow(types[1..]))
  }

  /** No array, at any depth, has hollow items. */
  predicate ArraysEnd(ty: RpcType) {
    match ty
    case TStruct(types) => AllArraysEnd(types)
    case TArray(item) => ArraysEnd(item) && !Hollow(item)
    case _ => true
  }

  predicate AllArraysEnd(types: seq<RpcType>) {
    types == [] || (ArraysEnd(types[0]) && AllArraysEnd(types[1..]))
  }

  lemma {:induction false} HollowTakesNothing(data: seq<byte>, ep: nat, ty: RpcType)
    requires ep <= |data| && Hollow(ty)
    ensures Read(data, ep, ty).Ok? && Read(data, ep, ty).value.1 == ep
    decreases ty, 0
  {
    AllHollowTakeNothing(data, ep, ty.types);
  }

  lemma {:induction false} AllHollowTakeNothing(data: seq<byte>, ep: nat, types: seq<RpcType>)
    requires ep <= |data| && AllHollow(types)
    ensures ReadAll(data, ep, types).Ok? && ReadAll(data, ep, types).value.1 == ep
    decreases types, 1
  {
    if types != [] {
      HollowTakesNothing(data, ep, types[0]);
      AllHollowTakeNothing(data, ep, types[1..]);
    }
  }

  lemma {:induction false} ArrayReadsToTheEnd(data: seq<byte>, ep: nat, item: RpcType)
    requires ep <= |data| && ReadArray(data, ep, item).Ok?
    ensures ReadArray(data, ep, item).value.1 == |data|
    decreases |data| - ep
  {
    if ep < |data| {
      ArrayReadsToTheEnd(data, Read(data, ep, item).value.1, item);
    }
  }

  /** While there is data, reading moves on exactly for the types that are not hollow. */
  lemma {:induction false} ReadAdvances(data: seq<byte>, ep: nat, ty: RpcType)
    requires ep < |data| && Read(data, ep, ty).Ok?
    ensures ep < Read(data, ep, ty).value.1 <==> !Hollow(ty)
    decreases ty, 0
  {
    match ty
    case TStruct(types) => ReadAllAdvances(data, ep, types);
    case TArray(item) => ArrayReadsToTheEnd(data, ep, item);
    case _ =>
  }

  lemma {:induction false} ReadAllAdvances(data: seq<byte>, ep: nat, types: seq<RpcType>)
    requires ep < |data| && ReadAll(data, ep, types).Ok?
    ensures ep < ReadAll(data, ep, types).value.1 <==> !AllHollow(types)
    decreases types, 1
  {
    if types != [] {
      ReadAdvances(data, ep, types[0]);
      if Read(data, ep, types[0]).value.1 == ep {
        ReadAllAdvances(data, ep, types[1..]);
      }
    }
  }

  /** On any data, a reader of a type without arrays of hollow items comes back. */
  lemma {:induction false} ReadEnds(data: seq<byte>, ep: nat, ty: RpcType)
    requires ep <= |data| && ArraysEnd(ty)
    ensures Read(data, ep, ty) != Err(Endless)
    decreases ty, 0, 0
  {
    match ty
    case TStruct(types) => ReadAllEnds(data, ep, types);
    case TArray(item) => ReadArrayEnds(data, ep, item);
    case _ =>
  }

  lemma {:induction false} ReadAllEnds(data: seq<byte>, ep: nat, types: seq<RpcType>)
    requires ep <= |data| && AllArraysEnd(types)
    ensures ReadAll(data, ep, types) != Err(Endless)
    decreases types, 1, 0
  {
    if types != [] {
      ReadEnds(data, ep, types[0]);
      if Read(data, ep, types[0]).Ok? {
        ReadAllEnds(data, Read(data, ep, types[0]).value.1, types[1..]);
      }
    }
  }

  lemma {:induction false} ReadArrayEnds(data: seq<byte>, ep: nat, item: RpcType)
    requires ep <= |data| && ArraysEnd(item) && !Hollow(item)
    ensures ReadArray(data, ep, item) != Err(Endless)
    decreases item, 1, |data| - ep
  {
    if ep < |data| {
      ReadEnds(data, ep, item);
      if Read(data, ep, item).Ok? {
        ReadAdvances(data, ep, item);
        ReadArrayEnds(data, Read(data, ep, item).value.1, item);
      }
    }
  }

  /** The reader comes to an array of hollow items with data left. */
  predicate Stuck(data: seq<byte>, ep: nat, ty: RpcType)
    requires ep <= |data|
    decreases ty, 0, 0
  {
    match ty
    case TStruct(types) => StuckInFields(data, ep, types)
    case TArray(item) => StuckInItems(data, ep, item)
    case _ => false
  }

  predicate StuckInFields(data: seq<byte>, ep: nat, types: seq<RpcType>)
    requires ep <= |data|
    decreases types, 1, 0
  {
    && types != []
    && (Stuck(data, ep, types[0])
        || (Read(data, ep, types[0]).Ok? && StuckInFields(data, Read(data, ep, types[0]).value.1, types[1..])))
  }

  predicate StuckInItems(data: seq<byte>, ep: nat, item: RpcType)
    requires ep <= |data|
    decreases item, 1, |data| - ep
  {
    && ep < |data|
    && (Hollow(item)
        || Stuck(data, ep, item)
        || (Read(data, ep, item).Ok? && ep < Read(data, ep, item).value.1
            && StuckInItems(data, Read(data, ep, item).value.1, item)))
  }

  /** On any data and for any type, the reader does not come back exactly when it gets stuck there. */
  lemma {:induction false} ReadIsEndlessIff(data: seq<byte>, ep: nat, ty: RpcType)
    requires ep <= |data|
    ensures Read(data, ep, ty) == Err(Endless) <==> Stuck(data, ep, ty)
    decreases ty, 0, 0
  {
    match ty
    case TStruct(types) => FieldsAreEndlessIff(data, ep, types);
    case TArray(item) => ItemsAreEndlessIff(data, ep, item);
    case _ =>
  }

  lemma {:induction false} FieldsAreEndlessIff(data: seq<byte>, ep: nat, types: seq<RpcType>)
    requires ep <= |data|
    ensures ReadAll(data, ep, types) == Err(Endless) <==> StuckInFields(data, ep, types)
    decreases types, 1, 0
  {
    if types != [] {
      ReadIsEndlessIff(data, ep, types[0]);
      if Read(data, ep, types[0]).Ok? {
        FieldsAreEndlessIff(data, Read(data, ep, types[0]).value.1, types[1..]);
      }
    }
  }

  lemma {:induction false} ItemsAreEndlessIff(data: seq<byte>, ep: nat, item: RpcType)
    requires ep <= |data|
    ensures ReadArray(data, ep, item) == Err(Endless) <==> StuckInItems(data, ep, item)
    decreases item, 1, |data| - ep
  {
    if ep < |data| {
      if Hollow(item) {
        HollowTakesNothing(data, ep, item);
      } else {
        ReadIsEndlessIff(data, ep, item);
        if Read(data, ep, item).Ok? {
          ReadAdvances(data, ep, item);
          ItemsAreEndlessIff(data, Read(data, ep, item).value.1, item);
        }
      }
    }
  }

  /** The item type behind any number of nested arrays. */
  function Innermost(ty: RpcType): RpcType {
    match ty
    case TArray(item) => Innermost(item)
    case _ => ty
  }

  /** For arrays of arrays the type alone decides: what matters is the innermost item. */
  lemma {:induction false} ArrayIsEndlessIff(data: seq<byte>, ep: nat, item: RpcType)
    requires ep <= |data| && ArraysEnd(Innermost(item))
    ensures ReadArray(data, ep, item) == Err(Endless) <==> ep < |data| && Hollow(Innermost(item))
    decreases item
  {
    if item.TArray? {
      ArrayIsEndlessIff(data, ep, item.item);
      if !Hollow(Innermost(item)) {
        NestedArraysEnd(item);
        ReadArrayEnds(data, ep, item);
      }
    } else if Hollow(item) {
      HollowTakesNothing(data, ep, item);
    } else {
      ReadArrayEnds(data, ep, item);
    }
  }

  lemma {:induction false} NestedArraysEnd(ty: RpcType)
    requires ArraysEnd(Innermost(ty)) && !Hollow(Innermost(ty))
    ensures ArraysEnd(ty) && !Hollow(ty)
    decreases ty
  {
    if ty.TArray? {
      NestedArraysEnd(ty.item);
    }
  }

  /** Arrays of empty structures, and arrays of such arrays, are never read to their end; arrays of blobs are. */
  lemma {:induction false} EmptyStructuresAreEndless()
    ensures ReadArray([5], 0, TStruct([])) == Err(Endless)
    ensures ReadArray([5], 0, TArray(TStruct([]))) == Err(Endless)
    ensures ReadArray([5], 0, TBytes) == Ok(([VBytes([5])], 1))
  {
    var data: seq<byte> := [5];
    ArrayIsEndlessIff(data, 0, TStruct([]));
    ArrayIsEndlessIff(data, 0, TArray(TStruct([])));
    assert data[0..] == data;
    assert ReadArray(data, 1, TBytes) == Ok(([], 1));
    assert [VBytes(data)] + [] == [VBytes(data)];
  }

  // ---- the bytes of fixed-size values ----

  /** How many bytes a value of fixed size takes. */
  function FixedSize(ty: RpcType): Option<nat> {
    match ty
    case TBool => Some(1)
    case TS8 => Some(1)
    case TU8 => Some(1)
    case TUInt8 => Some(1)
    case TU16 => Some(2)
    case TUInt16 => Some(2)
    case TS16 => Some(2)
    case _ => None
  }

  /** A value of fixed size is read exactly if all of its bytes are there. */
  lemma {:induction false} FixedIsReadIff(data: seq<byte>, ep: nat, ty: RpcType)
    requires ep <= |data| && FixedSize(ty).Some?
    ensures Read(data, ep, ty).Ok? <==> ep + FixedSize(ty).value <= |data|
    ensures Read(data, ep, ty).Ok? ==> Read(data, ep, ty).value.1 == ep + FixedSize(ty).value
  {
  }

  /** Words have their high byte first, and signed values are two's complements. */
  lemma {:induction false} WordsHighByteFirst(data: seq<byte>, ep: nat, high: int, low: int)
    requires ep + 2 <= |data| && data[ep] == high && data[ep + 1] == low
    ensures Read(data, ep, TU16) == Ok((VU16(0x100 * high + low), ep + 2))
    ensures high < 0x80 ==> Read(data, ep, TS16) == Ok((VS16(0x100 * high + low), ep + 2))
    ensures high >= 0x80 ==> Read(data, ep, TS16) == Ok((VS16(0x100 * high + low - 0x1_0000), ep + 2))
  {
  }

  /** A text is read exactly up to the first zero, if there is one and the bytes before it are UTF-8. */
  lemma {:induction false} TextIsReadIff(data: seq<byte>, ep: nat, end: nat)
    requires ep <= end < |data| && data[end] == 0 && 0 !in data[ep..end]
    ensures Read(data, ep, TString) == if ValidUtf8(data[ep..end]) then Ok((VString(data[ep..end]), end + 1)) else Err(Incomplete)
  {
    FirstZero(data, ep, end);
  }

  lemma {:induction false} FirstZero(data: seq<byte>, ep: nat, end: nat)
    requires ep <= end < |data| && data[end] == 0 && 0 !in data[ep..end]
    ensures FindZero(data, ep) == Some(end)
    decreases end - ep
  {
    if ep < end {
      assert data[ep] in data[ep..end];
      assert data[ep..end][1..] == data[ep + 1..end];
      FirstZero(data, ep + 1, end);
    }
  }

  /** An enumeration is read exactly if its number is complete and has a label. */
  lemma {:induction false} EnumIsReadIff(data: seq<byte>, ep: nat, labels: seq<string>)
    requires ep <= |data| && |labels| < 0x1_0000_0000_0000_0000
    ensures Read(data, ep, TEnum(labels)).Ok? <==>
      Unpack(false, data, ep).Ok? && 0 <= Unpack(false, data, ep).value.0 <= |labels| - 1
    ensures Read(data, ep, TEnum(labels)).Ok? ==> Read(data, ep, TEnum(labels)).value.0 == VEnum(Unpack(false, data, ep).value.0)
  {
  }
}
