/**
 Packing as the tools do it: the length from a formula over the 8-bit magnitude bytes, and each
 7-bit digit from a window over two neighbouring bytes. Both are proved to give `Varint.Packed`.
 */
module VarintPack {
  import opened Bits
  import opened Bytes
  import opened Varint

  // ---- magnitude bytes ----

  /** Big-endian bytes without leading zeros; one zero byte for zero. */
  function ToBytes(m: nat): (r: seq<byte>)
    ensures r != []
  {
    if m < 0x100 then [m] else ToBytes(m / 0x100) + [m % 0x100]
  }

  function FromBytes(bytes: seq<byte>): nat {
    if bytes == [] then 0 else FromBytes(bytes[..|bytes| - 1]) * 0x100 + bytes[|bytes| - 1]
  }

  predicate Canonical(bytes: seq<byte>) {
    |bytes| > 1 ==> bytes[0] != 0
  }

  lemma {:induction false} ToBytesRoundTrip(m: nat)
    ensures FromBytes(ToBytes(m)) == m
    ensures ToBytes(m)[0] == 0 ==> m == 0
    ensures Canonical(ToBytes(m))
  {
    var bytes := ToBytes(m);
    if m >= 0x100 {
      ToBytesRoundTrip(m / 0x100);
      assert bytes[..|bytes| - 1] == ToBytes(m / 0x100);
    } else {
      assert bytes[..0] == [];
    }
  }

  function StripLeadingZero(bytes: seq<byte>): seq<byte> {
    if |bytes| > 1 && bytes[0] == 0 then bytes[1..] else bytes
  }

  /** Byte `p` from the end is what remains after shifting out the bytes behind it. */
  lemma {:induction false} ByteAt(bytes: seq<byte>, p: nat)
    requires p < |bytes|
    ensures bytes[|bytes| - 1 - p] == ShiftRight(FromBytes(bytes), 8 * p) % 0x100
    decreases p
  {
    var init, m := bytes[..|bytes| - 1], FromBytes(bytes);
    if p != 0 {
      ShiftRightSmall(m);
      ShiftRightAdd(m, 8, 8 * (p - 1));
      assert 8 + 8 * (p - 1) == 8 * p;
      ByteAt(init, p - 1);
    }
  }

  lemma {:induction false} NothingAbove(bytes: seq<byte>, p: nat)
    requires |bytes| <= p
    ensures ShiftRight(FromBytes(bytes), 8 * p) == 0
    decreases p
  {
    if p != 0 {
      var m := FromBytes(bytes);
      ShiftRightSmall(m);
      ShiftRightAdd(m, 8, 8 * (p - 1));
      assert 8 + 8 * (p - 1) == 8 * p;
      if bytes == [] {
        NothingAbove(bytes, p - 1);
      } else {
        assert m / 0x100 == FromBytes(bytes[..|bytes| - 1]);
        NothingAbove(bytes[..|bytes| - 1], p - 1);
      }
    }
  }

  // ---- the length formula ----

  lemma {:induction false} ByteBitLength(b: byte)
    ensures BitLength(b) <= 8 && (BitLength(b) == 8 <==> b >= 0x80)
  {
    FitsIffShiftedOut(b, 8);
    FitsIffShiftedOut(b, 7);
    ShiftRightSmall(b);
  }

  lemma {:induction false} BitLengthByteMore(m: nat, b: byte)
    requires m != 0
    ensures BitLength(m * 0x100 + b) == BitLength(m) + 8
  {
    var x := m * 0x100 + b;
    assert ShiftRight(x, 8) == m by {
      ShiftRightSmall(x);
    }
    BitLengthShifted(x, 8);
  }

  lemma {:induction false} BitLengthOfBytes(bytes: seq<byte>)
    requires bytes != [] && Canonical(bytes)
    ensures BitLength(FromBytes(bytes)) == 8 * (|bytes| - 1) + BitLength(bytes[0])
    ensures |bytes| > 1 ==> FromBytes(bytes) != 0
  {
    var init := bytes[..|bytes| - 1];
    if |bytes| == 1 {
      assert FromBytes(init) == 0;
    } else {
      BitLengthOfBytes(init);
      if |init| == 1 {
        assert FromBytes(init) == FromBytes(init[..0]) * 0x100 + init[0];
      }
      BitLengthByteMore(FromBytes(init), bytes[|bytes| - 1]);
    }
  }

  /** Nine bits for each byte, and one more for each seven, counted in groups of eight. */
  lemma {:induction false} LengthFormula(more: nat, b: nat, sign: nat)
    requires b <= 8 && sign <= 1 && (more > 0 ==> b > 0)
    ensures
      var required := 9 * more + more / 7 + b + (if b == 8 then 1 else 0) + sign;
      var needed := (8 * more + b + sign + 6) / 7;
      (required + 8) / 8 == if needed == 0 then 1 else needed
  {
    var q, r := more / 7, more % 7;
    assert 9 * more + q == 64 * q + 9 * r && 8 * more == 56 * q + 8 * r;
  }

  lemma {:induction false} FormulaIsPackedLength(signed: bool, value: seq<byte>)
    requires value != [] && Canonical(value)
    ensures
      var more, b := |value| - 1, BitLength(value[0]);
      (9 * more + more / 7 + b + (if b == 8 then 1 else 0) + SignBits(signed) + 8) / 8 == PackedLength(signed, FromBytes(value))
  {
    ByteBitLength(value[0]);
    BitLengthOfBytes(value);
    if |value| > 1 {
      FitsIffShiftedOut(value[0], 0);
    }
    LengthFormula(|value| - 1, BitLength(value[0]), SignBits(signed));
  }

  method CalcPackReqBytes(signed: bool, value: seq<byte>) returns (r: nat)
    ensures Canonical(value) ==> r == PackedLength(signed, FromBytes(value))
  {
    if value == [] {
      return 1;
    }
    var required := 9 * (|value| - 1) + (|value| - 1) / 7;
    var last: nat := value[0];
    var msb := last / 0x80 % 2 != 0;
    while last != 0
      invariant required + BitLength(last) == 9 * (|value| - 1) + (|value| - 1) / 7 + BitLength(value[0])
    {
      required := required + 1;
      last := last / 2;
    }
    if msb {
      required := required + 1;
    }
    if signed {
      required := required + 1;
    }
    r := (required + 8) / 8;
    ByteBitLength(value[0]);
    if Canonical(value) {
      FormulaIsPackedLength(signed, value);
    }
  }

  // ---- the 7-bit windows ----

  /** The bits of a byte pair that one output byte takes, before the mask `0x7f`. */
  function Window(magnitude: seq<byte>, index: int, offset: nat): nat
    requires index < |magnitude| && offset < 8
  {
    if offset == 0 then
      if index >= 0 then magnitude[index] else 0
    else if index + 1 >= 0 && index + 1 < |magnitude| then
      var low := ShiftRight(magnitude[index + 1], 8 - offset);
      if index >= 0 then Or(low, magnitude[index] * Pow2(offset)) else low
    else 0
  }

  lemma {:induction false} SevenBits(a: nat, c: nat)
    ensures (a + 128 * c) % 128 == a % 128
  {
  }

  lemma {:induction false} HigherBitsDropOut(digit: nat, high: nat, t: nat, p: nat)
    ensures (digit + (0x100 * t + high) * p) % 128 == (digit + high * p) % 128
  {
    var x := t * p;
    assert (0x100 * t + high) * p == 0x100 * x + high * p;
    SevenBits(digit + high * p, 2 * x);
  }

  /** Seven bits that span two bytes: the high bits of the lower byte, then the low bits of the upper one. */
  lemma {:induction false} PairWindow(q: nat, offset: nat)
    requires 1 <= offset <= 7
    ensures Or(ShiftRight(q % 0x100, 8 - offset), q / 0x100 % 0x100 * Pow2(offset)) % 128 == ShiftRight(q, 8 - offset) % 128
  {
    var low, above, s := q % 0x100, q / 0x100, 8 - offset;
    var high, t := above % 0x100, above / 0x100;
    assert Pow2(8) == 0x100 by {
      Pow2Small();
    }
    ShiftRightSplit(low, above, 8, s);
    assert ShiftRight(q, s) == ShiftRight(low, s) + (0x100 * t + high) * Pow2(offset);
    OrShifted(ShiftRight(low, s), high, offset);
    HigherBitsDropOut(ShiftRight(low, s), high, t, Pow2(offset));
  }

  /** Byte `k` from the end, with zeros in front. */
  function ByteFromEnd(magnitude: seq<byte>, k: nat): byte {
    if k < |magnitude| then magnitude[|magnitude| - 1 - k] else 0
  }

  lemma {:induction false} ByteFromEndIsShift(magnitude: seq<byte>, k: nat)
    ensures ByteFromEnd(magnitude, k) == ShiftRight(FromBytes(magnitude), 8 * k) % 0x100
  {
    if k < |magnitude| {
      ByteAt(magnitude, k);
    } else {
      NothingAbove(magnitude, k);
    }
  }

  lemma {:induction false} ShiftRightOfZero(k: nat)
    ensures ShiftRight(0, k) == 0
  {
    FitsIffShiftedOut(0, k);
  }

  lemma {:induction false} WindowOfPair(magnitude: seq<byte>, k: nat, offset: nat)
    requires magnitude != [] && 1 <= offset <= 7
    ensures Window(magnitude, |magnitude| - 1 - (k + 1), offset)
         == Or(ShiftRight(ByteFromEnd(magnitude, k), 8 - offset), ByteFromEnd(magnitude, k + 1) * Pow2(offset))
  {
    ShiftRightOfZero(8 - offset);
  }

  lemma {:induction false} WindowSpanning(magnitude: seq<byte>, k: nat, offset: nat)
    requires magnitude != [] && 1 <= offset <= 7
    ensures Window(magnitude, |magnitude| - 1 - (k + 1), offset) % 128
         == ShiftRight(FromBytes(magnitude), 8 * k + (8 - offset)) % 128
  {
    var m := FromBytes(magnitude);
    var q := ShiftRight(m, 8 * k);
    WindowOfPair(magnitude, k, offset);
    ByteFromEndIsShift(magnitude, k);
    ByteFromEndIsShift(magnitude, k + 1);
    ShiftRightAdd(m, 8 * k, 8);
    ShiftRightSmall(q);
    PairWindow(q, offset);
    ShiftRightAdd(m, 8 * k, 8 - offset);
  }

  /** Output byte `j`, counted from the last one, takes bits `7 * j` to `7 * j + 6` of the magnitude. */
  lemma {:induction false} WindowIsDigit(magnitude: seq<byte>, j: nat)
    requires magnitude != []
    ensures Window(magnitude, |magnitude| - 1 - (7 * (j / 8) + j % 8), j % 8) % 128 == ShiftRight(FromBytes(magnitude), 7 * j) % 128
  {
    var octet, offset := j / 8, j % 8;
    if offset == 0 {
      assert 7 * j == 8 * (7 * octet);
      ByteFromEndIsShift(magnitude, 7 * octet);
      LowBits(ShiftRight(FromBytes(magnitude), 8 * (7 * octet)));
    } else {
      var k := 7 * octet + offset - 1;
      assert 7 * j == 8 * k + (8 - offset);
      WindowSpanning(magnitude, k, offset);
    }
  }

  lemma {:induction false} LowBits(q: nat)
    ensures q % 0x100 % 128 == q % 128
  {
  }

  /** Setting the flags with `|` cannot run into the digit. */
  function SetFlags(value: nat, first: bool, last: bool, negative: bool): nat {
    var value := if last then value else Or(value, 0x80);
    if first && negative then Or(value, 0x40) else value
  }

  lemma {:induction false} FlagsByOr(digit: nat, first: bool, last: bool, negative: bool)
    requires digit < 128 && (first && negative ==> digit < 64)
    ensures SetFlags(digit, first, last, negative) == Flag(digit, first, last, negative)
  {
    var high := if last then 0 else 0x80;
    if !last {
      OrSetsContinue(digit);
    }
    if first && negative {
      OrSetsSign(digit, high, digit + high);
    }
  }

  lemma {:induction false} OrSetsContinue(digit: nat)
    requires digit < 128
    ensures Or(digit, 0x80) == digit + 0x80
  {
    assert Pow2(7) == 0x80 by {
      Pow2Small();
    }
    ShiftRightSmall(digit);
    OrSetsBit(digit, 7);
  }

  lemma {:induction false} OrSetsSign(digit: nat, high: nat, value: nat)
    requires digit < 64 && (high == 0 || high == 0x80) && value == digit + high
    ensures Or(value, 0x40) == value + 0x40
  {
    assert Pow2(6) == 0x40 by {
      Pow2Small();
    }
    ShiftRightSmall(value);
    assert value / 64 % 2 == 0;
    OrSetsBit(value, 6);
  }

  /** The value that a magnitude and an optional sign stand for. */
  function ValueOf(negative: Option<bool>, magnitude: seq<byte>): int {
    FromMagnitude(negative == Some(true), FromBytes(magnitude))
  }

  /** What the output loop writes at `k`. */
  function OutputByte(negative: Option<bool>, magnitude: seq<byte>, required: nat, k: nat): nat
    requires k < required && magnitude != []
  {
    var j := required - 1 - k;
    var value := Window(magnitude, |magnitude| - 1 - (7 * (j / 8) + j % 8), j % 8) % 128;
    SetFlags(value, k == 0, k == required - 1, negative == Some(true))
  }

  /** One round of the output loop takes a digit and sets its flags. */
  lemma {:induction false} RoundGivesDigit(negative: Option<bool>, magnitude: seq<byte>, length: nat, k: nat)
    requires magnitude != [] && k < length
    requires Digits(FromBytes(magnitude), length)[k] < (if k == 0 && negative == Some(true) then 64 else 128)
    ensures OutputByte(negative, magnitude, length, k)
         == Flag(Digits(FromBytes(magnitude), length)[k], k == 0, k == length - 1, negative == Some(true))
  {
    var digit := Digits(FromBytes(magnitude), length)[k];
    WindowAt(magnitude, length, k);
    FlagsByOr(digit, k == 0, k == length - 1, negative == Some(true));
    assert OutputByte(negative, magnitude, length, k) == SetFlags(digit, k == 0, k == length - 1, negative == Some(true));
  }

  lemma {:induction false} WindowAt(magnitude: seq<byte>, length: nat, k: nat)
    requires magnitude != [] && k < length
    ensures
      var j := length - 1 - k;
      Window(magnitude, |magnitude| - 1 - (7 * (j / 8) + j % 8), j % 8) % 128 == Digits(FromBytes(magnitude), length)[k]
  {
    var j := length - 1 - k;
    WindowIsDigit(magnitude, j);
    DigitAt(FromBytes(magnitude), length, j);
  }

  /** One round of the output loop gives byte `k` of the packed value. */
  lemma {:induction false} RoundGivesByte(negative: Option<bool>, magnitude: seq<byte>, k: nat)
    requires magnitude != []
    requires k < PackedLength(negative.Some?, FromBytes(magnitude))
    ensures
      OutputByte(negative, magnitude, PackedLength(negative.Some?, FromBytes(magnitude)), k)
      == Packed(negative.Some?, ValueOf(negative, magnitude))[k]
  {
    var m := FromBytes(magnitude);
    TopDigit(negative.Some?, m);
    RoundGivesDigit(negative, magnitude, PackedLength(negative.Some?, m), k);
  }

  lemma {:induction false} NextOctet(j: nat)
    ensures (j + 1) % 8 == (if j % 8 == 7 then 0 else j % 8 + 1)
    ensures (j + 1) / 8 == (if j % 8 == 7 then j / 8 + 1 else j / 8)
  {
  }

  /** Where the output loop stands before it writes byte `output`. */
  predicate AtByte(magnitude: seq<byte>, required: nat, output: nat, index: int, offset: nat)
  {
    && output < required && magnitude != []
    && var j := required - 1 - output;
    index == |magnitude| - 1 - (7 * (j / 8) + j % 8) && offset == j % 8
  }

  /** One round of the output loop: the byte, and the next window. */
  method OutputRound(negative: Option<bool>, magnitude: seq<byte>, required: nat, output: nat, index0: int, offset0: nat)
    returns (value: nat, index: int, offset: nat)
    requires AtByte(magnitude, required, output, index0, offset0)
    ensures value == OutputByte(negative, magnitude, required, output)
    ensures 0 < output ==> AtByte(magnitude, required, output - 1, index, offset)
  {
    value := Window(magnitude, index0, offset0) % 0x80;
    if output != required - 1 {
      value := Or(value, 0x80);
    }
    if negative == Some(true) && output == 0 {
      value := Or(value, 0x40);
    }
    index, offset := NextWindow(magnitude, required, output, index0, offset0);
  }

  method NextWindow(magnitude: seq<byte>, required: nat, output: nat, index0: int, offset0: nat)
    returns (index: int, offset: nat)
    requires AtByte(magnitude, required, output, index0, offset0)
    ensures 0 < output ==> AtByte(magnitude, required, output - 1, index, offset)
  {
    index, offset := index0, offset0 + 1;
    if offset == 8 {
      offset := 0;
      index := index + 1;
    }
    index := index - 1;
    NextOctet(required - 1 - output);
  }

  /** The output loop, from the last byte to the first. */
  method PackDigits(negative: Option<bool>, magnitude: seq<byte>, dst: array<byte>, start: nat, required: nat, ghost packed: seq<byte>)
    requires magnitude != [] && |packed| == required && start + required <= dst.Length
    requires forall k :: 0 <= k < required ==> OutputByte(negative, magnitude, required, k) == packed[k]
    modifies dst
    ensures dst[..] == old(dst[..start]) + packed + old(dst[start + required..])
  {
    var offset, index := 0, |magnitude| - 1;
    for output := required downto 0
      invariant 0 < output ==> AtByte(magnitude, required, output - 1, index, offset)
      invariant forall k :: 0 <= k < dst.Length && !(start + output <= k < start + required) ==> dst[k] == old(dst[k])
      invariant forall k :: output <= k < required ==> dst[start + k] == packed[k]
    {
      var value;
      value, index, offset := OutputRound(negative, magnitude, required, output, index, offset);
      dst[start + output] := value;
    }
    PackedInPlace(dst[..], old(dst[..]), start, packed);
  }

  lemma {:induction false} PackedInPlace(after: seq<byte>, before: seq<byte>, start: nat, packed: seq<byte>)
    requires |after| == |before| && start + |packed| <= |before|
    requires forall k :: 0 <= k < |before| && !(start <= k < start + |packed|) ==> after[k] == before[k]
    requires forall k :: 0 <= k < |packed| ==> after[start + k] == packed[k]
    ensures after == before[..start] + packed + before[start + |packed|..]
  {
    assert after[start..start + |packed|] == packed;
    assert after == after[..start] + after[start..start + |packed|] + after[start + |packed|..];
  }

  method PackMagnitude(negative: Option<bool>, magnitude: seq<byte>, dst: array<byte>, start: nat)
    returns (r: Result<nat, PackError>)
    requires Canonical(magnitude)
    modifies dst
    ensures dst[..] == old(dst[..]) || r.Ok?
    ensures
      var packed := Packed(negative.Some?, ValueOf(negative, magnitude));
      && (r.Ok? <==> start + |packed| <= dst.Length)
      && (r.Ok? ==> r.value == |packed| && dst[..] == old(dst[..start]) + packed + old(dst[start + |packed|..]))
  {
    ghost var packed := Packed(negative.Some?, ValueOf(negative, magnitude));
    var required := CalcPackReqBytes(negative.Some?, magnitude);
    if magnitude == [] {
      if start >= dst.Length {
        return Err(StartIndexOutOfBounds);
      }
      dst[start] := if negative == Some(true) then 0x40 else 0;
      assert dst[..] == old(dst[..start]) + packed + old(dst[start + |packed|..]);
      return Ok(1);
    }
    if start + required > dst.Length {
      return Err(DestinationTooSmall(required));
    }

    forall k | 0 <= k < required ensures OutputByte(negative, magnitude, required, k) == packed[k] {
      RoundGivesByte(negative, magnitude, k);
    }
    PackDigits(negative, magnitude, dst, start, required, packed);
    r := Ok(required);
  }

  /** `pack_value_into` */
  method PackValueInto(signed: bool, value: int, dst: array<byte>, start: nat) returns (r: Result<nat, PackError>)
    modifies dst
    ensures !signed && value < 0 ==> r == Err(NegativeUnsignedValue)
    ensures r.Err? ==> dst[..] == old(dst[..])
    ensures signed || 0 <= value ==>
      var packed := Packed(signed, value);
      && (r.Ok? <==> start + |packed| <= dst.Length)
      && (r.Ok? ==> r.value == |packed| && dst[..] == old(dst[..start]) + packed + old(dst[start + |packed|..]))
      && (r.Err? ==> r.error == if start > dst.Length then StartIndexOutOfBounds else DestinationTooSmall(|packed|))
  {
    if !signed && value < 0 {
      return Err(NegativeUnsignedValue);
    }
    var negative := if signed then Some(value < 0) else None;
    var magnitude := StripLeadingZero(ToBytes(Magnitude(value)));
    ToBytesRoundTrip(Magnitude(value));
    var required := CalcPackReqBytes(signed, magnitude);
    if start > dst.Length {
      return Err(StartIndexOutOfBounds);
    }
    if start + required > dst.Length {
      return Err(DestinationTooSmall(required));
    }
    r := PackMagnitude(negative, magnitude, dst, start);
  }

  /** `pack_value` */
  method PackValue(signed: bool, value: int) returns (r: Result<seq<byte>, PackError>)
    ensures r == if !signed && value < 0 then Err(NegativeUnsignedValue) else Ok(Packed(signed, value))
  {
    if !signed && value < 0 {
      return Err(NegativeUnsignedValue);
    }
    var magnitude := StripLeadingZero(ToBytes(Magnitude(value)));
    ToBytesRoundTrip(Magnitude(value));
    var required := CalcPackReqBytes(signed, magnitude);
    var dst := new byte[required](_ => 0);
    var _ := PackMagnitude(if signed then Some(value < 0) else None, magnitude, dst, 0);
    assert dst[..] == Packed(signed, value);
    r := Ok(dst[..]);
  }
}
