/**
 Variable-length integers: seven bits in a byte, most significant first, the high bit set on all
 but the last byte; a signed value keeps its sign in the second bit of the first byte.
 */
module Varint {
  import opened Bits
  import opened Bytes

  datatype PackError = NegativeUnsignedValue | StartIndexOutOfBounds | DestinationTooSmall(required: nat)

  datatype UnpackError = IncompleteValue

  // ---- what a packed value is ----

  function Magnitude(value: int): nat {
    if value < 0 then -value - 1 else value
  }

  function FromMagnitude(negative: bool, m: int): int {
    if negative then -m - 1 else m
  }

  function SignBits(signed: bool): nat {
    if signed then 1 else 0
  }

  /** The least number of 7-bit digits for the magnitude and the sign bit. */
  function PackedLength(signed: bool, m: nat): (r: nat)
    ensures 0 < r
  {
    var needed := (BitLength(m) + SignBits(signed) + 6) / 7;
    if needed == 0 then 1 else needed
  }

  /** The last `length` base-128 digits, most significant first. */
  function Digits(m: nat, length: nat): (r: seq<byte>)
    ensures |r| == length
  {
    if length == 0 then [] else Digits(m / 128, length - 1) + [m % 128]
  }

  function Flag(digit: int, first: bool, last: bool, negative: bool): int {
    digit + (if last then 0 else 0x80) + (if first && negative then 0x40 else 0)
  }

  /** The shortest packed form of a value (non-negative if not signed). */
  function Packed(signed: bool, value: int): (r: seq<byte>)
    requires signed || 0 <= value
    ensures |r| == PackedLength(signed, Magnitude(value))
  {
    var m := Magnitude(value);
    var length := PackedLength(signed, m);
    var digits := Digits(m, length);
    TopDigit(signed, m);
    seq(length, k requires 0 <= k < length => Flag(digits[k], k == 0, k == length - 1, value < 0) as byte)
  }

  // ---- digits ----

  lemma {:induction false} DigitAt(m: nat, length: nat, j: nat)
    requires j < length
    ensures Digits(m, length)[length - 1 - j] == ShiftRight(m, 7 * j) % 128
    decreases length
  {
    if j != 0 {
      DigitAt(m / 128, length - 1, j - 1);
      ShiftRightSmall(m);
      ShiftRightAdd(m, 7, 7 * (j - 1));
      assert 7 + 7 * (j - 1) == 7 * j;
    }
  }

  lemma {:induction false} DigitsSmall(m: nat, length: nat, k: nat)
    requires k < length
    ensures Digits(m, length)[k] < 128
  {
    DigitAt(m, length, length - 1 - k);
  }

  /** There is room for the sign: the first digit of a signed value has only six bits. */
  lemma {:induction false} TopDigit(signed: bool, m: nat)
    ensures
      var length := PackedLength(signed, m);
      && ShiftRight(m, 7 * length) == 0
      && (forall k :: 0 <= k < length ==> Digits(m, length)[k] < 128)
      && (signed ==> Digits(m, length)[0] < 64)
  {
    var length := PackedLength(signed, m);
    FitsIffShiftedOut(m, 7 * length);
    forall k | 0 <= k < length ensures Digits(m, length)[k] < 128 {
      DigitsSmall(m, length, k);
    }
    if signed {
      FitsIffShiftedOut(m, 7 * length - 1);
      ShiftRightAdd(m, 7 * (length - 1), 6);
      ShiftRightSmall(ShiftRight(m, 7 * (length - 1)));
      DigitAt(m, length, length - 1);
    }
  }

  // ---- unpacking ----

  /** How many bytes the value at `at` takes: up to the first byte without the high bit. */
  function Used(data: seq<byte>, at: nat): Option<nat>
    decreases if at < |data| then |data| - at else 0
  {
    if at >= |data| then None
    else if data[at] < 0x80 then Some(1)
    else match Used(data, at + 1) case None => None case Some(n) => Some(n + 1)
  }

  lemma {:induction false} UsedInBounds(data: seq<byte>, at: nat)
    requires Used(data, at).Some?
    ensures
      var n := Used(data, at).value;
      && 0 < n && at + n <= |data|
      && data[at + n - 1] < 0x80
      && forall k :: at <= k < at + n - 1 ==> data[k] >= 0x80
    decreases |data| - at
  {
    if data[at] >= 0x80 {
      UsedInBounds(data, at + 1);
    }
  }

  /** The digit that `unpack_value` takes from the byte at `offset`. */
  function DigitOf(signed: bool, offset: nat, b: byte): nat {
    if signed && offset == 0 then b % 64 else b % 128
  }

  function Accumulate(signed: bool, bytes: seq<byte>): nat {
    if bytes == [] then 0
    else Accumulate(signed, bytes[..|bytes| - 1]) * 128 + DigitOf(signed, |bytes| - 1, bytes[|bytes| - 1])
  }

  function SignOf(signed: bool, first: byte): bool {
    signed && first / 64 % 2 == 1
  }

  function Unpack(signed: bool, data: seq<byte>, start: nat): Result<(int, nat), UnpackError> {
    match Used(data, start)
    case None => Err(IncompleteValue)
    case Some(used) =>
      UsedInBounds(data, start);
      var m := Accumulate(signed, data[start..start + used]);
      Ok((FromMagnitude(SignOf(signed, data[start]), m), used))
  }

  method CountUsed(data: seq<byte>, start: nat) returns (r: Option<nat>)
    ensures r == Used(data, start)
  {
    var used := 1;
    while start + used - 1 < |data| && data[start + used - 1] >= 0x80
      invariant 0 < used
      invariant Used(data, start) == match Used(data, start + used - 1) case None => None case Some(n) => Some(n + used - 1)
      decreases |data| + 1 - used
    {
      used := used + 1;
    }
    r := if start + used - 1 < |data| then Some(used) else None;
  }

  method UnpackValue(signed: bool, data: seq<byte>, start: nat) returns (r: Result<(int, nat), UnpackError>)
    ensures r == Unpack(signed, data, start)
  {
    var used := CountUsed(data, start);
    if used.None? {
      return Err(IncompleteValue);
    }
    UsedInBounds(data, start);
    var m := 0;
    for offset := 0 to used.value
      invariant m == Accumulate(signed, data[start..start + offset])
    {
      assert data[start..start + offset + 1][..offset] == data[start..start + offset];
      m := m * 128 + DigitOf(signed, offset, data[start + offset]);
    }
    r := Ok((FromMagnitude(SignOf(signed, data[start]), m), used.value));
  }

  // ---- round trip ----

  lemma {:induction false} AccumulateDigits(signed: bool, m: nat, bytes: seq<byte>, n: nat)
    requires n <= |bytes| && ShiftRight(m, 7 * |bytes|) == 0
    requires forall k :: 0 <= k < |bytes| ==> DigitOf(signed, k, bytes[k]) == Digits(m, |bytes|)[k]
    ensures Accumulate(signed, bytes[..n]) == ShiftRight(m, 7 * (|bytes| - n))
    decreases n
  {
    if n != 0 {
      AccumulateDigits(signed, m, bytes, n - 1);
      assert bytes[..n][..n - 1] == bytes[..n - 1];
      var j := |bytes| - n;
      DigitAt(m, |bytes|, j);
      ShiftRightAdd(m, 7 * j, 7);
      ShiftRightSmall(ShiftRight(m, 7 * j));
      assert 7 * (|bytes| - (n - 1)) == 7 * j + 7;
    }
  }

  lemma {:induction false} UsedOfPacked(packed: seq<byte>, prefix: seq<byte>, suffix: seq<byte>, k: nat)
    requires k < |packed| && forall i :: 0 <= i < |packed| ==> (packed[i] < 0x80 <==> i == |packed| - 1)
    ensures Used(prefix + packed + suffix, |prefix| + k) == Some(|packed| - k)
    decreases |packed| - k
  {
    var data := prefix + packed + suffix;
    assert data[|prefix| + k] == packed[k];
    if k < |packed| - 1 {
      UsedOfPacked(packed, prefix, suffix, k + 1);
    }
  }

  /** Only the last byte has no continuation flag. */
  predicate Flagged(packed: seq<byte>) {
    packed != [] && forall i :: 0 <= i < |packed| ==> (packed[i] < 0x80 <==> i == |packed| - 1)
  }

  lemma {:induction false} UnpackFlagged(signed: bool, packed: seq<byte>, prefix: seq<byte>, suffix: seq<byte>)
    requires Flagged(packed)
    ensures Unpack(signed, prefix + packed + suffix, |prefix|)
         == Ok((FromMagnitude(SignOf(signed, packed[0]), Accumulate(signed, packed)), |packed|))
  {
    var data := prefix + packed + suffix;
    UsedOfPacked(packed, prefix, suffix, 0);
    assert data[|prefix|..|prefix| + |packed|] == packed;
  }

  /** The flags leave the digit as it is. */
  lemma {:induction false} FlagParts(signed: bool, digit: byte, offset: nat, last: bool, negative: bool)
    requires digit < 128 && (signed && offset == 0 ==> digit < 64) && (negative ==> signed)
    ensures
      var b := Flag(digit, offset == 0, last, negative);
      && 0 <= b < 0x100 && DigitOf(signed, offset, b) == digit && (b < 0x80 <==> last)
      && (offset == 0 ==> SignOf(signed, b) == negative)
  {
  }

  lemma {:induction false} PackedHolds(signed: bool, value: int)
    requires signed || 0 <= value
    ensures
      var packed := Packed(signed, value);
      && Flagged(packed) && SignOf(signed, packed[0]) == (value < 0)
      && Accumulate(signed, packed) == Magnitude(value)
  {
    var packed, m := Packed(signed, value), Magnitude(value);
    var n := |packed|;
    TopDigit(signed, m);
    forall k | 0 <= k < n
      ensures DigitOf(signed, k, packed[k]) == Digits(m, n)[k] && (packed[k] < 0x80 <==> k == n - 1)
      ensures k == 0 ==> SignOf(signed, packed[k]) == (value < 0)
    {
      FlagParts(signed, Digits(m, n)[k], k, k == n - 1, value < 0);
    }
    AccumulateDigits(signed, m, packed, n);
    assert packed[..n] == packed;
  }

  /** Packing and unpacking, wherever the packed value is in the data. */
  lemma {:induction false} RoundTrip(signed: bool, value: int, prefix: seq<byte>, suffix: seq<byte>)
    requires signed || 0 <= value
    ensures Unpack(signed, prefix + Packed(signed, value) + suffix, |prefix|) == Ok((value, |Packed(signed, value)|))
  {
    PackedHolds(signed, value);
    UnpackFlagged(signed, Packed(signed, value), prefix, suffix);
  }

  /** The same, for data that holds the packed value at `at`. */
  lemma {:induction false} UnpackAt(signed: bool, value: int, data: seq<byte>, at: nat)
    requires signed || 0 <= value
    requires at + |Packed(signed, value)| <= |data| && data[at..at + |Packed(signed, value)|] == Packed(signed, value)
    ensures Unpack(signed, data, at) == Ok((value, |Packed(signed, value)|))
  {
    var packed := Packed(signed, value);
    RoundTrip(signed, value, data[..at], data[at + |packed|..]);
    assert data == data[..at] + packed + data[at + |packed|..];
  }

  /**
   A value packed as signed and unpacked as unsigned comes back exactly when it is not
   negative: only then the sign bit is not taken for a digit.
   */
  lemma {:induction false} SignedReadUnsigned(value: int, data: seq<byte>, at: nat)
    requires at + |Packed(true, value)| <= |data| && data[at..at + |Packed(true, value)|] == Packed(true, value)
    ensures Unpack(false, data, at) == Ok((value, |Packed(true, value)|)) <==> 0 <= value
  {
    var packed, m := Packed(true, value), Magnitude(value);
    TopDigit(true, m);
    UsedOfPacked(packed, data[..at], data[at + |packed|..], 0);
    assert data == data[..at] + packed + data[at + |packed|..];
    if 0 <= value {
      AccumulateDigits(false, m, packed, |packed|);
      assert packed[..|packed|] == packed;
    }
  }

  // ---- no shorter form, and no other one of the same length ----

  lemma {:induction false} DigitsOfAccumulated(signed: bool, bytes: seq<byte>, j: nat)
    requires j < |bytes|
    ensures
      var m := Accumulate(signed, bytes);
      && ShiftRight(m, 7 * j) % 128 == DigitOf(signed, |bytes| - 1 - j, bytes[|bytes| - 1 - j])
      && ShiftRight(m, 7 * |bytes|) == 0
    decreases |bytes|
  {
    var init, m := bytes[..|bytes| - 1], Accumulate(signed, bytes);
    var m' := Accumulate(signed, init);
    ShiftRightSmall(m);
    assert ShiftRight(m, 7) == m';
    ShiftRightAdd(m, 7, 7 * |init|);
    assert 7 + 7 * |init| == 7 * |bytes|;
    if init != [] {
      DigitsOfAccumulated(signed, init, if j == 0 then 0 else j - 1);
    }
    if j != 0 {
      ShiftRightAdd(m, 7, 7 * (j - 1));
      assert 7 + 7 * (j - 1) == 7 * j;
    }
  }

  /** A value that was decoded from `n` bytes fits into the digits of `n` bytes. */
  lemma {:induction false} DecodedFits(signed: bool, bytes: seq<byte>)
    requires bytes != []
    ensures BitLength(Accumulate(signed, bytes)) + SignBits(signed) <= 7 * |bytes|
  {
    var n, m := |bytes|, Accumulate(signed, bytes);
    DigitsOfAccumulated(signed, bytes, n - 1);
    FitsIffShiftedOut(m, 7 * n);
    if signed {
      var top := ShiftRight(m, 7 * (n - 1));
      ShiftRightAdd(m, 7 * (n - 1), 7);
      ShiftRightAdd(m, 7 * (n - 1), 6);
      ShiftRightSmall(top);
      FitsIffShiftedOut(m, 7 * n - 1);
    }
  }

  /** A byte is its digit and its flags. */
  lemma {:induction false} ByteOfFlags(signed: bool, k: nat, b: byte)
    ensures b == Flag(DigitOf(signed, k, b), k == 0, b < 0x80, SignOf(signed, b))
  {
  }

  lemma {:induction false} UnpackedAs(signed: bool, bytes: seq<byte>, value: int)
    requires Unpack(signed, bytes, 0) == Ok((value, |bytes|))
    ensures 0 < |bytes| && Magnitude(value) == Accumulate(signed, bytes) && (value < 0 <==> SignOf(signed, bytes[0]))
    ensures forall k :: 0 <= k < |bytes| ==> (bytes[k] < 0x80 <==> k == |bytes| - 1)
  {
    UsedInBounds(bytes, 0);
    assert bytes[0..|bytes|] == bytes;
  }

  lemma {:induction false} PackedAt(signed: bool, value: int, k: nat)
    requires (signed || 0 <= value) && k < |Packed(signed, value)|
    ensures
      var n := |Packed(signed, value)|;
      Packed(signed, value)[k] == Flag(Digits(Magnitude(value), n)[k], k == 0, k == n - 1, value < 0)
  {
  }

  lemma {:induction false} SameByte(signed: bool, bytes: seq<byte>, value: int, k: nat)
    requires Unpack(signed, bytes, 0) == Ok((value, |bytes|)) && (signed || 0 <= value)
    requires |Packed(signed, value)| == |bytes| && k < |bytes|
    ensures bytes[k] == Packed(signed, value)[k]
  {
    var n := |bytes|;
    UnpackedAs(signed, bytes, value);
    PackedAt(signed, value, k);
    assert Digits(Magnitude(value), n)[k] == DigitOf(signed, k, bytes[k]) by {
      DigitsOfAccumulated(signed, bytes, n - 1 - k);
      DigitAt(Magnitude(value), n, n - 1 - k);
    }
    ByteOfFlags(signed, k, bytes[k]);
  }

  /** Whatever decodes to a value is at least as long as its packed form, and equal to it if as long. */
  lemma {:induction false} PackedIsShortest(signed: bool, bytes: seq<byte>, value: int)
    requires Unpack(signed, bytes, 0) == Ok((value, |bytes|))
    ensures (signed || 0 <= value) && |Packed(signed, value)| <= |bytes|
    ensures |Packed(signed, value)| == |bytes| ==> bytes == Packed(signed, value)
  {
    UsedInBounds(bytes, 0);
    assert bytes[0..|bytes|] == bytes;
    DecodedFits(signed, bytes);
    if |Packed(signed, value)| == |bytes| {
      forall k | 0 <= k < |bytes| ensures bytes[k] == Packed(signed, value)[k] {
        SameByte(signed, bytes, value, k);
      }
    }
  }

  // ---- the first and the last value of each length ----

  lemma {:induction false} BitLengthOfPow2(k: nat)
    ensures BitLength(Pow2(k)) == k + 1 && BitLength(Pow2(k) - 1) == k
  {
    if k > 0 {
      BitLengthOfPow2(k - 1);
      assert Pow2(k) / 2 == Pow2(k - 1) && (Pow2(k) - 1) / 2 == Pow2(k - 1) - 1;
    }
  }

  lemma {:induction false} SevenMoreBits(n: nat)
    ensures Pow2(7 * (n + 1)) == 128 * Pow2(7 * n)
  {
    var k := 7 * n;
    assert 7 * (n + 1) == k + 7;
    assert Pow2(k + 1) == 2 * Pow2(k) && Pow2(k + 2) == 2 * Pow2(k + 1) && Pow2(k + 3) == 2 * Pow2(k + 2);
    assert Pow2(k + 4) == 2 * Pow2(k + 3) && Pow2(k + 5) == 2 * Pow2(k + 4) && Pow2(k + 6) == 2 * Pow2(k + 5);
    assert Pow2(k + 7) == 2 * Pow2(k + 6);
  }

  /** Bytes that all continue, except the last one. */
  function Chain(first: byte, middle: byte, last: byte, n: nat): (r: seq<byte>)
    requires n >= 2
    ensures |r| == n
  {
    [first] + seq(n - 2, _ => middle) + [last]
  }

  lemma {:induction false} ChainIsUsedUp(bytes: seq<byte>, at: nat)
    requires at < |bytes| && bytes[|bytes| - 1] < 0x80 && forall k :: 0 <= k < |bytes| - 1 ==> bytes[k] >= 0x80
    ensures Used(bytes, at) == Some(|bytes| - at)
    decreases |bytes| - at
  {
    if at + 1 < |bytes| {
      ChainIsUsedUp(bytes, at + 1);
    }
  }

  lemma {:induction false} ChainUnpacks(bytes: seq<byte>, value: nat)
    requires bytes != [] && bytes[|bytes| - 1] < 0x80 && forall k :: 0 <= k < |bytes| - 1 ==> bytes[k] >= 0x80
    requires Accumulate(false, bytes) == value
    ensures Unpack(false, bytes, 0) == Ok((value, |bytes|))
  {
    ChainIsUsedUp(bytes, 0);
    assert bytes[0..|bytes|] == bytes;
  }

  /** `0x81`, then `0x80` up to `0x00`. */
  lemma {:induction false} AccumulateFirst(bytes: seq<byte>, n: nat)
    requires 0 < n <= |bytes| && bytes[0] == 0x81 && forall k :: 0 < k < |bytes| ==> bytes[k] % 128 == 0
    ensures Accumulate(false, bytes[..n]) == Pow2(7 * (n - 1))
    decreases n
  {
    assert bytes[..n][..n - 1] == bytes[..n - 1];
    if n > 1 {
      AccumulateFirst(bytes, n - 1);
      SevenMoreBits(n - 2);
    }
  }

  lemma {:induction false} AccumulateLast(bytes: seq<byte>, n: nat)
    requires n <= |bytes| && forall k :: 0 <= k < |bytes| ==> bytes[k] % 128 == 127
    ensures Accumulate(false, bytes[..n]) == Pow2(7 * n) - 1
    decreases n
  {
    if n > 0 {
      assert bytes[..n][..n - 1] == bytes[..n - 1];
      AccumulateLast(bytes, n - 1);
      SevenMoreBits(n - 1);
    }
  }

  /** The smallest unsigned value that takes `n` bytes. */
  lemma {:induction false} FirstOfSeries(n: nat)
    requires n >= 2
    ensures Packed(false, Pow2(7 * (n - 1))) == Chain(0x81, 0x80, 0x00, n)
  {
    var bytes, value := Chain(0x81, 0x80, 0x00, n), Pow2(7 * (n - 1));
    AccumulateFirst(bytes, n);
    assert bytes[..n] == bytes;
    ChainUnpacks(bytes, value);
    BitLengthOfPow2(7 * (n - 1));
    PackedIsShortest(false, bytes, value);
  }

  /** The largest one. */
  lemma {:induction false} LastOfSeries(n: nat)
    requires n >= 2
    ensures Packed(false, Pow2(7 * n) - 1) == Chain(0xff, 0xff, 0x7f, n)
  {
    var bytes, value := Chain(0xff, 0xff, 0x7f, n), Pow2(7 * n) - 1;
    AccumulateLast(bytes, n);
    assert bytes[..n] == bytes;
    ChainUnpacks(bytes, value);
    BitLengthOfPow2(7 * n);
    PackedIsShortest(false, bytes, value);
  }

  /** The sign is bit 6 of the first byte, and a negative number is written as its complement. */
  lemma {:induction false} SignBit(value: int)
    requires value < 0
    ensures |Packed(true, value)| == |Packed(true, -value - 1)|
    ensures Packed(true, value)[0] - 0x40 == Packed(true, -value - 1)[0]
    ensures Packed(true, value)[1..] == Packed(true, -value - 1)[1..]
  {
    var a, b := Packed(true, value), Packed(true, -value - 1);
    assert Magnitude(value) == Magnitude(-value - 1);
    forall k | 0 <= k < |a| ensures a[k] - (if k == 0 then 0x40 else 0) == b[k] {
      PackedAt(true, value, k);
      PackedAt(true, -value - 1, k);
    }
  }
}
