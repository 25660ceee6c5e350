/** The Dallas/Maxim CRC-8 that ends every packet, and the errors it detects. */
module Crc8 {
  import opened Bytes
  import opened LinearCode

  // ---- one byte ----

  function Term(v: bv8, mask: bv8, constant: bv8): bv8 {
    if v & mask != 0 then constant else 0
  }

  function LowTerms(v: bv8): bv8 {
    Term(v, 0x01, 0x5e) ^ Term(v, 0x02, 0xbc) ^ Term(v, 0x04, 0x61) ^ Term(v, 0x08, 0xc2)
  }

  function HighTerms(v: bv8): bv8 {
    Term(v, 0x10, 0x9d) ^ Term(v, 0x20, 0x23) ^ Term(v, 0x40, 0x46) ^ Term(v, 0x80, 0x8c)
  }

  /** The register after the byte `v`, as the code computes it: a constant for each bit. */
  function Table(v: bv8): bv8 {
    LowTerms(v) ^ HighTerms(v)
  }

  function Xor(a: bv8, b: bv8): bv8 {
    a ^ b
  }

  /** One step of the shift register of the reflected polynomial x^8 + x^5 + x^4 + 1. */
  function Shift(r: bv8): bv8 {
    if r & 1 != 0 then (r >> 1) ^ 0x8c else r >> 1
  }

  lemma {:induction false} TableIsEightShifts(v: bv8)
    ensures Table(v) == Shift(Shift(Shift(Shift(Shift(Shift(Shift(Shift(v))))))))
  {
  }

  lemma {:induction false} LowTermsLinear(a: bv8, b: bv8)
    ensures LowTerms(a ^ b) == LowTerms(a) ^ LowTerms(b)
  {
  }

  lemma {:induction false} HighTermsLinear(a: bv8, b: bv8)
    ensures HighTerms(a ^ b) == HighTerms(a) ^ HighTerms(b)
  {
  }

  lemma {:induction false} XorInterchange(a: bv8, b: bv8, c: bv8, d: bv8)
    ensures (a ^ b) ^ (c ^ d) == (a ^ c) ^ (b ^ d)
  {
  }

  lemma {:induction false} TableLinear(a: bv8, b: bv8)
    ensures Table(a ^ b) == Table(a) ^ Table(b)
  {
    LowTermsLinear(a, b);
    HighTermsLinear(a, b);
    XorInterchange(LowTerms(a), LowTerms(b), HighTerms(a), HighTerms(b));
  }

  lemma {:induction false} TableKernel(v: bv8)
    ensures Table(v) == 0 <==> v == 0
  {
  }

  // ---- packets ----

  const MAXIM: Register<bv8> := Register(0, Xor, Table)

  lemma {:induction false} MaximDistributes()
    ensures Distributes(MAXIM)
  {
    forall a: bv8, b: bv8 ensures MAXIM.step(MAXIM.add(a, b)) == MAXIM.add(MAXIM.step(a), MAXIM.step(b)) {
      TableLinear(a, b);
    }
  }

  lemma {:induction false} MaximIsAdditive()
    ensures Additive(MAXIM)
  {
    MaximDistributes();
    forall a: bv8, b: bv8, c: bv8, d: bv8
      ensures MAXIM.add(MAXIM.add(a, b), MAXIM.add(c, d)) == MAXIM.add(MAXIM.add(a, c), MAXIM.add(b, d))
    {
      XorInterchange(a, b, c, d);
    }
  }

  lemma {:induction false} MaximCancels()
    ensures Cancels(MAXIM)
  {
  }

  lemma {:induction false} MaximIsExclusive()
    ensures Exclusive(MAXIM)
  {
    forall a: bv8 ensures Table(a) == 0 <==> a == 0 {
      TableKernel(a);
    }
  }

  function ToBits(data: seq<byte>): seq<bv8> {
    seq(|data|, k requires 0 <= k < |data| => data[k] as bv8)
  }

  function CrcOf(data: seq<byte>): byte {
    Checksum(MAXIM, ToBits(data)) as int
  }

  method Crc8Byte(b: bv8, crc: bv8) returns (register: bv8)
    ensures register == Table(Xor(b, crc))
  {
    var v := b ^ crc;
    register := 0;
    if v & 0x01 != 0 { register := register ^ 0x5e; }
    if v & 0x02 != 0 { register := register ^ 0xbc; }
    if v & 0x04 != 0 { register := register ^ 0x61; }
    if v & 0x08 != 0 { register := register ^ 0xc2; }
    if v & 0x10 != 0 { register := register ^ 0x9d; }
    if v & 0x20 != 0 { register := register ^ 0x23; }
    if v & 0x40 != 0 { register := register ^ 0x46; }
    if v & 0x80 != 0 { register := register ^ 0x8c; }
  }

  method Crc8Prefix(data: seq<byte>, length: nat) returns (crc: byte)
    ensures crc == CrcOf(data[..if length < |data| then length else |data|])
  {
    var n := if length < |data| then length else |data|;
    var register: bv8 := 0;
    for k := 0 to n
      invariant register == Checksum(MAXIM, ToBits(data[..k]))
    {
      register := Crc8Byte(data[k] as bv8, register);
      var bits := ToBits(data[..k + 1]);
      assert bits[..k] == ToBits(data[..k]) && bits[k] == data[k] as bv8;
    }
    crc := register as int;
  }

  function GetValidPacket(data: seq<byte>): Option<seq<byte>> {
    if data != [] && CrcOf(data[..|data| - 1]) == data[|data| - 1] then Some(data[..|data| - 1]) else None
  }

  lemma {:induction false} AppendedCrcIsValid(data: seq<byte>)
    ensures GetValidPacket(data + [CrcOf(data)]) == Some(data)
  {
    assert (data + [CrcOf(data)])[..|data|] == data;
  }

  lemma {:induction false} NextBits(c: bv8)
    requires c != 255
    ensures (c + 1) as int == c as int + 1
  {
  }

  lemma {:induction false} BitsFor(b: byte) returns (c: bv8)
    ensures c as int == b
  {
    if b == 0 {
      c := 0;
    } else {
      var p := BitsFor(b - 1);
      assert p != 255;
      NextBits(p);
      c := p + 1;
    }
  }

  lemma {:induction false} IntOfBits(b: byte)
    ensures (b as bv8) as int == b
  {
    var c := BitsFor(b);
    assert c == b as bv8;
  }

  lemma {:induction false} BitsOfInt(crc: bv8)
    ensures (crc as int) as bv8 == crc
  {
  }

  lemma {:induction false} SameBits(crc: bv8, b: byte)
    ensures crc as int == b <==> crc == b as bv8
  {
    if crc as int == b {
      BitsOfInt(crc);
    } else if crc == b as bv8 {
      IntOfBits(b);
    }
  }

  lemma {:induction false} ValidIsCodeword(data: seq<byte>)
    ensures GetValidPacket(data).Some? <==> Codeword(MAXIM, ToBits(data))
  {
    if data != [] {
      var n := |data| - 1;
      assert ToBits(data)[..n] == ToBits(data[..n]);
      SameBits(Checksum(MAXIM, ToBits(data[..n])), data[n]);
    }
  }

  // ---- which damaged packets are rejected ----

  /** The bits in which two packets of the same length differ. */
  function Difference(a: seq<byte>, b: seq<byte>): seq<bv8>
    requires |a| == |b|
  {
    Sum(MAXIM, ToBits(a), ToBits(b))
  }

  lemma {:induction false} XorUndone(a: bv8, b: bv8)
    ensures Xor(a, Xor(a, b)) == b
  {
  }

  /** A damaged packet is accepted exactly when the damaged bits form a valid packet themselves. */
  lemma {:induction false} AcceptedErrors(sent: seq<byte>, got: seq<byte>)
    requires GetValidPacket(sent).Some? && |got| == |sent|
    ensures GetValidPacket(got).Some? <==> Codeword(MAXIM, Difference(sent, got))
  {
    ValidIsCodeword(sent);
    ValidIsCodeword(got);
    MaximIsAdditive();
    MaximCancels();
    var a, b, d := ToBits(sent), ToBits(got), Difference(sent, got);
    UndetectedErrors(MAXIM, a, d);
    var damaged := Sum(MAXIM, a, d);
    forall k | 0 <= k < |b| ensures damaged[k] == b[k] {
      XorUndone(a[k], b[k]);
    }
    assert damaged == b;
  }

  function Bit(v: bv8, mask: bv8): nat {
    if v & mask != 0 then 1 else 0
  }

  function Ones(v: bv8): nat {
    Bit(v, 0x01) + Bit(v, 0x02) + Bit(v, 0x04) + Bit(v, 0x08) + Bit(v, 0x10) + Bit(v, 0x20) + Bit(v, 0x40) + Bit(v, 0x80)
  }

  predicate OddLow(v: bv8) {
    ((v & 0x01 != 0) != (v & 0x02 != 0)) != ((v & 0x04 != 0) != (v & 0x08 != 0))
  }

  predicate OddHigh(v: bv8) {
    ((v & 0x10 != 0) != (v & 0x20 != 0)) != ((v & 0x40 != 0) != (v & 0x80 != 0))
  }

  predicate Odd(v: bv8) {
    OddLow(v) != OddHigh(v)
  }

  lemma {:induction false} OddIsOddOnes(v: bv8)
    ensures Odd(v) <==> Ones(v) % 2 == 1
  {
  }

  lemma {:induction false} OddOfTable(v: bv8)
    ensures Odd(Table(v)) == Odd(v)
  {
  }

  lemma {:induction false} OddLowOfXor(a: bv8, b: bv8)
    ensures OddLow(a ^ b) == (OddLow(a) != OddLow(b))
  {
  }

  lemma {:induction false} OddHighOfXor(a: bv8, b: bv8)
    ensures OddHigh(a ^ b) == (OddHigh(a) != OddHigh(b))
  {
  }

  lemma {:induction false} OddOfXor(a: bv8, b: bv8)
    ensures Odd(Xor(a, b)) == (Odd(a) != Odd(b))
  {
    OddLowOfXor(a, b);
    OddHighOfXor(a, b);
  }

  lemma {:induction false} OddIsParity()
    ensures IsParity(MAXIM, Odd)
  {
    forall a: bv8, b: bv8 ensures Odd(MAXIM.add(a, b)) == (Odd(a) != Odd(b)) {
      OddOfXor(a, b);
    }
    forall a: bv8 ensures Odd(MAXIM.step(a)) == Odd(a) {
      OddOfTable(a);
    }
  }

  /** Every odd number of flipped bits is noticed, in packets of any length. */
  lemma {:induction false} OddFlipsAreRejected(sent: seq<byte>, got: seq<byte>)
    requires GetValidPacket(sent).Some? && |got| == |sent| && Weight(Ones, Difference(sent, got)) % 2 == 1
    ensures GetValidPacket(got) == None
  {
    AcceptedErrors(sent, got);
    OddIsParity();
    forall v: bv8 ensures Odd(v) <==> Ones(v) % 2 == 1 {
      OddIsOddOnes(v);
    }
    OddTotalIsOddWeight(Odd, Ones, Difference(sent, got));
    if Codeword(MAXIM, Difference(sent, got)) {
      CodewordIsEven(MAXIM, Odd, Difference(sent, got));
    }
  }

  /** Eight bits in a row that begin with bit `k` of one byte: the wire carries the low bits first. */
  predicate Burst(first: bv8, second: bv8, k: nat) {
    && k <= 7
    && match k
       case 0 => second == 0
       case 1 => first & 0x01 == 0 && second & 0xfe == 0
       case 2 => first & 0x03 == 0 && second & 0xfc == 0
       case 3 => first & 0x07 == 0 && second & 0xf8 == 0
       case 4 => first & 0x0f == 0 && second & 0xf0 == 0
       case 5 => first & 0x1f == 0 && second & 0xe0 == 0
       case 6 => first & 0x3f == 0 && second & 0xc0 == 0
       case _ => first & 0x7f == 0 && second & 0x80 == 0
  }

  lemma {:induction false} BurstLeavesTrace(first: bv8, second: bv8, k: nat)
    requires Burst(first, second, k) && (first != 0 || second != 0)
    ensures Table(first) != second
  {
  }

  predicate DiffersOnlyIn(sent: seq<byte>, got: seq<byte>, from: nat, to: nat) {
    |got| == |sent| && forall k :: 0 <= k < |sent| && !(from <= k < to) ==> got[k] == sent[k]
  }

  lemma {:induction false} DifferentBits(a: byte, b: byte)
    ensures Xor(a as bv8, b as bv8) == 0 <==> a == b
  {
    if a as bv8 == b as bv8 {
      IntOfBits(a);
      IntOfBits(b);
    }
  }

  lemma {:induction false} DifferenceAt(sent: seq<byte>, got: seq<byte>)
    requires |got| == |sent|
    ensures forall k :: 0 <= k < |sent| ==> (Difference(sent, got)[k] == 0 <==> got[k] == sent[k])
  {
    forall k | 0 <= k < |sent| ensures Difference(sent, got)[k] == 0 <==> got[k] == sent[k] {
      DifferentBits(sent[k], got[k]);
    }
  }

  /** Every change confined to one byte is noticed. */
  lemma {:induction false} OneByteIsRejected(sent: seq<byte>, got: seq<byte>, at: nat)
    requires GetValidPacket(sent).Some? && at < |sent| && DiffersOnlyIn(sent, got, at, at + 1) && got[at] != sent[at]
    ensures GetValidPacket(got) == None
  {
    AcceptedErrors(sent, got);
    DifferenceAt(sent, got);
    MaximIsExclusive();
    OneByteErrorAt(MAXIM, Difference(sent, got), at);
  }

  /** Every change confined to eight consecutive bits on the wire is noticed. */
  lemma {:induction false} BurstIsRejected(sent: seq<byte>, got: seq<byte>, at: nat, k: nat)
    requires GetValidPacket(sent).Some? && at + 1 < |sent| && DiffersOnlyIn(sent, got, at, at + 2) && got != sent
    requires Burst(Difference(sent, got)[at], Difference(sent, got)[at + 1], k)
    ensures GetValidPacket(got) == None
  {
    var d := Difference(sent, got);
    DifferenceAt(sent, got);
    assert d[at] != 0 || d[at + 1] != 0;
    BurstLeavesTrace(d[at], d[at + 1], k);
    TwoBytesAreRejected(sent, got, at);
  }

  lemma {:induction false} TwoBytesAreRejected(sent: seq<byte>, got: seq<byte>, at: nat)
    requires GetValidPacket(sent).Some? && at + 1 < |sent| && DiffersOnlyIn(sent, got, at, at + 2)
    requires Table(Difference(sent, got)[at]) != Difference(sent, got)[at + 1]
    ensures GetValidPacket(got) == None
  {
    AcceptedErrors(sent, got);
    DifferenceAt(sent, got);
    MaximIsExclusive();
    TwoByteErrorAt(MAXIM, Difference(sent, got), at);
  }
}
