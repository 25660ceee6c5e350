/**
 Checksums of a linear register: each byte is added to the register, which then takes a step.
 What such a checksum detects follows from a few laws of the addition and the step.
 */
module LinearCode {

  datatype Register<!T(!new)> = Register(zero: T, add: (T, T) -> T, step: T -> T)

  /** The step distributes over the addition, in which order does not matter. */
  ghost predicate Additive<T(!new)>(g: Register<T>) {
    Distributes(g) && Interchanges(g) && g.add(g.zero, g.zero) == g.zero
  }

  ghost predicate Distributes<T(!new)>(g: Register<T>) {
    forall a, b :: g.step(g.add(a, b)) == g.add(g.step(a), g.step(b))
  }

  ghost predicate Interchanges<T(!new)>(g: Register<T>) {
    forall a, b, c, d :: g.add(g.add(a, b), g.add(c, d)) == g.add(g.add(a, c), g.add(b, d))
  }

  ghost predicate Cancels<T(!new)>(g: Register<T>) {
    forall a, b, c :: g.add(a, b) == g.add(a, c) ==> b == c
  }

  /** Adding is an exclusive or, and the step loses nothing. */
  ghost predicate Exclusive<T(!new)>(g: Register<T>) {
    && (forall a :: g.add(a, g.zero) == a && g.add(g.zero, a) == a)
    && (forall a, b :: g.add(a, b) == g.zero <==> a == b)
    && (forall a :: g.step(a) == g.zero <==> a == g.zero)
  }

  function Checksum<T(!new)>(g: Register<T>, data: seq<T>): T {
    if data == [] then g.zero else g.step(g.add(data[|data| - 1], Checksum(g, data[..|data| - 1])))
  }

  function Sum<T(!new)>(g: Register<T>, a: seq<T>, b: seq<T>): (r: seq<T>)
    requires |a| == |b|
    ensures |r| == |a|
  {
    seq(|a|, k requires 0 <= k < |a| => g.add(a[k], b[k]))
  }

  /** A packet whose last byte is the checksum of the rest. */
  ghost predicate Codeword<T(!new)>(g: Register<T>, packet: seq<T>) {
    packet != [] && Checksum(g, packet[..|packet| - 1]) == packet[|packet| - 1]
  }

  lemma {:induction false} ChecksumIsLinear<T(!new)>(g: Register<T>, a: seq<T>, b: seq<T>)
    requires Additive(g) && |a| == |b|
    ensures Checksum(g, Sum(g, a, b)) == g.add(Checksum(g, a), Checksum(g, b))
  {
    if a != [] {
      var n := |a| - 1;
      ChecksumIsLinear(g, a[..n], b[..n]);
      assert Sum(g, a, b)[..n] == Sum(g, a[..n], b[..n]);
      var x, y := Checksum(g, a[..n]), Checksum(g, b[..n]);
      assert g.add(g.add(a[n], b[n]), g.add(x, y)) == g.add(g.add(a[n], x), g.add(b[n], y));
    }
  }

  /** An error goes unnoticed exactly when the error pattern itself is a valid packet. */
  lemma {:induction false} UndetectedErrors<T(!new)>(g: Register<T>, packet: seq<T>, error: seq<T>)
    requires Additive(g) && Cancels(g) && Codeword(g, packet) && |error| == |packet|
    ensures Codeword(g, Sum(g, packet, error)) <==> Codeword(g, error)
  {
    var n := |packet| - 1;
    ChecksumIsLinear(g, packet[..n], error[..n]);
    assert Sum(g, packet, error)[..n] == Sum(g, packet[..n], error[..n]);
  }

  // ---- parity ----

  /** A property of bytes that addition combines as exclusive or and the step keeps. */
  ghost predicate IsParity<T(!new)>(g: Register<T>, odd: T -> bool) {
    && !odd(g.zero)
    && (forall a, b :: odd(g.add(a, b)) == (odd(a) != odd(b)))
    && (forall a :: odd(g.step(a)) == odd(a))
  }

  ghost predicate OddTotal<T(!new)>(odd: T -> bool, data: seq<T>) {
    data != [] && odd(data[|data| - 1]) != OddTotal(odd, data[..|data| - 1])
  }

  lemma {:induction false} ChecksumKeepsParity<T(!new)>(g: Register<T>, odd: T -> bool, data: seq<T>)
    requires IsParity(g, odd)
    ensures odd(Checksum(g, data)) == OddTotal(odd, data)
  {
    if data != [] {
      ChecksumKeepsParity(g, odd, data[..|data| - 1]);
    }
  }

  lemma {:induction false} CodewordIsEven<T(!new)>(g: Register<T>, odd: T -> bool, packet: seq<T>)
    requires IsParity(g, odd) && Codeword(g, packet)
    ensures !OddTotal(odd, packet)
  {
    ChecksumKeepsParity(g, odd, packet[..|packet| - 1]);
  }

  function Weight<T>(ones: T -> nat, data: seq<T>): nat {
    if data == [] then 0 else Weight(ones, data[..|data| - 1]) + ones(data[|data| - 1])
  }

  lemma {:induction false} OddTotalIsOddWeight<T(!new)>(odd: T -> bool, ones: T -> nat, data: seq<T>)
    requires forall v :: odd(v) <==> ones(v) % 2 == 1
    ensures OddTotal(odd, data) <==> Weight(ones, data) % 2 == 1
  {
    if data != [] {
      OddTotalIsOddWeight(odd, ones, data[..|data| - 1]);
    }
  }

  // ---- errors in one place ----

  ghost predicate AllZero<T(!new)>(g: Register<T>, data: seq<T>) {
    forall k :: 0 <= k < |data| ==> data[k] == g.zero
  }

  lemma {:induction false} ChecksumOfZeros<T(!new)>(g: Register<T>, data: seq<T>)
    requires Exclusive(g) && AllZero(g, data)
    ensures Checksum(g, data) == g.zero
  {
    if data != [] {
      ChecksumOfZeros(g, data[..|data| - 1]);
    }
  }

  /** Behind the error the register never becomes zero again. */
  lemma {:induction false} ChecksumStaysNonzero<T(!new)>(g: Register<T>, head: seq<T>, zeros: seq<T>)
    requires Exclusive(g) && Checksum(g, head) != g.zero && AllZero(g, zeros)
    ensures Checksum(g, head + zeros) != g.zero
  {
    if zeros == [] {
      assert head + zeros == head;
    } else {
      var init := zeros[..|zeros| - 1];
      ChecksumStaysNonzero(g, head, init);
      assert (head + zeros)[..|head + zeros| - 1] == head + init;
    }
  }

  /** An error pattern whose first `n` bytes leave the register nonzero, and which is zero behind them. */
  lemma {:induction false} LocalErrorIsNoCodeword<T(!new)>(g: Register<T>, head: seq<T>, zeros: seq<T>)
    requires Exclusive(g) && Checksum(g, head) != g.zero && AllZero(g, zeros) && zeros != []
    ensures !Codeword(g, head + zeros)
  {
    var init := zeros[..|zeros| - 1];
    ChecksumStaysNonzero(g, head, init);
    assert (head + zeros)[..|head + zeros| - 1] == head + init;
  }

  lemma {:induction false} ChecksumOfFirst<T(!new)>(g: Register<T>, zeros: seq<T>, x: T)
    requires Exclusive(g) && AllZero(g, zeros)
    ensures Checksum(g, zeros + [x]) == g.step(x)
  {
    ChecksumOfZeros(g, zeros);
    assert (zeros + [x])[..|zeros|] == zeros;
  }

  /** An error in one byte is noticed wherever it is. */
  lemma {:induction false} OneByteError<T(!new)>(g: Register<T>, before: seq<T>, x: T, after: seq<T>)
    requires Exclusive(g) && AllZero(g, before) && AllZero(g, after) && x != g.zero
    ensures !Codeword(g, before + [x] + after)
  {
    ChecksumOfFirst(g, before, x);
    if after == [] {
      var packet := before + [x] + after;
      assert packet[..|packet| - 1] == before;
      ChecksumOfZeros(g, before);
    } else {
      LocalErrorIsNoCodeword(g, before + [x], after);
    }
  }

  /** An error in two neighbouring bytes is noticed unless the second one is the step of the first. */
  lemma {:induction false} TwoByteError<T(!new)>(g: Register<T>, before: seq<T>, x: T, y: T, after: seq<T>)
    requires Exclusive(g) && AllZero(g, before) && AllZero(g, after) && g.step(x) != y
    ensures !Codeword(g, before + [x, y] + after)
  {
    ChecksumOfFirst(g, before, x);
    var head := before + [x, y];
    assert head[..|head| - 1] == before + [x];
    if after == [] {
      assert head + after == head;
    } else {
      assert Checksum(g, head) == g.step(g.add(y, g.step(x)));
      LocalErrorIsNoCodeword(g, head, after);
    }
  }

  lemma {:induction false} OneByteErrorAt<T(!new)>(g: Register<T>, d: seq<T>, at: nat)
    requires Exclusive(g) && at < |d| && d[at] != g.zero && AllZero(g, d[..at]) && AllZero(g, d[at + 1..])
    ensures !Codeword(g, d)
  {
    assert d == d[..at] + [d[at]] + d[at + 1..];
    OneByteError(g, d[..at], d[at], d[at + 1..]);
  }

  lemma {:induction false} TwoByteErrorAt<T(!new)>(g: Register<T>, d: seq<T>, at: nat)
    requires Exclusive(g) && at + 1 < |d| && g.step(d[at]) != d[at + 1] && AllZero(g, d[..at]) && AllZero(g, d[at + 2..])
    ensures !Codeword(g, d)
  {
    assert d == d[..at] + [d[at], d[at + 1]] + d[at + 2..];
    TwoByteError(g, d[..at], d[at], d[at + 1], d[at + 2..]);
  }
}
