/** The padded base64 of section 4 of RFC 4648: an encoder on 3-byte chunks, a decoder on a running bit accumulator. */
module Base64 {
  import opened Bytes

  function Letter(v: nat): char
    requires v < 64
  {
    if v < 26 then (65 + v) as char
    else if v < 52 then (97 + (v - 26)) as char
    else if v < 62 then (48 + (v - 52)) as char
    else if v == 62 then '+' else '/'
  }

  datatype Symbol = Digit(value: nat) | Skipped | Invalid

  function Read(c: char): Symbol {
    if 'A' <= c <= 'Z' then Digit(c as int - 65)
    else if 'a' <= c <= 'z' then Digit(c as int - 97 + 26)
    else if '0' <= c <= '9' then Digit(c as int - 48 + 52)
    else if c == '+' then Digit(62)
    else if c == '/' then Digit(63)
    else if c == '=' || c == '\r' || c == '\n' then Skipped
    else Invalid
  }

  lemma {:induction false} ReadLetter(v: nat)
    requires v < 64
    ensures Read(Letter(v)) == Digit(v)
  {
  }

  /** Table 1 of RFC 4648, in order. */
  const UPPER := "ABCDEFGHIJKLMNOPQRSTUVWXYZ"
  const LOWER := "abcdefghijklmnopqrstuvwxyz"
  const DECIMAL := "0123456789"
  const ALPHABET := UPPER + LOWER + DECIMAL + "+/"

  lemma {:induction false} LettersInOrder(v: nat)
    requires v < 64
    ensures |ALPHABET| == 64 && Letter(v) == ALPHABET[v]
  {
    if v < 26 {
      assert UPPER[v] == (65 + v) as char;
    } else if v < 52 {
      assert LOWER[v - 26] == (97 + (v - 26)) as char;
    } else if v < 62 {
      assert DECIMAL[v - 52] == (48 + (v - 52)) as char;
    }
  }

  /** A character is read as the position at which it stands in the alphabet; three others are passed over. */
  lemma {:induction false} ReadIff(c: char, v: nat)
    requires v < 64
    ensures |ALPHABET| == 64 && (Read(c) == Digit(v) <==> c == ALPHABET[v])
    ensures Read(c).Digit? ==> Read(c).value < 64
    ensures Read(c).Skipped? <==> c == '=' || c == '\r' || c == '\n'
  {
    LettersInOrder(v);
    ReadLetter(v);
  }

  /** The four characters of a chunk of one to three bytes. */
  function EncodeChunk(chunk: seq<byte>): (r: string)
    requires 1 <= |chunk| <= 3
    ensures |r| == 4
  {
    var b1: int, b2: int := if |chunk| > 1 then chunk[1] else 0, if |chunk| > 2 then chunk[2] else 0;
    var b0: int := chunk[0];
    var n := b0 * 0x1_0000 + b1 * 0x100 + b2;
    [Letter(n / 0x4_0000 % 64),
     Letter(n / 0x1000 % 64),
     if |chunk| > 1 then Letter(n / 64 % 64) else '=',
     if |chunk| > 2 then Letter(n % 64) else '=']
  }

  function Encode(data: seq<byte>): string {
    if data == [] then ""
    else if |data| <= 3 then EncodeChunk(data)
    else EncodeChunk(data[..3]) + Encode(data[3..])
  }

  function ChunkEnd(data: seq<byte>, i: nat): nat {
    if i + 3 < |data| then i + 3 else |data|
  }

  /** What the loop writes from byte `i` on. */
  function EncodeFrom(data: seq<byte>, i: nat): string
    requires i <= |data|
    decreases |data| - i
  {
    if i == |data| then "" else EncodeChunk(data[i..ChunkEnd(data, i)]) + EncodeFrom(data, ChunkEnd(data, i))
  }

  lemma {:induction false} EncodeFromIsEncode(data: seq<byte>, i: nat)
    requires i <= |data|
    ensures EncodeFrom(data, i) == Encode(data[i..])
    decreases |data| - i
  {
    if i < |data| {
      var rest, end := data[i..], ChunkEnd(data, i);
      EncodeFromIsEncode(data, end);
      EncodeFirst(rest, end - i, data[i..end], data[end..]);
    }
  }

  lemma {:induction false} EncodeFirst(data: seq<byte>, n: nat, chunk: seq<byte>, rest: seq<byte>)
    requires data != [] && n == ChunkEnd(data, 0) && chunk == data[..n] && rest == data[n..]
    ensures Encode(data) == EncodeChunk(chunk) + Encode(rest)
  {
    if |data| <= 3 {
      assert chunk == data;
    }
  }

  method EncodeOne(data: seq<byte>, i: nat) returns (chunk: string, end: nat)
    requires i < |data|
    ensures i < end <= |data| && EncodeFrom(data, i) == chunk + EncodeFrom(data, end)
  {
    end := if i + 3 < |data| then i + 3 else |data|;
    chunk := EncodeChunk(data[i..end]);
  }

  method EncodeBytes(data: seq<byte>) returns (out: string)
    ensures out == Encode(data)
  {
    out := "";
    var i := 0;
    while i < |data|
      invariant i <= |data| && out + EncodeFrom(data, i) == EncodeFrom(data, 0)
    {
      var chunk, end := EncodeOne(data, i);
      assert out + (chunk + EncodeFrom(data, end)) == out + chunk + EncodeFrom(data, end);
      out, i := out + chunk, end;
    }
    assert data[0..] == data;
    EncodeFromIsEncode(data, 0);
  }

  // ---- decoding ----

  predicate Accumulator(acc: nat, bits: nat) {
    (bits == 0 && acc == 0) || (bits == 2 && acc < 4) || (bits == 4 && acc < 16) || (bits == 6 && acc < 64)
  }

  /** The accumulator after a digit, and the byte it gives if it is full. */
  function Push(acc: nat, bits: nat, v: nat): (r: (Option<byte>, nat, nat))
    requires Accumulator(acc, bits) && v < 64
    ensures Accumulator(r.1, r.2)
  {
    var acc := acc * 64 + v;
    match bits
    case 0 => (None, acc, 6)
    case 2 => (Some(acc), 0, 0)
    case 4 => (Some(acc / 4), acc % 4, 2)
    case _ => (Some(acc / 16), acc % 16, 4)
  }

  function Prepend(b: Option<byte>, r: Result<seq<byte>, char>): Result<seq<byte>, char> {
    match r
    case Err(c) => Err(c)
    case Ok(rest) => match b case None => Ok(rest) case Some(x) => Ok([x] + rest)
  }

  function DecodeFrom(text: string, acc: nat, bits: nat): Result<seq<byte>, char>
    requires Accumulator(acc, bits)
    decreases |text|
  {
    if text == "" then Ok([])
    else match Read(text[0])
      case Invalid => Err(text[0])
      case Skipped => DecodeFrom(text[1..], acc, bits)
      case Digit(v) =>
        var (b, acc', bits') := Push(acc, bits, v);
        Prepend(b, DecodeFrom(text[1..], acc', bits'))
  }

  function Decode(text: string): Result<seq<byte>, char> {
    DecodeFrom(text, 0, 0)
  }

  function PrependAll(out: seq<byte>, r: Result<seq<byte>, char>): Result<seq<byte>, char> {
    match r case Err(c) => Err(c) case Ok(rest) => Ok(out + rest)
  }

  lemma {:induction false} DigitTaken(out: seq<byte>, rest: string, acc: nat, bits: nat, v: nat)
    requires Accumulator(acc, bits) && v < 64
    ensures
      var (b, acc', bits') := Push(acc, bits, v);
      var tail := DecodeFrom(rest, acc', bits');
      PrependAll(out, Prepend(b, tail)) == PrependAll(if b.Some? then out + [b.value] else out, tail)
  {
    var (b, acc', bits') := Push(acc, bits, v);
    var tail := DecodeFrom(rest, acc', bits');
    if b.Some? && tail.Ok? {
      assert out + ([b.value] + tail.value) == (out + [b.value]) + tail.value;
    }
  }

  method DecodeText(text: string) returns (r: Result<seq<byte>, char>)
    ensures r == Decode(text)
  {
    var out: seq<byte> := [];
    var acc: nat, bits: nat := 0, 0;
    assert text[0..] == text && (Decode(text).Ok? ==> out + Decode(text).value == Decode(text).value);
    for k := 0 to |text|
      invariant Accumulator(acc, bits)
      invariant Decode(text) == PrependAll(out, DecodeFrom(text[k..], acc, bits))
    {
      assert text[k..][1..] == text[k + 1..];
      match Read(text[k]) {
        case Invalid => return Err(text[k]);
        case Skipped =>
        case Digit(v) =>
          DigitTaken(out, text[k + 1..], acc, bits, v);
          acc := acc * 64 + v;
          bits := bits + 6;
          if bits >= 8 {
            bits := bits - 8;
            var size := if bits == 0 then 1 else if bits == 2 then 4 else 16;
            out := out + [acc / size];
            acc := acc % size;
          }
      }
    }
    assert text[|text|..] == "" && out + [] == out;
    r := Ok(out);
  }

  // ---- round trip ----

  type sextet = x: int | 0 <= x < 64

  /** The digits of a text, up to its first invalid character. */
  function Digits(text: string): Result<seq<sextet>, char> {
    if text == "" then Ok([])
    else match Read(text[0])
      case Invalid => Err(text[0])
      case Skipped => Digits(text[1..])
      case Digit(v) =>
        match Digits(text[1..]) case Err(c) => Err(c) case Ok(rest) => Ok([v] + rest)
  }

  /** The bytes that the accumulator gives for a list of digits. */
  function Assemble(digits: seq<sextet>, acc: nat, bits: nat): seq<byte>
    requires Accumulator(acc, bits)
    decreases |digits|
  {
    if digits == [] then []
    else
      var (b, acc', bits') := Push(acc, bits, digits[0]);
      (if b.Some? then [b.value] else []) + Assemble(digits[1..], acc', bits')
  }

  lemma {:induction false} DecodeAssemblesDigits(text: string, acc: nat, bits: nat)
    requires Accumulator(acc, bits)
    ensures DecodeFrom(text, acc, bits) ==
            match Digits(text) case Err(c) => Err(c) case Ok(ds) => Ok(Assemble(ds, acc, bits))
    decreases |text|
  {
    if text != "" {
      match Read(text[0])
      case Invalid =>
      case Skipped => DecodeAssemblesDigits(text[1..], acc, bits);
      case Digit(v) =>
        DecodeAssemblesDigits(text[1..], Push(acc, bits, v).1, Push(acc, bits, v).2);
        if Digits(text).Ok? {
          assert Digits(text).value[1..] == Digits(text[1..]).value;
          var tail := Assemble(Digits(text[1..]).value, Push(acc, bits, v).1, Push(acc, bits, v).2);
          assert [] + tail == tail;
        }
    }
  }

  /** The digits that stand for a chunk: one more than it has bytes. */
  function Sextets(chunk: seq<byte>): seq<sextet>
    requires 1 <= |chunk| <= 3
  {
    var b1: int, b2: int := if |chunk| > 1 then chunk[1] else 0, if |chunk| > 2 then chunk[2] else 0;
    [chunk[0] / 4, chunk[0] % 4 * 16 + b1 / 16] +
    (if |chunk| > 1 then [b1 % 16 * 4 + b2 / 64] else []) +
    (if |chunk| > 2 then [b2 % 64] else [])
  }

  lemma {:induction false} AssembleOne(v: sextet, rest: seq<sextet>, acc: nat, bits: nat)
    requires Accumulator(acc, bits)
    ensures
      var (b, acc', bits') := Push(acc, bits, v);
      Assemble([v] + rest, acc, bits) == (if b.Some? then [b.value] else []) + Assemble(rest, acc', bits')
  {
    assert ([v] + rest)[1..] == rest;
  }

  /** What the digits of a chunk do to the accumulator. */
  lemma {:induction false} PushSextets(b0: byte, b1: byte, b2: byte)
    ensures Push(0, 0, b0 / 4) == (None, b0 / 4, 6)
    ensures Push(b0 / 4, 6, b0 % 4 * 16 + b1 / 16) == (Some(b0), b1 / 16, 4)
    ensures Push(b1 / 16, 4, b1 % 16 * 4 + b2 / 64) == (Some(b1), b2 / 64, 2)
    ensures Push(b2 / 64, 2, b2 % 64) == (Some(b2), 0, 0)
  {
  }

  lemma {:induction false} AssembleFull(chunk: seq<byte>, rest: seq<sextet>)
    requires |chunk| == 3
    ensures Assemble(Sextets(chunk) + rest, 0, 0) == chunk + Assemble(rest, 0, 0)
  {
    var b0: int, b1: int, b2: int := chunk[0], chunk[1], chunk[2];
    PushSextets(b0, b1, b2);
    assert Sextets(chunk) == [b0 / 4, b0 % 4 * 16 + b1 / 16, b1 % 16 * 4 + b2 / 64, b2 % 64];
    AssembleFour(chunk, b0 / 4, b0 % 4 * 16 + b1 / 16, b1 % 16 * 4 + b2 / 64, b2 % 64, b0 / 4, b1 / 16, b2 / 64, rest);
  }

  /** Four digits that give three bytes. */
  lemma {:induction false} AssembleFour(
      chunk: seq<byte>, v0: sextet, v1: sextet, v2: sextet, v3: sextet, acc1: nat, acc2: nat, acc3: nat, rest: seq<sextet>)
    requires |chunk| == 3 && acc1 < 64 && acc2 < 16 && acc3 < 4
    requires Push(0, 0, v0) == (None, acc1, 6) && Push(acc1, 6, v1) == (Some(chunk[0]), acc2, 4)
    requires Push(acc2, 4, v2) == (Some(chunk[1]), acc3, 2) && Push(acc3, 2, v3) == (Some(chunk[2]), 0, 0)
    ensures Assemble([v0, v1, v2, v3] + rest, 0, 0) == chunk + Assemble(rest, 0, 0)
  {
    var d3: seq<sextet> := [v3] + rest;
    var d2: seq<sextet> := [v2] + d3;
    var d1: seq<sextet> := [v1] + d2;
    assert [v0, v1, v2, v3] + rest == [v0] + d1;
    AssembleOne(v0, d1, 0, 0);
    AssembleOne(v1, d2, acc1, 6);
    AssembleOne(v2, d3, acc2, 4);
    AssembleOne(v3, rest, acc3, 2);
    assert chunk == [chunk[0]] + [chunk[1]] + [chunk[2]];
  }

  /** The digits of a short chunk leave bits in the accumulator that give no byte. */
  lemma {:induction false} AssembleShort(chunk: seq<byte>)
    requires 1 <= |chunk| <= 2
    ensures Assemble(Sextets(chunk), 0, 0) == chunk
  {
    if |chunk| == 1 {
      AssembleSingle(chunk[0]);
    } else {
      AssembleDouble(chunk[0], chunk[1]);
    }
  }

  lemma {:induction false} AssembleSingle(b0: byte)
    ensures Assemble(Sextets([b0]), 0, 0) == [b0]
  {
    var d1: seq<sextet> := [b0 % 4 * 16] + [];
    assert Sextets([b0]) == [b0 / 4] + d1;
    PushSextets(b0, 0, 0);
    AssembleOne(b0 / 4, d1, 0, 0);
    AssembleOne(b0 % 4 * 16, [], b0 / 4, 6);
  }

  lemma {:induction false} AssembleDouble(b0: byte, b1: byte)
    ensures Assemble(Sextets([b0, b1]), 0, 0) == [b0, b1]
  {
    var d2: seq<sextet> := [b1 % 16 * 4] + [];
    var d1: seq<sextet> := [b0 % 4 * 16 + b1 / 16] + d2;
    assert Sextets([b0, b1]) == [b0 / 4] + d1;
    PushSextets(b0, b1, 0);
    AssembleOne(b0 / 4, d1, 0, 0);
    AssembleOne(b0 % 4 * 16 + b1 / 16, d2, b0 / 4, 6);
    AssembleOne(b1 % 16 * 4, [], b1 / 16, 4);
  }

  /** The shifts and masks of the encoder take the sextets. */
  lemma {:induction false} ChunkNumber(b0: byte, b1: byte, b2: byte)
    ensures
      var n := 0x1_0000 * b0 + 0x100 * b1 + b2;
      && n / 0x4_0000 % 64 == b0 / 4 && n / 0x1000 % 64 == b0 % 4 * 16 + b1 / 16
      && n / 64 % 64 == b1 % 16 * 4 + b2 / 64 && n % 64 == b2 % 64
  {
    LowDigits(b0, b1, b2);
    HighDigits(b0, b1, b2);
  }

  lemma {:induction false} LowDigits(b0: byte, b1: byte, b2: byte)
    ensures
      var n := 0x1_0000 * b0 + 0x100 * b1 + b2;
      n / 64 % 64 == b1 % 16 * 4 + b2 / 64 && n % 64 == b2 % 64
  {
    LastDigits(16 * b0 + b1 / 16, b1 % 16 * 4 + b2 / 64, b2 % 64);
  }

  lemma {:induction false} LastDigits(high: nat, low: nat, last: nat)
    requires low < 64 && last < 64
    ensures
      var n := 64 * (64 * high + low) + last;
      n / 64 % 64 == low && n % 64 == last
  {
    assert (64 * (64 * high + low) + last) / 64 == 64 * high + low;
  }

  lemma {:induction false} HighDigits(b0: byte, b1: byte, b2: byte)
    ensures
      var n := 0x1_0000 * b0 + 0x100 * b1 + b2;
      n / 0x4_0000 % 64 == b0 / 4 && n / 0x1000 % 64 == b0 % 4 * 16 + b1 / 16
  {
    var n: int := 0x1_0000 * b0 + 0x100 * b1 + b2;
    assert n / 0x1000 == 16 * b0 + b1 / 16;
    assert n / 0x4_0000 == b0 / 4;
  }

  function Letters(digits: seq<sextet>): string {
    if digits == [] then "" else [Letter(digits[0])] + Letters(digits[1..])
  }

  lemma {:induction false} DigitsOfLetter(v: sextet, rest: string)
    ensures Digits([Letter(v)] + rest) == match Digits(rest) case Err(c) => Err(c) case Ok(ds) => Ok([v] + ds)
  {
    ReadLetter(v);
    assert ([Letter(v)] + rest)[1..] == rest;
  }

  lemma {:induction false} DigitsOfLetters(digits: seq<sextet>, rest: string)
    ensures Digits(Letters(digits) + rest) == match Digits(rest) case Err(c) => Err(c) case Ok(ds) => Ok(digits + ds)
  {
    if digits == [] {
      assert Letters(digits) + rest == rest;
      assert Digits(rest).Ok? ==> digits + Digits(rest).value == Digits(rest).value;
    } else {
      var more := Letters(digits[1..]) + rest;
      DigitsOfLetters(digits[1..], rest);
      DigitsOfLetter(digits[0], more);
      assert Letters(digits) + rest == [Letter(digits[0])] + more;
      assert Digits(rest).Ok? ==> [digits[0]] + (digits[1..] + Digits(rest).value) == digits + Digits(rest).value;
    }
  }

  lemma {:induction false} DigitsOfPadding(n: nat, rest: string)
    requires n <= 2
    ensures Digits("=="[..n] + rest) == Digits(rest)
  {
    if n == 0 {
      assert "=="[..0] + rest == rest;
    } else {
      var text := "=="[..n] + rest;
      assert text[0] == '=' && text[1..] == "=="[..n - 1] + rest;
      DigitsOfPadding(n - 1, rest);
    }
  }

  lemma {:induction false} ChunkIsLettersAndPadding(chunk: seq<byte>)
    requires 1 <= |chunk| <= 3
    ensures EncodeChunk(chunk) == Letters(Sextets(chunk)) + "=="[..3 - |chunk|]
  {
    ChunkNumber(chunk[0], if |chunk| > 1 then chunk[1] else 0, if |chunk| > 2 then chunk[2] else 0);
    var d := Sextets(chunk);
    assert Letters(d) == [Letter(d[0])] + ([Letter(d[1])] + Letters(d[2..]));
    assert |d| >= 3 ==> Letters(d[2..]) == [Letter(d[2])] + Letters(d[3..]);
    assert |d| == 4 ==> Letters(d[3..]) == [Letter(d[3])] + Letters(d[4..]);
  }

  /** The digits of an encoded text. */
  function AllSextets(data: seq<byte>): seq<sextet> {
    if data == [] then []
    else if |data| <= 3 then Sextets(data)
    else Sextets(data[..3]) + AllSextets(data[3..])
  }

  lemma {:induction false} DigitsOfChunk(chunk: seq<byte>, rest: string, digits: seq<sextet>)
    requires 1 <= |chunk| <= 3 && Digits(rest) == Ok(digits)
    ensures Digits(EncodeChunk(chunk) + rest) == Ok(Sextets(chunk) + digits)
  {
    var padding := "=="[..3 - |chunk|];
    ChunkIsLettersAndPadding(chunk);
    assert EncodeChunk(chunk) + rest == Letters(Sextets(chunk)) + (padding + rest);
    DigitsOfPadding(3 - |chunk|, rest);
    DigitsOfLetters(Sextets(chunk), padding + rest);
  }

  lemma {:induction false} DigitsOfEncoded(data: seq<byte>)
    ensures Digits(Encode(data)) == Ok(AllSextets(data))
  {
    if |data| > 3 {
      DigitsOfEncoded(data[3..]);
      DigitsOfChunk(data[..3], Encode(data[3..]), AllSextets(data[3..]));
    } else if data != [] {
      DigitsOfChunk(data, "", []);
      assert EncodeChunk(data) + "" == EncodeChunk(data) && Sextets(data) + [] == Sextets(data);
    }
  }

  lemma {:induction false} AssembleAll(data: seq<byte>)
    ensures Assemble(AllSextets(data), 0, 0) == data
  {
    if |data| > 3 {
      AssembleAll(data[3..]);
      AssembleFull(data[..3], AllSextets(data[3..]));
    } else if |data| == 3 {
      AssembleFull(data, []);
      assert Sextets(data) + [] == Sextets(data);
    } else if data != [] {
      AssembleShort(data);
    }
  }

  /** Decoding gives back what was encoded. */
  lemma {:induction false} DecodeEncode(data: seq<byte>)
    ensures Decode(Encode(data)) == Ok(data)
  {
    DecodeAssemblesDigits(Encode(data), 0, 0);
    DigitsOfEncoded(data);
    AssembleAll(data);
  }

  // ---- line breaks ----

  function WithoutLineBreaks(text: string): string {
    if text == "" then ""
    else
      var rest := WithoutLineBreaks(text[1..]);
      if text[0] == '\r' || text[0] == '\n' then rest else [text[0]] + rest
  }

  lemma {:induction false} LineBreaksAreIgnored(text: string, acc: nat, bits: nat)
    requires Accumulator(acc, bits)
    ensures DecodeFrom(text, acc, bits) == DecodeFrom(WithoutLineBreaks(text), acc, bits)
    decreases |text|
  {
    if text != "" {
      var rest := WithoutLineBreaks(text[1..]);
      assert ([text[0]] + rest)[1..] == rest;
      match Read(text[0])
      case Invalid =>
      case Skipped => LineBreaksAreIgnored(text[1..], acc, bits);
      case Digit(v) => LineBreaksAreIgnored(text[1..], Push(acc, bits, v).1, Push(acc, bits, v).2);
    }
  }

  /** Wherever line breaks are put into an encoded text, it decodes to the same bytes. */
  lemma {:induction false} WrappedTextDecodes(data: seq<byte>, text: string)
    requires WithoutLineBreaks(text) == Encode(data)
    ensures Decode(text) == Ok(data)
  {
    LineBreaksAreIgnored(text, 0, 0);
    DecodeEncode(data);
  }
}
