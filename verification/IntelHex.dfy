/** Intel HEX files: records as text lines with a checksum, and the code segments they form. */
module IntelHex {
  import opened Bytes

  datatype RecordType = Data | EndOfFile | ExtendedSegmentAddress | ExtendedLinearAddress | StartLinearAddress | Unknown(code: byte)

  function TypeOf(code: byte): RecordType {
    match code
    case 0 => Data
    case 1 => EndOfFile
    case 2 => ExtendedSegmentAddress
    case 3 => ExtendedLinearAddress
    case 4 => StartLinearAddress
    case _ => Unknown(code)
  }

  datatype Line = Line(raw: seq<byte>, length: nat, address: nat, kind: RecordType, data: seq<byte>, checksum: byte)

  datatype HexError = InvalidLine | ChecksumMismatch | IntersectingData

  // ---- checksum ----

  function Sum(bytes: seq<byte>): nat {
    if bytes == [] then 0 else Sum(bytes[..|bytes| - 1]) + bytes[|bytes| - 1]
  }

  /** The sum is kept in 16 bits; its low byte is inverted and incremented. */
  function Checksum(bytes: seq<byte>): byte {
    (255 - Sum(bytes) % 0x1_0000 % 0x100 + 1) % 0x100
  }

  lemma {:induction false} ChecksumCompletes(bytes: seq<byte>)
    ensures Sum(bytes + [Checksum(bytes)]) % 0x100 == 0
  {
    assert (bytes + [Checksum(bytes)])[..|bytes|] == bytes;
    ComplementCompletes(Sum(bytes));
  }

  lemma {:induction false} ComplementCompletes(sum: nat)
    ensures (sum + (255 - sum % 0x1_0000 % 0x100 + 1) % 0x100) % 0x100 == 0
  {
    var low := sum % 0x100;
    assert sum % 0x1_0000 % 0x100 == low;
    assert (255 - low + 1) % 0x100 == if low == 0 then 0 else 0x100 - low;
  }

  // ---- text ----

  function HexDigit(v: nat): char
    requires v < 16
  {
    if v < 10 then (48 + v) as char else (65 + (v - 10)) as char
  }

  lemma {:induction false} DigitsAreUpperCase(v: nat)
    requires v < 16
    ensures HexDigit(v) == "0123456789ABCDEF"[v]
  {
  }

  /** The value of a hexadecimal digit of either case. */
  function DigitValue(c: char): Option<nat> {
    if '0' <= c <= '9' then Some(c as int - 48)
    else if 'A' <= c <= 'F' then Some(c as int - 55)
    else if 'a' <= c <= 'f' then Some(c as int - 87)
    else None
  }

  lemma {:induction false} DigitRoundTrip(v: nat)
    requires v < 16
    ensures DigitValue(HexDigit(v)) == Some(v) && !IsSpace(HexDigit(v))
  {
  }

  function ToHex(bytes: seq<byte>): string {
    if bytes == [] then "" else [HexDigit(bytes[0] / 16), HexDigit(bytes[0] % 16)] + ToHex(bytes[1..])
  }

  function FromHex(text: string): (r: Option<seq<byte>>)
    ensures r.Some? ==> 2 * |r.value| == |text|
    decreases |text|
  {
    if text == "" then Some([])
    else if |text| == 1 then None
    else match (DigitValue(text[0]), DigitValue(text[1]))
      case (Some(high), Some(low)) =>
        (match FromHex(text[2..]) case None => None case Some(rest) => Some([high * 16 + low] + rest))
      case _ => None
  }

  /** White space as `str::trim` sees it. */
  predicate IsSpace(c: char) {
    var n := c as int;
    (9 <= n <= 13) || n == 0x20 || n == 0x85 || n == 0xa0 || n == 0x1680 || (0x2000 <= n <= 0x200a) ||
    n == 0x2028 || n == 0x2029 || n == 0x202f || n == 0x205f || n == 0x3000
  }

  /** The characters with the Unicode property White_Space. */
  const WHITE_SPACE: string :=
    "\t\n\U{b}\U{c}\r \U{85}\U{a0}\U{1680}" +
    "\U{2000}\U{2001}\U{2002}\U{2003}\U{2004}\U{2005}\U{2006}\U{2007}\U{2008}\U{2009}\U{200a}" +
    "\U{2028}\U{2029}\U{202f}\U{205f}\U{3000}"

  lemma {:induction false} SpaceIff(c: char)
    ensures IsSpace(c) <==> c in WHITE_SPACE
  {
  }

  function Trim(text: string): string
    decreases |text|
  {
    if text == "" then ""
    else if IsSpace(text[0]) then Trim(text[1..])
    else if IsSpace(text[|text| - 1]) then Trim(text[..|text| - 1])
    else text
  }

  predicate Blank(text: string) {
    forall i :: 0 <= i < |text| ==> IsSpace(text[i])
  }

  lemma {:induction false} MoreInFront(text: string, front: string, inside: string, back: string) returns (front': string)
    requires text != "" && IsSpace(text[0]) && text[1..] == front + inside + back && Blank(front)
    ensures text == front' + inside + back && Blank(front')
  {
    front' := [text[0]] + front;
    assert text == [text[0]] + text[1..];
  }

  lemma {:induction false} MoreBehind(text: string, front: string, inside: string, back: string) returns (back': string)
    requires text != "" && IsSpace(text[|text| - 1]) && text[..|text| - 1] == front + inside + back && Blank(back)
    ensures text == front + inside + back' && Blank(back')
  {
    back' := back + [text[|text| - 1]];
    assert text == text[..|text| - 1] + [text[|text| - 1]];
  }

  /** Trimming takes away the white space at both ends and nothing else. */
  lemma {:induction false} TrimIsInside(text: string) returns (front: string, back: string)
    ensures text == front + Trim(text) + back && Blank(front) && Blank(back)
    ensures Trim(text) != "" ==> !IsSpace(Trim(text)[0]) && !IsSpace(Trim(text)[|Trim(text)| - 1])
    decreases |text|
  {
    front, back := "", "";
    if text != "" {
      var n := |text| - 1;
      if IsSpace(text[0]) {
        front, back := TrimIsInside(text[1..]);
        front := MoreInFront(text, front, Trim(text), back);
      } else if IsSpace(text[n]) {
        front, back := TrimIsInside(text[..n]);
        back := MoreBehind(text, front, Trim(text), back);
      }
    }
  }

  /** The record that a list of at least five bytes stands for. */
  function LineOf(raw: seq<byte>): Line
    requires |raw| >= 5
  {
    var high: int, low: int := raw[1], raw[2];
    Line(raw, raw[0], high * 0x100 + low, TypeOf(raw[3]), raw[4..|raw| - 1], raw[|raw| - 1])
  }

  function ParseLine(text: string): Result<Line, HexError> {
    var trimmed := Trim(text);
    if trimmed == "" || trimmed[0] != ':' then Err(InvalidLine)
    else if |trimmed| - 1 < 10 then Err(InvalidLine)
    else match FromHex(trimmed[1..])
      case None => Err(InvalidLine)
      case Some(raw) => Ok(LineOf(raw))
  }

  function PrintLine(line: Line): string {
    ":" + ToHex(line.raw)
  }

  lemma {:induction false} HexRoundTrip(bytes: seq<byte>)
    ensures FromHex(ToHex(bytes)) == Some(bytes) && |ToHex(bytes)| == 2 * |bytes|
    ensures bytes != [] ==> !IsSpace(ToHex(bytes)[|ToHex(bytes)| - 1])
  {
    if bytes != [] {
      var text := ToHex(bytes);
      HexRoundTrip(bytes[1..]);
      DigitRoundTrip(bytes[0] / 16);
      DigitRoundTrip(bytes[0] % 16);
      assert text[2..] == ToHex(bytes[1..]);
      assert [bytes[0]] + bytes[1..] == bytes;
      if |bytes| == 1 {
        assert ToHex(bytes[1..]) == "";
      }
    }
  }

  /** A printed record parses to itself. */
  lemma {:induction false} PrintParse(raw: seq<byte>)
    requires |raw| >= 5
    ensures ParseLine(PrintLine(LineOf(raw))) == Ok(LineOf(raw))
  {
    HexRoundTrip(raw);
    ParseHex(ToHex(raw), raw);
  }

  lemma {:induction false} ParseHex(hex: string, raw: seq<byte>)
    requires |hex| >= 10 && !IsSpace(hex[|hex| - 1]) && FromHex(hex) == Some(raw)
    ensures ParseLine(":" + hex) == Ok(LineOf(raw))
  {
    var text := ":" + hex;
    assert text[1..] == hex && text[|text| - 1] == hex[|hex| - 1];
    NothingToTrim(text);
    ParseTrimmed(text, raw);
  }

  lemma {:induction false} ParseTrimmed(text: string, raw: seq<byte>)
    requires Trim(text) == text && |text| > 10 && text[0] == ':' && FromHex(text[1..]) == Some(raw)
    ensures |raw| >= 5 && ParseLine(text) == Ok(LineOf(raw))
  {
  }

  lemma {:induction false} NothingToTrim(text: string)
    requires text != "" && !IsSpace(text[0]) && !IsSpace(text[|text| - 1])
    ensures Trim(text) == text
  {
  }

  // ---- files ----

  predicate Valid(line: Line)
    requires |line.raw| >= 5
  {
    line.checksum == Checksum(line.raw[..|line.raw| - 1])
  }

  /** Parses the lines that are not blank. */
  function ParseLines(texts: seq<string>): (r: Result<seq<Line>, HexError>)
    ensures r.Ok? ==> forall i :: 0 <= i < |r.value| ==> |r.value[i].raw| >= 5
  {
    if texts == [] then Ok([])
    else if Trim(texts[0]) == "" then ParseLines(texts[1..])
    else match ParseLine(texts[0])
      case Err(e) => Err(e)
      case Ok(line) =>
        (match ParseLines(texts[1..]) case Err(e) => Err(e) case Ok(rest) => Ok([line] + rest))
  }

  function Load(texts: seq<string>): Result<seq<Line>, HexError> {
    match ParseLines(texts)
    case Err(e) => Err(e)
    case Ok(lines) => if forall i :: 0 <= i < |lines| ==> Valid(lines[i]) then Ok(lines) else Err(ChecksumMismatch)
  }

  function Print(lines: seq<Line>): seq<string> {
    if lines == [] then [] else [PrintLine(lines[0])] + Print(lines[1..])
  }

  /** A record that its own bytes describe completely, with the right checksum. */
  predicate Proper(line: Line) {
    |line.raw| >= 5 && line == LineOf(line.raw) && Valid(line)
  }

  // ---- which texts are loaded ----

  predicate AllHex(text: string) {
    forall i :: 0 <= i < |text| ==> DigitValue(text[i]).Some?
  }

  /** The byte that the digits `2 * k` and `2 * k + 1` write, the high one first. */
  function ByteAt(text: string, k: nat): nat
    requires AllHex(text) && 2 * k + 1 < |text|
  {
    16 * DigitValue(text[2 * k]).value + DigitValue(text[2 * k + 1]).value
  }

  lemma {:induction false} FromHexIff(text: string)
    ensures FromHex(text).Some? <==> |text| % 2 == 0 && AllHex(text)
    decreases |text|
  {
    if |text| >= 2 {
      var rest := text[2..];
      FromHexIff(rest);
      assert AllHex(text) <==> DigitValue(text[0]).Some? && DigitValue(text[1]).Some? && AllHex(rest) by {
        assert forall i :: 2 <= i < |text| ==> text[i] == rest[i - 2];
      }
    }
  }

  lemma {:induction false} FromHexAt(text: string, k: nat)
    requires FromHex(text).Some? && 2 * k < |text|
    ensures AllHex(text) && 2 * k + 1 < |text| && FromHex(text).value[k] == ByteAt(text, k)
    decreases |text|
  {
    FromHexIff(text);
    if k > 0 {
      FromHexAt(text[2..], k - 1);
    }
  }

  /** A colon and at least ten hexadecimal digits, an even number of them. */
  predicate Shaped(text: string) {
    |text| > 10 && text[0] == ':' && |text| % 2 == 1 && AllHex(text[1..])
  }

  lemma {:induction false} ParseLineIff(text: string)
    ensures ParseLine(text).Ok? <==> Shaped(Trim(text))
    ensures ParseLine(text).Err? ==> ParseLine(text).error == InvalidLine
  {
    if Trim(text) != "" {
      FromHexIff(Trim(text)[1..]);
    }
  }

  /** The fields of a record, from the digits of its text: the address has its high byte first. */
  lemma {:induction false} FieldsOfText(text: string)
    requires ParseLine(text).Ok?
    ensures
      var line, hex := ParseLine(text).value, Trim(text)[1..];
      && AllHex(hex) && |hex| >= 10 && |hex| == 2 * |line.raw|
      && line.length == ByteAt(hex, 0) && line.address == 0x100 * ByteAt(hex, 1) + ByteAt(hex, 2)
      && ByteAt(hex, 3) < 0x100 && line.kind == TypeOf(ByteAt(hex, 3))
      && line.checksum == ByteAt(hex, |hex| / 2 - 1)
      && |line.data| == |hex| / 2 - 5 && forall k :: 0 <= k < |line.data| ==> line.data[k] == ByteAt(hex, 4 + k)
  {
    var line, hex := ParseLine(text).value, Trim(text)[1..];
    FromHexIff(hex);
    forall k | 0 <= k < |line.raw| ensures line.raw[k] == ByteAt(hex, k) {
      FromHexAt(hex, k);
    }
  }

  lemma {:induction false} ComplementIff(sum: nat, last: byte)
    ensures (sum + last) % 0x100 == 0 <==> last == (255 - sum % 0x1_0000 % 0x100 + 1) % 0x100
  {
    LowByteOfWord(sum);
    SumIsMultipleIff(sum / 0x100, sum % 0x100, last);
  }

  lemma {:induction false} LowByteOfWord(sum: nat)
    ensures sum % 0x1_0000 % 0x100 == sum % 0x100 && sum == 0x100 * (sum / 0x100) + sum % 0x100
  {
  }

  lemma {:induction false} SumIsMultipleIff(high: nat, low: nat, last: nat)
    requires low < 0x100 && last < 0x100
    ensures (0x100 * high + low + last) % 0x100 == 0 <==> last == (255 - low + 1) % 0x100
  {
    MultipleDropsOut(high, low + last);
    assert (255 - low + 1) % 0x100 == if low == 0 then 0 else 0x100 - low;
  }

  lemma {:induction false} MultipleDropsOut(high: nat, rest: nat)
    ensures (0x100 * high + rest) % 0x100 == rest % 0x100
  {
  }

  lemma {:induction false} ValidIff(raw: seq<byte>)
    requires |raw| >= 5
    ensures Valid(LineOf(raw)) <==> Sum(raw) % 0x100 == 0
  {
    ComplementIff(Sum(raw[..|raw| - 1]), raw[|raw| - 1]);
  }

  /** A blank line, or a record whose bytes sum to zero. */
  predicate GoodText(text: string) {
    Trim(text) == "" || (ParseLine(text).Ok? && Sum(ParseLine(text).value.raw) % 0x100 == 0)
  }

  predicate AllGood(texts: seq<string>) {
    forall i :: 0 <= i < |texts| ==> GoodText(texts[i])
  }

  predicate AllValid(lines: seq<Line>) {
    forall i :: 0 <= i < |lines| ==> |lines[i].raw| >= 5 && Valid(lines[i])
  }

  lemma {:induction false} AllGoodNext(texts: seq<string>)
    requires texts != []
    ensures AllGood(texts) <==> GoodText(texts[0]) && AllGood(texts[1..])
  {
    var rest := texts[1..];
    if GoodText(texts[0]) && AllGood(rest) {
      forall i | 0 <= i < |texts| ensures GoodText(texts[i]) {
        assert i > 0 ==> texts[i] == rest[i - 1];
      }
    }
  }

  lemma {:induction false} AllValidNext(line: Line, rest: seq<Line>)
    requires |line.raw| >= 5
    ensures AllValid([line] + rest) <==> Valid(line) && AllValid(rest)
  {
    var lines := [line] + rest;
    assert lines[0] == line;
    if AllValid(lines) {
      forall i | 0 <= i < |rest| ensures |rest[i].raw| >= 5 && Valid(rest[i]) {
        assert rest[i] == lines[i + 1];
      }
    }
  }

  lemma {:induction false} ParsedGood(texts: seq<string>)
    ensures (ParseLines(texts).Ok? && AllValid(ParseLines(texts).value)) <==> AllGood(texts)
  {
    if texts != [] {
      ParsedGood(texts[1..]);
      AllGoodNext(texts);
      if Trim(texts[0]) != "" && ParseLine(texts[0]).Ok? {
        var line := ParseLine(texts[0]).value;
        ValidIff(line.raw);
        if ParseLines(texts[1..]).Ok? {
          AllValidNext(line, ParseLines(texts[1..]).value);
        }
      }
    }
  }

  /** A file is loaded exactly if each of its lines is blank or a record whose bytes sum to zero. */
  lemma {:induction false} LoadIff(texts: seq<string>)
    ensures Load(texts).Ok? <==> forall i :: 0 <= i < |texts| ==> GoodText(texts[i])
  {
    ParsedGood(texts);
  }

  /** Writing proper records and loading the text gives them back. */
  lemma {:induction false} LoadPrinted(lines: seq<Line>)
    requires forall i :: 0 <= i < |lines| ==> Proper(lines[i])
    ensures ParseLines(Print(lines)) == Ok(lines)
    ensures Load(Print(lines)) == Ok(lines)
  {
    if lines != [] {
      var line := lines[0];
      LoadPrinted(lines[1..]);
      PrintParse(line.raw);
      assert Print(lines)[0] == PrintLine(line) && Print(lines)[1..] == Print(lines[1..]);
      assert [line] + lines[1..] == lines;
    }
  }

  function DataLine(address: nat, data: seq<byte>): Line {
    var head := [|data| % 0x100, address / 0x100 % 0x100, address % 0x100, 0] + data;
    Line(head + [Checksum(head)], |data|, address, Data, data, Checksum(head))
  }

  /** `:00000001FF` */
  function EofLine(): Line {
    LineOf([0, 0, 0, 1, 0xff])
  }

  /** A data record whose address fits 16 bits and whose data fits a length byte is proper, and its bytes sum to zero. */
  lemma {:induction false} DataLineIsProper(address: nat, data: seq<byte>)
    ensures Sum(DataLine(address, data).raw) % 0x100 == 0
    ensures Proper(DataLine(address, data)) <==> address < 0x1_0000 && |data| < 0x100
  {
    var line := DataLine(address, data);
    var head := line.raw[..|line.raw| - 1];
    assert head == [|data| % 0x100, address / 0x100 % 0x100, address % 0x100, 0] + data;
    ChecksumCompletes(head);
    assert line.raw[4..|line.raw| - 1] == data;
    if line == LineOf(line.raw) {
      assert |data| == |data| % 0x100;
    }
  }

  lemma {:induction false} EofLineIsProper()
    ensures Proper(EofLine()) && EofLine().kind == EndOfFile && Sum(EofLine().raw) % 0x100 == 0
  {
    var raw: seq<byte> := [0, 0, 0, 1, 0xff];
    assert raw[..4] == [0, 0, 0, 1] && raw[..4][..3] == [0, 0, 0] && [0, 0, 0][..2] == [0, 0] && [0, 0][..1] == [0];
    assert Sum([0]) == 0 && Sum([0, 0]) == 0 && Sum([0, 0, 0]) == 0;
  }
}
