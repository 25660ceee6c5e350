/** The code segments of an Intel HEX file: gathering them from records and cutting them into records. */
module CodeSegments {
  import opened Bytes
  import opened IntelHex

  datatype Segment = Segment(start: nat, data: seq<byte>) {
    function End(): nat {
      start + |data|
    }
  }

  predicate IsMiddleOf(segment: Segment, address: nat) {
    segment.start < address < segment.End()
  }

  // ---- get_code ----

  /** The data records before the end-of-file record. */
  function Records(lines: seq<Line>): seq<Segment> {
    if lines == [] || lines[0].kind == EndOfFile then []
    else (if lines[0].kind == Data then [Segment(lines[0].address, lines[0].data)] else []) + Records(lines[1..])
  }

  /** The index of the first segment that ends at an address. */
  function FirstEnding(segments: seq<Segment>, address: nat): (k: nat)
    ensures k <= |segments|
    ensures k < |segments| ==> segments[k].End() == address
    ensures forall j :: 0 <= j < k ==> segments[j].End() != address
  {
    if segments == [] || segments[0].End() == address then 0 else 1 + FirstEnding(segments[1..], address)
  }

  function Extended(segment: Segment, data: seq<byte>): Segment {
    Segment(segment.start, segment.data + data)
  }

  function Place(segments: seq<Segment>, record: Segment): Result<seq<Segment>, HexError> {
    if exists k :: 0 <= k < |segments| && IsMiddleOf(segments[k], record.start) then Err(IntersectingData)
    else
      var k := FirstEnding(segments, record.start);
      if k < |segments| then Ok(segments[k := Extended(segments[k], record.data)]) else Ok(segments + [record])
  }

  function PlaceAll(segments: seq<Segment>, records: seq<Segment>): Result<seq<Segment>, HexError>
    decreases |records|
  {
    if records == [] then Ok(segments)
    else match Place(segments, records[0])
      case Err(e) => Err(e)
      case Ok(placed) => PlaceAll(placed, records[1..])
  }

  function GetCode(lines: seq<Line>): Result<seq<Segment>, HexError> {
    PlaceAll([], Records(lines))
  }

  method GetCodeSegments(lines: seq<Line>) returns (r: Result<seq<Segment>, HexError>)
    ensures r == GetCode(lines)
  {
    var segments: seq<Segment> := [];
    var i := 0;
    while i < |lines| && lines[i].kind != EndOfFile
      invariant i <= |lines|
      invariant GetCode(lines) == PlaceAll(segments, Records(lines[i..]))
    {
      var line := lines[i];
      ghost var records := Records(lines[i..]);
      assert lines[i..][0] == line && lines[i..][1..] == lines[i + 1..];
      if line.kind == Data {
        assert records[0] == Segment(line.address, line.data) && records[1..] == Records(lines[i + 1..]);
        var placed := PlaceRecord(segments, line.address, line.data);
        if placed.Err? {
          return Err(placed.error);
        }
        segments := placed.value;
      } else {
        assert records == Records(lines[i + 1..]);
      }
      i := i + 1;
    }
    return Ok(segments);
  }

  method PlaceRecord(segments: seq<Segment>, start: nat, data: seq<byte>) returns (r: Result<seq<Segment>, HexError>)
    ensures r == Place(segments, Segment(start, data))
  {
    for j := 0 to |segments|
      invariant forall k :: 0 <= k < j ==> !IsMiddleOf(segments[k], start)
    {
      if IsMiddleOf(segments[j], start) {
        return Err(IntersectingData);
      }
    }
    var j := 0;
    while j < |segments| && segments[j].End() != start
      invariant j <= |segments|
      invariant forall k :: 0 <= k < j ==> segments[k].End() != start
    {
      j := j + 1;
    }
    if j < |segments| {
      return Ok(segments[j := Extended(segments[j], data)]);
    }
    return Ok(segments + [Segment(start, data)]);
  }

  // ---- the bytes of a file ----

  predicate ByteAt(segment: Segment, address: nat, value: byte) {
    segment.start <= address < segment.End() && segment.data[address - segment.start] == value
  }

  predicate Holds(segments: seq<Segment>, address: nat, value: byte) {
    exists k :: 0 <= k < |segments| && ByteAt(segments[k], address, value)
  }

  lemma {:induction false} PlaceKeepsBytes(segments: seq<Segment>, record: Segment, address: nat, value: byte)
    requires Place(segments, record).Ok?
    ensures Holds(Place(segments, record).value, address, value)
        <==> Holds(segments, address, value) || ByteAt(record, address, value)
  {
    var placed := Place(segments, record).value;
    var i := FirstEnding(segments, record.start);
    if i < |segments| {
      var merged := Extended(segments[i], record.data);
      assert placed[i] == merged;
      assert ByteAt(merged, address, value) <==> ByteAt(segments[i], address, value) || ByteAt(record, address, value);
      forall k | 0 <= k < |segments| && ByteAt(segments[k], address, value) ensures Holds(placed, address, value) {
        assert ByteAt(placed[k], address, value);
      }
      forall k | 0 <= k < |placed| && ByteAt(placed[k], address, value)
        ensures Holds(segments, address, value) || ByteAt(record, address, value)
      {
        assert k != i ==> placed[k] == segments[k];
      }
    } else {
      assert placed[|segments|] == record;
      forall k | 0 <= k < |segments| ensures placed[k] == segments[k] {
      }
      if Holds(segments, address, value) {
        var k :| 0 <= k < |segments| && ByteAt(segments[k], address, value);
        assert ByteAt(placed[k], address, value);
      }
    }
  }

  lemma {:induction false} PlaceAllKeepsBytes(segments: seq<Segment>, records: seq<Segment>, address: nat, value: byte)
    requires PlaceAll(segments, records).Ok?
    ensures Holds(PlaceAll(segments, records).value, address, value)
        <==> Holds(segments, address, value) || Holds(records, address, value)
    decreases |records|
  {
    if records != [] {
      PlaceKeepsBytes(segments, records[0], address, value);
      var placed := Place(segments, records[0]).value;
      PlaceAllKeepsBytes(placed, records[1..], address, value);
      HoldsSplit(records, address, value);
    }
  }

  lemma {:induction false} HoldsSplit(records: seq<Segment>, address: nat, value: byte)
    requires records != []
    ensures Holds(records, address, value) <==> ByteAt(records[0], address, value) || Holds(records[1..], address, value)
  {
    var rest := records[1..];
    if Holds(rest, address, value) {
      var k :| 0 <= k < |rest| && ByteAt(rest[k], address, value);
      assert ByteAt(records[k + 1], address, value);
    }
    if Holds(records, address, value) {
      var k :| 0 <= k < |records| && ByteAt(records[k], address, value);
      assert k > 0 ==> ByteAt(rest[k - 1], address, value);
    }
  }

  // ---- overlap ----

  predicate Apart(x: Segment, y: Segment) {
    x.End() <= y.start || y.End() <= x.start
  }

  predicate Disjoint(segments: seq<Segment>) {
    forall j, k :: 0 <= j < k < |segments| ==> Apart(segments[j], segments[k])
  }

  predicate NonEmpty(segments: seq<Segment>) {
    forall k :: 0 <= k < |segments| ==> segments[k].data != []
  }

  lemma {:induction false} PlaceKeepsApart(segments: seq<Segment>, record: Segment, rest: seq<Segment>)
    requires NonEmpty(segments + [record] + rest)
    ensures Place(segments, record).Err? ==> !Disjoint(segments + [record] + rest)
    ensures Place(segments, record).Ok? ==> NonEmpty(Place(segments, record).value + rest)
    ensures Place(segments, record).Ok? ==>
      (Disjoint(Place(segments, record).value + rest) <==> Disjoint(segments + [record] + rest))
  {
    var all := segments + [record] + rest;
    var n := |segments|;
    assert all[n] == record;
    if Place(segments, record).Err? {
      var k :| 0 <= k < |segments| && IsMiddleOf(segments[k], record.start);
      assert all[k] == segments[k] && !Apart(all[k], all[n]);
    } else {
      var i := FirstEnding(segments, record.start);
      if i < n {
        MergeKeepsApart(segments, record, rest, i);
      } else {
        assert Place(segments, record).value == segments + [record];
      }
    }
  }

  /** Merging a record into the segment it continues changes nothing about what overlaps what. */
  lemma {:induction false} MergeKeepsApart(segments: seq<Segment>, record: Segment, rest: seq<Segment>, i: nat)
    requires i < |segments| && segments[i].End() == record.start
    requires NonEmpty(segments + [record] + rest)
    ensures var merged := segments[i := Extended(segments[i], record.data)] + rest;
      NonEmpty(merged) && (Disjoint(merged) <==> Disjoint(segments + [record] + rest))
  {
    var n := |segments|;
    var all := segments + [record] + rest;
    var merged := segments[i := Extended(segments[i], record.data)] + rest;
    assert all[n] == record && all[i] == segments[i] && merged[i] == Extended(all[i], record.data);
    assert forall k :: 0 <= k < n && k != i ==> merged[k] == all[k];
    assert forall k :: n <= k < |merged| ==> merged[k] == all[k + 1];
    if Disjoint(merged) {
      SplitApart(all, merged, n, i);
    }
    if Disjoint(all) {
      JoinApart(all, merged, n, i);
    }
  }

  /** `merged` is `all` with element `n` moved to the end of element `i`, where it belongs. */
  ghost predicate Merges(all: seq<Segment>, merged: seq<Segment>, n: nat, i: nat) {
    && i < n < |all| == |merged| + 1
    && all[i].End() == all[n].start
    && merged[i] == Extended(all[i], all[n].data)
    && (forall k :: 0 <= k < n && k != i ==> merged[k] == all[k])
    && (forall k :: n <= k < |merged| ==> merged[k] == all[k + 1])
  }

  lemma {:induction false} SplitApart(all: seq<Segment>, merged: seq<Segment>, n: nat, i: nat)
    requires Merges(all, merged, n, i) && Disjoint(merged)
    ensures Disjoint(all)
  {
    forall j, k | 0 <= j < k < |all| ensures Apart(all[j], all[k]) {
      var a := if j < n then j else if j == n then i else j - 1;
      var b := if k < n then k else if k == n then i else k - 1;
      assert Within(all[j], merged[a]) && Within(all[k], merged[b]);
      if a < b {
        assert Apart(merged[a], merged[b]);
      } else if b < a {
        assert Apart(merged[b], merged[a]);
      }
    }
  }

  predicate Within(part: Segment, whole: Segment) {
    whole.start <= part.start && part.End() <= whole.End()
  }

  lemma {:induction false} JoinApart(all: seq<Segment>, merged: seq<Segment>, n: nat, i: nat)
    requires Merges(all, merged, n, i) && Disjoint(all) && NonEmpty(all)
    ensures Disjoint(merged)
  {
    forall j, k | 0 <= j < k < |merged| ensures Apart(merged[j], merged[k]) {
      var a := if j < n then j else j + 1;
      var b := if k < n then k else k + 1;
      assert Apart(all[a], all[b]);
      if j == i {
        assert Apart(all[n], all[b]) || Apart(all[b], all[n]);
      } else if k == i {
        assert Apart(all[a], all[n]);
      }
    }
  }

  lemma {:induction false} PlaceAllKeepsApart(segments: seq<Segment>, records: seq<Segment>)
    requires NonEmpty(segments + records)
    ensures PlaceAll(segments, records).Ok? && Disjoint(PlaceAll(segments, records).value) <==> Disjoint(segments + records)
    decreases |records|
  {
    if records == [] {
      assert segments + records == segments;
    } else {
      var record, rest := records[0], records[1..];
      assert segments + [record] + rest == segments + records;
      PlaceKeepsApart(segments, record, rest);
      if Place(segments, record).Ok? {
        PlaceAllKeepsApart(Place(segments, record).value, rest);
      }
    }
  }

  /**
   * The segments hold exactly the bytes of the records, at their addresses. For non-empty records
   * in any order, the file is accepted with segments that do not overlap exactly when the records do not.
   */
  lemma {:induction false} CodeIsTheRecords(lines: seq<Line>)
    ensures GetCode(lines).Ok? ==> forall address, value ::
      Holds(GetCode(lines).value, address, value) <==> Holds(Records(lines), address, value)
    ensures NonEmpty(Records(lines)) ==>
      (GetCode(lines).Ok? && Disjoint(GetCode(lines).value) <==> Disjoint(Records(lines)))
  {
    var records := Records(lines);
    assert [] + records == records;
    if NonEmpty(records) {
      PlaceAllKeepsApart([], records);
    }
    if GetCode(lines).Ok? {
      forall address, value ensures Holds(GetCode(lines).value, address, value) <==> Holds(records, address, value) {
        PlaceAllKeepsBytes([], records, address, value);
      }
    }
  }

  /** Behind the first byte, and not behind the last one. */
  predicate StrictlyInside(segment: Segment, address: nat) {
    segment.start + 1 <= address < segment.start + |segment.data|
  }

  /** Record `i` starts strictly inside of a segment that the records before it form. */
  predicate Intrudes(segments: seq<Segment>, records: seq<Segment>, i: nat)
    requires i < |records|
  {
    var placed := PlaceAll(segments, records[..i]);
    placed.Ok? && exists k :: 0 <= k < |placed.value| && StrictlyInside(placed.value[k], records[i].start)
  }

  lemma {:induction false} IntrudesNext(segments: seq<Segment>, records: seq<Segment>, i: nat)
    requires i + 1 < |records| && Place(segments, records[0]).Ok?
    ensures Intrudes(segments, records, i + 1) <==> Intrudes(Place(segments, records[0]).value, records[1..], i)
  {
    var front := records[..i + 1];
    assert front[0] == records[0] && front[1..] == records[1..][..i];
  }

  lemma {:induction false} PlaceAllFailsIff(segments: seq<Segment>, records: seq<Segment>)
    ensures PlaceAll(segments, records).Err? <==> exists i :: 0 <= i < |records| && Intrudes(segments, records, i)
    decreases |records|
  {
    if records != [] {
      assert records[..0] == [];
      forall k | 0 <= k < |segments| ensures IsMiddleOf(segments[k], records[0].start) <==> StrictlyInside(segments[k], records[0].start) {
      }
      assert Place(segments, records[0]).Err? <==> Intrudes(segments, records, 0);
      if Place(segments, records[0]).Ok? {
        var placed, rest := Place(segments, records[0]).value, records[1..];
        PlaceAllFailsIff(placed, rest);
        if PlaceAll(segments, records).Err? {
          var i :| 0 <= i < |rest| && Intrudes(placed, rest, i);
          IntrudesNext(segments, records, i);
          assert Intrudes(segments, records, i + 1);
        } else {
          forall i | 0 <= i < |records| ensures !Intrudes(segments, records, i) {
            if i > 0 {
              IntrudesNext(segments, records, i - 1);
            }
          }
        }
      }
    }
  }

  /** A file is rejected exactly when some data record starts strictly inside of a segment that the ones before it form. */
  lemma {:induction false} RejectedIff(lines: seq<Line>)
    ensures GetCode(lines).Err? <==> exists i :: 0 <= i < |Records(lines)| && Intrudes([], Records(lines), i)
  {
    var none: seq<Segment>, records := [], Records(lines);
    PlaceAllFailsIff(none, records);
    if GetCode(lines).Err? {
      var i :| 0 <= i < |records| && Intrudes(none, records, i);
      assert Intrudes([], Records(lines), i);
    }
  }

  /** The code is that of the data records before the first end record; what follows it, and records of other types, do not matter. */
  lemma {:induction false} CodeEndsAtEof(lines: seq<Line>, k: nat)
    requires k < |lines| && lines[k].kind == EndOfFile
    ensures GetCode(lines) == GetCode(lines[..k])
  {
    RecordsEndAtEof(lines, k);
  }

  lemma {:induction false} RecordsEndAtEof(lines: seq<Line>, k: nat)
    requires k < |lines| && lines[k].kind == EndOfFile
    ensures Records(lines) == Records(lines[..k])
  {
    if k > 0 && lines[0].kind != EndOfFile {
      RecordsEndAtEof(lines[1..], k - 1);
      assert lines[1..][..k - 1] == lines[..k][1..];
    }
  }

  lemma {:induction false} DataRecordsCount(lines: seq<Line>, k: nat)
    requires k <= |lines| && forall i :: 0 <= i < k ==> lines[i].kind != EndOfFile
    ensures Records(lines) == Records(lines[..k]) + Records(lines[k..])
    ensures k < |lines| && lines[k].kind == Data ==>
      Records(lines[..k + 1]) == Records(lines[..k]) + [Segment(lines[k].address, lines[k].data)]
    ensures k < |lines| && lines[k].kind != Data && lines[k].kind != EndOfFile ==> Records(lines[..k + 1]) == Records(lines[..k])
    decreases k
  {
    if k == 0 {
      assert lines[0..] == lines && (|lines| > 0 ==> lines[..1][1..] == []);
      assert lines[..0] == [];
    } else {
      var rest := lines[1..];
      DataRecordsCount(rest, k - 1);
      assert rest[..k - 1] == lines[..k][1..] && rest[k - 1..] == lines[k..];
      assert k < |lines| ==> rest[..k] == lines[..k + 1][1..];
    }
  }

  /** Overlap is noticed only where a record starts strictly inside a segment: here one covers another's start. */
  lemma {:induction false} OverlapCanPass()
    ensures PlaceAll([], [Segment(4, [1, 2]), Segment(3, [3, 4])]) == Ok([Segment(4, [1, 2]), Segment(3, [3, 4])])
  {
    var first, second := Segment(4, [1, 2]), Segment(3, [3, 4]);
    NewSegment([], first);
    NewSegment([first], second);
    assert [] + [first] == [first] && [first] + [second] == [first, second];
    assert [first, second][1..] == [second] && [second][1..] == [];
  }

  // ---- from_segments ----

  const PIECE := 16

  function PieceAt(code: Segment, offset: nat): Segment
    requires offset < |code.data|
  {
    Segment(code.start + offset, code.data[offset..Least(offset + PIECE, |code.data|)])
  }

  /** The data from `offset` on, cut into records of at most 16 bytes. */
  function Pieces(code: Segment, offset: nat): seq<Segment>
    decreases |code.data| - offset
  {
    if offset >= |code.data| then []
    else [PieceAt(code, offset)] + Pieces(code, Least(offset + PIECE, |code.data|))
  }

  function Least(x: nat, y: nat): nat {
    if x < y then x else y
  }

  function PiecesOf(codes: seq<Segment>): seq<Segment> {
    if codes == [] then [] else Pieces(codes[0], 0) + PiecesOf(codes[1..])
  }

  function DataLines(records: seq<Segment>): seq<Line> {
    if records == [] then [] else [DataLine(records[0].start, records[0].data)] + DataLines(records[1..])
  }

  function File(codes: seq<Segment>): seq<Line> {
    DataLines(PiecesOf(codes)) + [EofLine()]
  }

  lemma {:induction false} PlaceConcat(segments: seq<Segment>, xs: seq<Segment>, ys: seq<Segment>)
    ensures PlaceAll(segments, xs + ys) ==
      match PlaceAll(segments, xs) case Err(e) => Err(e) case Ok(placed) => PlaceAll(placed, ys)
    decreases |xs|
  {
    if xs == [] {
      assert xs + ys == ys;
    } else {
      assert (xs + ys)[0] == xs[0] && (xs + ys)[1..] == xs[1..] + ys;
      if Place(segments, xs[0]).Ok? {
        PlaceConcat(Place(segments, xs[0]).value, xs[1..], ys);
      }
    }
  }

  lemma {:induction false} PlaceFirst(segments: seq<Segment>, record: Segment, rest: seq<Segment>, placed: seq<Segment>)
    requires Place(segments, record) == Ok(placed)
    ensures PlaceAll(segments, [record] + rest) == PlaceAll(placed, rest)
  {
    assert ([record] + rest)[1..] == rest;
  }

  /** Ends before an area, or starts at or after its end. */
  predicate Away(segment: Segment, from: nat, to: nat) {
    segment.End() < from || to <= segment.start
  }

  lemma {:induction false} NewSegment(segments: seq<Segment>, record: Segment)
    requires forall k :: 0 <= k < |segments| ==> Away(segments[k], record.start, record.start + 1)
    ensures Place(segments, record) == Ok(segments + [record])
  {
    var k := FirstEnding(segments, record.start);
    assert k == |segments|;
  }

  /** All segments but `i` are out of the way. */
  predicate ClearFor(segments: seq<Segment>, i: nat, from: nat, to: nat) {
    i < |segments| && forall k :: 0 <= k < |segments| && k != i ==> Away(segments[k], from, to)
  }

  function Grown(segments: seq<Segment>, i: nat, data: seq<byte>): seq<Segment>
    requires i < |segments|
  {
    segments[i := Extended(segments[i], data)]
  }

  lemma {:induction false} GrownTwice(segments: seq<Segment>, i: nat, a: seq<byte>, b: seq<byte>)
    requires i < |segments|
    ensures Grown(Grown(segments, i, a), i, b) == Grown(segments, i, a + b)
  {
    assert segments[i].data + a + b == segments[i].data + (a + b);
  }

  lemma {:induction false} GrownByNothing(segments: seq<Segment>, i: nat)
    requires i < |segments|
    ensures Grown(segments, i, []) == segments
  {
    assert segments[i].data + [] == segments[i].data;
  }

  lemma {:induction false} GrownIsClear(segments: seq<Segment>, i: nat, data: seq<byte>, from: nat, to: nat)
    requires ClearFor(segments, i, from, to)
    ensures ClearFor(Grown(segments, i, data), i, from + |data|, to)
  {
  }

  /** Pieces that continue segment `i`, with every other segment out of the way, are all appended to it. */
  lemma {:induction false} PiecesExtend(segments: seq<Segment>, i: nat, code: Segment, offset: nat)
    requires offset <= |code.data|
    requires ClearFor(segments, i, code.start + offset, code.End()) && segments[i].End() == code.start + offset
    ensures PlaceAll(segments, Pieces(code, offset)) == Ok(Grown(segments, i, code.data[offset..]))
    decreases |code.data| - offset
  {
    if offset == |code.data| {
      GrownByNothing(segments, i);
    } else {
      var to := Least(offset + PIECE, |code.data|);
      var piece := PieceAt(code, offset);
      PlaceContinues(segments, i, piece);
      PlaceFirst(segments, piece, Pieces(code, to), Grown(segments, i, piece.data));
      GrownIsClear(segments, i, piece.data, code.start + offset, code.End());
      PiecesExtend(Grown(segments, i, piece.data), i, code, to);
      GrownTwice(segments, i, piece.data, code.data[to..]);
      assert piece.data + code.data[to..] == code.data[offset..];
    }
  }

  lemma {:induction false} PlaceContinues(segments: seq<Segment>, i: nat, record: Segment)
    requires i < |segments| && segments[i].End() == record.start
    requires forall k :: 0 <= k < |segments| && k != i ==> Away(segments[k], record.start, record.start + 1)
    ensures Place(segments, record) == Ok(Grown(segments, i, record.data))
  {
    var k := FirstEnding(segments, record.start);
    assert k == i;
  }

  lemma {:induction false} UpdateLast(segments: seq<Segment>, last: Segment, code: Segment)
    ensures (segments + [last])[|segments| := code] == segments + [code]
  {
  }

  /** The pieces of a segment away from all others come together as one new segment. */
  lemma {:induction false} PiecesAppear(segments: seq<Segment>, code: Segment)
    requires code.data != []
    requires forall k :: 0 <= k < |segments| ==> Away(segments[k], code.start, code.End())
    ensures PlaceAll(segments, Pieces(code, 0)) == Ok(segments + [code])
  {
    var to := Least(PIECE, |code.data|);
    var first := PieceAt(code, 0);
    var base := segments + [first];
    NewSegment(segments, first);
    PlaceFirst(segments, first, Pieces(code, to), base);
    PiecesExtend(base, |segments|, code, to);
    assert first.data + code.data[to..] == code.data;
    UpdateLast(segments, first, code);
  }

  predicate Ends(segments: seq<Segment>, address: nat) {
    exists k :: 0 <= k < |segments| && segments[k].End() == address
  }

  /** Pieces that continue some segment never make a new one. */
  lemma {:induction false} PiecesMerge(segments: seq<Segment>, code: Segment, offset: nat)
    requires offset <= |code.data| && Ends(segments, code.start + offset)
    ensures var r := PlaceAll(segments, Pieces(code, offset)); r.Ok? ==> |r.value| == |segments|
    decreases |code.data| - offset
  {
    if offset < |code.data| {
      var to := Least(offset + PIECE, |code.data|);
      var piece := PieceAt(code, offset);
      var placed := Place(segments, piece);
      if placed.Ok? {
        PlaceFirst(segments, piece, Pieces(code, to), placed.value);
        assert placed.value[FirstEnding(segments, piece.start)].End() == code.start + to;
        PiecesMerge(placed.value, code, to);
      }
    }
  }

  lemma {:induction false} PiecesAddAtMostOne(segments: seq<Segment>, code: Segment)
    ensures var r := PlaceAll(segments, Pieces(code, 0)); r.Ok? ==> |r.value| <= |segments| + 1
  {
    if code.data != [] {
      var to := Least(PIECE, |code.data|);
      var piece := PieceAt(code, 0);
      var placed := Place(segments, piece);
      if placed.Ok? {
        PlaceFirst(segments, piece, Pieces(code, to), placed.value);
        assert placed.value[FirstEnding(segments, code.start)].End() == code.start + to;
        PiecesMerge(placed.value, code, to);
      }
    }
  }

  lemma {:induction false} CodesAddAtMostOneEach(segments: seq<Segment>, codes: seq<Segment>)
    ensures var r := PlaceAll(segments, PiecesOf(codes)); r.Ok? ==> |r.value| <= |segments| + |codes|
    decreases |codes|
  {
    if codes != [] {
      var pieces := Pieces(codes[0], 0);
      PlaceConcat(segments, pieces, PiecesOf(codes[1..]));
      PiecesAddAtMostOne(segments, codes[0]);
      var placed := PlaceAll(segments, pieces);
      if placed.Ok? {
        CodesAddAtMostOneEach(placed.value, codes[1..]);
      }
    }
  }

  /** No segment starts where an earlier one ends. */
  predicate Unjoined(codes: seq<Segment>) {
    forall j, k :: 0 <= j < k < |codes| ==> codes[j].End() != codes[k].start
  }

  lemma {:induction false} PiecesComeBack(codes: seq<Segment>, i: nat)
    requires i <= |codes|
    requires NonEmpty(codes) && Disjoint(codes) && Unjoined(codes)
    ensures PlaceAll(codes[..i], PiecesOf(codes[i..])) == Ok(codes)
    decreases |codes| - i
  {
    if i == |codes| {
      assert codes[..i] == codes && codes[i..] == [];
    } else {
      var code := codes[i];
      forall k | 0 <= k < i ensures Away(codes[..i][k], code.start, code.End()) {
        assert Apart(codes[k], code) && codes[k].End() != code.start;
      }
      PiecesAppear(codes[..i], code);
      assert codes[..i] + [code] == codes[..i + 1];
      assert codes[i..][0] == code && codes[i..][1..] == codes[i + 1..];
      PlaceConcat(codes[..i], Pieces(code, 0), PiecesOf(codes[i + 1..]));
      PiecesComeBack(codes, i + 1);
    }
  }

  lemma {:induction false} PiecesOfConcat(xs: seq<Segment>, ys: seq<Segment>)
    ensures PiecesOf(xs + ys) == PiecesOf(xs) + PiecesOf(ys)
  {
    if xs == [] {
      assert xs + ys == ys;
    } else {
      assert (xs + ys)[0] == xs[0] && (xs + ys)[1..] == xs[1..] + ys;
      PiecesOfConcat(xs[1..], ys);
    }
  }

  /** The first segment that starts where an earlier one ends. */
  lemma {:induction false} FirstJoined(codes: seq<Segment>) returns (k: nat)
    requires !Unjoined(codes)
    ensures k < |codes| && Unjoined(codes[..k]) && Ends(codes[..k], codes[k].start)
  {
    var n := |codes| - 1;
    var front := codes[..n];
    if Unjoined(front) {
      var i, j :| 0 <= i < j < |codes| && codes[i].End() == codes[j].start;
      assert j == n;
      assert front[i].End() == codes[n].start;
      k := n;
    } else {
      k := FirstJoined(front);
      assert front[..k] == codes[..k];
    }
  }

  /** A segment that starts where an earlier one ends is merged into it. */
  lemma {:induction false} JoinedIsLost(codes: seq<Segment>)
    requires NonEmpty(codes) && Disjoint(codes) && !Unjoined(codes)
    ensures PlaceAll([], PiecesOf(codes)) != Ok(codes)
  {
    var k := FirstJoined(codes);
    var before, code, after := codes[..k], codes[k], codes[k + 1..];
    var pieces := Pieces(code, 0);
    PiecesBeforeAfter(codes, k);
    PlaceConcat([], PiecesOf(before), pieces + PiecesOf(after));
    assert before[..0] == [] && before[0..] == before;
    PiecesComeBack(before, 0);
    PlaceConcat(before, pieces, PiecesOf(after));
    PiecesMerge(before, code, 0);
    var placed := PlaceAll(before, pieces);
    if placed.Ok? {
      CodesAddAtMostOneEach(placed.value, after);
    }
  }

  lemma {:induction false} PiecesBeforeAfter(codes: seq<Segment>, k: nat)
    requires k < |codes|
    ensures PiecesOf(codes) == PiecesOf(codes[..k]) + (Pieces(codes[k], 0) + PiecesOf(codes[k + 1..]))
  {
    var later := codes[k..];
    assert codes == codes[..k] + later;
    PiecesOfConcat(codes[..k], later);
    assert later[0] == codes[k] && later[1..] == codes[k + 1..];
  }

  lemma {:induction false} RecordsOfDataLines(records: seq<Segment>)
    ensures Records(DataLines(records) + [EofLine()]) == records
  {
    var lines := DataLines(records) + [EofLine()];
    if records == [] {
      EofLineIsProper();
      assert lines[0] == EofLine();
    } else {
      var line := DataLine(records[0].start, records[0].data);
      assert lines[0] == line && lines[1..] == DataLines(records[1..]) + [EofLine()];
      RecordsOfDataLines(records[1..]);
      assert [records[0]] + records[1..] == records;
    }
  }

  /** Fits the 16-bit address and the length byte of a record. */
  predicate Fits(record: Segment) {
    record.start < 0x1_0000 && |record.data| < 0x100
  }

  lemma {:induction false} DataLinesAreProper(records: seq<Segment>)
    requires forall i :: 0 <= i < |records| ==> Fits(records[i])
    ensures forall i :: 0 <= i < |DataLines(records)| ==>
      Proper(DataLines(records)[i]) && Sum(DataLines(records)[i].raw) % 0x100 == 0
  {
    if records != [] {
      DataLineIsProper(records[0].start, records[0].data);
      DataLinesAreProper(records[1..]);
    }
  }

  lemma {:induction false} PiecesFit(code: Segment, offset: nat)
    requires code.End() <= 0x1_0000
    ensures forall i :: 0 <= i < |Pieces(code, offset)| ==> Fits(Pieces(code, offset)[i])
    decreases |code.data| - offset
  {
    if offset < |code.data| {
      PiecesFit(code, Least(offset + PIECE, |code.data|));
    }
  }

  lemma {:induction false} AllPiecesFit(codes: seq<Segment>)
    requires forall i :: 0 <= i < |codes| ==> codes[i].End() <= 0x1_0000
    ensures forall i :: 0 <= i < |PiecesOf(codes)| ==> Fits(PiecesOf(codes)[i])
  {
    if codes != [] {
      PiecesFit(codes[0], 0);
      AllPiecesFit(codes[1..]);
    }
  }

  /**
   * For disjoint, non-empty segments in a 16-bit address space: every line written sums to zero,
   * the text loads, and gathering its code gives the segments back in order exactly when
   * no segment starts where an earlier one ends.
   */
  lemma {:induction false} WrittenCodeComesBack(codes: seq<Segment>)
    requires NonEmpty(codes) && Disjoint(codes)
    requires forall i :: 0 <= i < |codes| ==> codes[i].End() <= 0x1_0000
    ensures forall i :: 0 <= i < |File(codes)| ==> Proper(File(codes)[i]) && Sum(File(codes)[i].raw) % 0x100 == 0
    ensures Load(Print(File(codes))).Ok?
    ensures GetCode(Load(Print(File(codes))).value) == Ok(codes) <==> Unjoined(codes)
  {
    var records := PiecesOf(codes);
    AllPiecesFit(codes);
    DataLinesAreProper(records);
    EofLineIsProper();
    LoadPrinted(File(codes));
    RecordsOfDataLines(records);
    if Unjoined(codes) {
      assert codes[..0] == [] && codes[0..] == codes;
      PiecesComeBack(codes, 0);
    } else {
      JoinedIsLost(codes);
    }
  }

  lemma {:induction false} DataLinesConcat(xs: seq<Segment>, ys: seq<Segment>)
    ensures DataLines(xs + ys) == DataLines(xs) + DataLines(ys)
  {
    if xs == [] {
      assert xs + ys == ys;
    } else {
      assert (xs + ys)[0] == xs[0] && (xs + ys)[1..] == xs[1..] + ys;
      DataLinesConcat(xs[1..], ys);
    }
  }

  lemma {:induction false} DataLinesAreValid(records: seq<Segment>)
    ensures forall i :: 0 <= i < |DataLines(records)| ==>
      |DataLines(records)[i].raw| >= 5 && Valid(DataLines(records)[i])
  {
    if records != [] {
      var line := DataLine(records[0].start, records[0].data);
      assert line.raw == line.raw[..|line.raw| - 1] + [line.checksum];
      DataLinesAreValid(records[1..]);
    }
  }

  /** Writes the lines of all segments; checking the checksums of what was written cannot fail. */
  method FromSegments(codes: seq<Segment>) returns (lines: seq<Line>)
    ensures lines == File(codes)
    ensures forall i :: 0 <= i < |lines| ==> |lines[i].raw| >= 5 && Valid(lines[i])
  {
    lines := [];
    for i := 0 to |codes|
      invariant lines + DataLines(PiecesOf(codes[i..])) == DataLines(PiecesOf(codes))
    {
      var written := WriteSegment(codes[i]);
      WriteNext(codes, i, lines, written);
      lines := lines + written;
    }
    lines := lines + [EofLine()];
    DataLinesAreValid(PiecesOf(codes));
    EofLineIsProper();
  }

  lemma {:induction false} WriteNext(codes: seq<Segment>, i: nat, lines: seq<Line>, written: seq<Line>)
    requires i < |codes| && written == DataLines(Pieces(codes[i], 0))
    ensures lines + DataLines(PiecesOf(codes[i..])) == lines + written + DataLines(PiecesOf(codes[i + 1..]))
  {
    var left, rest := codes[i..], codes[i + 1..];
    assert left[0] == codes[i] && left[1..] == rest;
    DataLinesConcat(Pieces(codes[i], 0), PiecesOf(rest));
  }

  method WriteSegment(code: Segment) returns (lines: seq<Line>)
    ensures lines == DataLines(Pieces(code, 0))
  {
    lines := [];
    var address: nat, offset := code.start, 0;
    while offset < |code.data|
      invariant offset <= |code.data| && address == code.start + offset
      invariant lines + DataLines(Pieces(code, offset)) == DataLines(Pieces(code, 0))
    {
      var to := Least(offset + PIECE, |code.data|);
      var line := DataLine(address, code.data[offset..to]);
      WriteOne(code, offset, lines, to, line);
      lines := lines + [line];
      address, offset := address + (to - offset), to;
    }
  }

  lemma {:induction false} WriteOne(code: Segment, offset: nat, lines: seq<Line>, to: nat, line: Line)
    requires offset < |code.data| && to == Least(offset + PIECE, |code.data|)
    requires line == DataLine(code.start + offset, code.data[offset..to])
    ensures lines + DataLines(Pieces(code, offset)) == lines + [line] + DataLines(Pieces(code, to))
  {
    FirstLine(PieceAt(code, offset), Pieces(code, Least(offset + PIECE, |code.data|)));
  }

  lemma {:induction false} FirstLine(record: Segment, rest: seq<Segment>)
    ensures DataLines([record] + rest) == [DataLine(record.start, record.data)] + DataLines(rest)
  {
    assert ([record] + rest)[1..] == rest;
  }
}
