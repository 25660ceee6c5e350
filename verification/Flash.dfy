/**
 The flash functions of the bootloader: code is staged in a page buffer, each full page is
 written out, and the commit writes the last, partial page.
 */
module Flash {
  import opened Arithmetic
  import opened Bytes

  const SPACE: nat := 0x1_0000
  const FIRST_PAGE: nat := 0x2000
  const LAST_PAGE: nat := 0x7900
  const LOWEST_ADDRESS: nat := 0x1f00
  const ERASED: byte := 0xff

  const ENXIO: byte := 6
  const EFAULT: byte := 14
  const EBADMSG: byte := 74
  const EBADFD: byte := 77
  const ENOTCONN: byte := 107
  const EALREADY: byte := 114

  /** A power of two; the ATmega, which programs 16-bit words, has pages of at least two bytes. */
  predicate IsPageSize(p: nat) {
    p == 1 || p == 2 || p == 4 || p == 8 || p == 16 || p == 32 || p == 64 || p == 128
  }

  /** A call of `ubh_impl_write_program_page`. */
  datatype PageWrite = PageWrite(page: nat, data: seq<byte>)

  datatype Device = Device(
    pageSize: nat,
    appStart: word,
    flashing: bool,             // `flash_stage`
    addr: word,                 // `flash_crnt_address`
    tmp: seq<byte>,             // `flash_tmp`, one page
    flash: seq<byte>,
    writes: seq<PageWrite>)

  predicate IsDevice(d: Device) {
    IsPageSize(d.pageSize) && |d.tmp| == d.pageSize && |d.flash| == SPACE
  }

  /** The first address of the page of `a`: `a & ~(page_size - 1)`. */
  function PageOf(a: nat, pageSize: nat): nat
    requires 0 < pageSize
  {
    a - Rem(a, pageSize)
  }

  /** Masking the low bits of an address is rounding it down to its page, for each page size. */
  predicate RoundsDown(a: bv16, mask: bv16, size: bv16)
    requires size != 0
  {
    a & mask == a % size && a & !mask == a - a % size
  }

  lemma {:induction false} MaskIsRounding(a: bv16)
    ensures RoundsDown(a, 0, 1) && RoundsDown(a, 1, 2) && RoundsDown(a, 3, 4) && RoundsDown(a, 7, 8) && RoundsDown(a, 15, 16)
    ensures RoundsDown(a, 31, 32) && RoundsDown(a, 63, 64) && RoundsDown(a, 127, 128)
  {
    Mask1(a);
    Mask2(a);
    Mask4(a);
    Mask8(a);
    Mask16(a);
    Mask32(a);
    Mask64(a);
    Mask128(a);
  }

  lemma {:induction false} Mask1(a: bv16)
    ensures RoundsDown(a, 0, 1)
  {
  }

  lemma {:induction false} Mask2(a: bv16)
    ensures RoundsDown(a, 1, 2)
  {
  }

  lemma {:induction false} Mask4(a: bv16)
    ensures RoundsDown(a, 3, 4)
  {
  }

  lemma {:induction false} Mask8(a: bv16)
    ensures RoundsDown(a, 7, 8)
  {
  }

  lemma {:induction false} Mask16(a: bv16)
    ensures RoundsDown(a, 15, 16)
  {
  }

  lemma {:induction false} Mask32(a: bv16)
    ensures RoundsDown(a, 31, 32)
  {
  }

  lemma {:induction false} Mask64(a: bv16)
    ensures RoundsDown(a, 63, 64)
  {
  }

  lemma {:induction false} Mask128(a: bv16)
    ensures RoundsDown(a, 127, 128)
  {
  }

  /** The content of a page after `size` bytes are programmed in words: with an odd size, one byte more. */
  function Programmed(buf: seq<byte>, size: nat): (r: seq<byte>)
    ensures |r| == |buf|
  {
    seq(|buf|, i requires 0 <= i < |buf| => if i < size + size % 2 then buf[i] else ERASED)
  }

  function WriteProgramPage(flash: seq<byte>, pageSize: nat, page: nat, buf: seq<byte>, size: nat): (r: seq<byte>)
    requires IsPageSize(pageSize) && |buf| == pageSize && |flash| == SPACE
    ensures |r| == SPACE
  {
    if page < FIRST_PAGE || page > LAST_PAGE || size > pageSize then flash
    else
      flash[..page] + Programmed(buf, size) + flash[page + pageSize..]
  }

  /** The byte is in the page buffer, and the address is the next one. */
  function Buffered(d: Device, b: byte): (r: Device)
    requires IsDevice(d)
    ensures IsDevice(r)
  {
    d.(tmp := d.tmp[Rem(d.addr, d.pageSize) := b], addr := (d.addr + 1) % SPACE)
  }

  /** The full page buffer is written. */
  function Flushed(d: Device, page: nat): (r: Device)
    requires IsDevice(d)
    ensures IsDevice(r)
  {
    d.(
      flash := WriteProgramPage(d.flash, d.pageSize, page, d.tmp, d.pageSize),
      writes := d.writes + [PageWrite(page, d.tmp)])
  }

  /** One round of the loop in `fill_flash`. */
  function FillByte(d: Device, b: byte): (r: Device)
    requires IsDevice(d)
    ensures IsDevice(r)
  {
    var next := Buffered(d, b);
    if Rem(next.addr, d.pageSize) != 0 then next else Flushed(next, PageOf(d.addr, d.pageSize))
  }

  function Fill(d: Device, code: seq<byte>): (r: Device)
    requires IsDevice(d)
    ensures IsDevice(r)
  {
    if code == [] then d else FillByte(Fill(d, code[..|code| - 1]), code[|code| - 1])
  }

  function Commit(d: Device): (r: Device)
    requires IsDevice(d)
    ensures IsDevice(r)
  {
    var size := Rem(d.addr, d.pageSize);
    var written :=
      if size == 0 then d
      else d.(
        flash := WriteProgramPage(d.flash, d.pageSize, PageOf(d.addr, d.pageSize), d.tmp, size),
        writes := d.writes + [PageWrite(PageOf(d.addr, d.pageSize), d.tmp[..size])]);
    written.(flashing := false)
  }

  datatype Request =
    | GetStage
    | StartFlash
    | GetNextAddress
    | PushCode(payload: seq<byte>)
    | CommitFlash

  datatype Reply =
    | Stage(stage: byte)
    | Errno(errno: byte)
    | Address(addr: word)         // of `blf_get_next_addr`
    | Pushed(next: word)          // of `blf_push_code`, after errno 0
    | Done                        // errno 0

  /** Starting again resets the address although the answer is `EALREADY`: the handler goes on. */
  function Handle(d: Device, req: Request): (r: (Device, Reply))
    requires IsDevice(d)
    ensures IsDevice(r.0)
  {
    match req
    case GetStage => (d, Stage(if d.flashing then 1 else 0))
    case StartFlash => (d.(flashing := true, addr := d.appStart), if d.flashing then Errno(EALREADY) else Done)
    case GetNextAddress => (d, Address(d.addr))
    case PushCode(payload) =>
      if !d.flashing then (d, Errno(ENOTCONN))
      else if |payload| < 3 then (d, Errno(EBADMSG))
      else if d.addr < LOWEST_ADDRESS then (d, Errno(EFAULT))
      else if payload[0] != d.addr / 0x100 || payload[1] != d.addr % 0x100 then (d, Errno(ENXIO))
      else
        var filled := Fill(d, payload[2..]);
        (filled, Pushed(filled.addr))
    case CommitFlash =>
      if !d.flashing then (d, Errno(EBADFD))
      else if d.addr < LOWEST_ADDRESS then (d, Errno(EFAULT))
      else (Commit(d), Done)
  }

  // ---- what is staged ----

  /** Pages of `code`, from `start` on, in the order of their addresses. */
  function Pages(start: nat, code: seq<byte>, pageSize: nat): seq<PageWrite>
    requires 0 < pageSize
    decreases |code|
  {
    if |code| < pageSize then []
    else
      var last := |code| - pageSize;
      Pages(start, code[..last], pageSize) + [PageWrite(start + last, code[last..])]
  }

  predicate WholePages(n: nat, pageSize: nat)
    requires 0 < pageSize
  {
    n == 0 || (n >= pageSize && WholePages(n - pageSize, pageSize))
  }

  /** `code` lies from `start` on in pages that the chip lets the bootloader write. */
  predicate InWindow(start: nat, end: nat, pageSize: nat)
    requires 0 < pageSize
  {
    Rem(start, pageSize) == 0 && FIRST_PAGE <= start <= end <= LAST_PAGE + pageSize
  }

  /** `flash` with `code` in the place of what was at `start`. */
  function Spliced(flash: seq<byte>, start: nat, code: seq<byte>): (r: seq<byte>)
    requires start + |code| <= |flash|
    ensures |r| == |flash|
  {
    flash[..start] + code + flash[start + |code|..]
  }

  /**
   The device, whose flash was `before`, has taken `done + buffered` from `start` on: `done` is
   written in full pages, each once and in order, and `buffered` is in the page buffer.
   */
  predicate StagedAs(d: Device, before: seq<byte>, start: nat, done: seq<byte>, buffered: seq<byte>)
    requires IsDevice(d)
  {
    && |before| == SPACE && start + |done| <= SPACE
    && d.addr == start + |done| + |buffered|
    && |buffered| < d.pageSize && WholePages(|done|, d.pageSize)
    && d.flash == Spliced(before, start, done)
    && d.tmp[..|buffered|] == buffered
    && d.writes == Pages(start, done, d.pageSize)
  }

  /** The device has taken `code` from `start` on; how much of it is buffered follows from the address. */
  predicate Staged(d: Device, before: seq<byte>, start: nat, code: seq<byte>)
    requires IsDevice(d)
  {
    && Rem(d.addr, d.pageSize) <= |code|
    && var full := |code| - Rem(d.addr, d.pageSize);
    StagedAs(d, before, start, code[..full], code[full..])
  }

  lemma {:induction false} PagesAppend(start: nat, code: seq<byte>, page: seq<byte>, pageSize: nat)
    requires 0 < pageSize == |page| && WholePages(|code|, pageSize)
    ensures Pages(start, code + page, pageSize) == Pages(start, code, pageSize) + [PageWrite(start + |code|, page)]
    ensures WholePages(|code + page|, pageSize)
  {
    assert (code + page)[..|code|] == code && (code + page)[|code|..] == page;
  }

  /** The last writable page starts at a multiple of every page size. */
  lemma {:induction false} InLastPage(a: nat, pageSize: nat)
    requires IsPageSize(pageSize) && LAST_PAGE <= a <= LAST_PAGE + pageSize
    ensures Rem(a, pageSize) == if a == LAST_PAGE + pageSize then 0 else a - LAST_PAGE
  {
    if pageSize == 1 {
      RemIsRemainder(a, 1);
    } else if pageSize == 2 {
      RemIsRemainder(a, 2);
    } else if pageSize == 4 {
      RemIsRemainder(a, 4);
    } else if pageSize == 8 {
      RemIsRemainder(a, 8);
    } else if pageSize == 16 {
      RemIsRemainder(a, 16);
    } else if pageSize == 32 {
      RemIsRemainder(a, 32);
    } else if pageSize == 64 {
      RemIsRemainder(a, 64);
    } else {
      RemIsRemainder(a, 128);
    }
  }

  lemma {:induction false} PageInWindow(a: nat, pageSize: nat)
    requires IsPageSize(pageSize) && a < LAST_PAGE + pageSize
    ensures PageOf(a, pageSize) <= LAST_PAGE
  {
    if LAST_PAGE <= a {
      InLastPage(a, pageSize);
    }
  }

  lemma {:induction false} WriteFullPage(before: seq<byte>, start: nat, done: seq<byte>, page: seq<byte>, pageSize: nat)
    requires IsPageSize(pageSize) && |page| == pageSize && |before| == SPACE && FIRST_PAGE <= start && start + |done| <= LAST_PAGE
    ensures WriteProgramPage(Spliced(before, start, done), pageSize, start + |done|, page, pageSize)
         == Spliced(before, start, done + page)
  {
    var flash, at := Spliced(before, start, done), start + |done|;
    assert flash[..at] == before[..start] + done;
    assert flash[at + pageSize..] == before[at + pageSize..];
    assert Programmed(page, pageSize) == page;
  }

  /** `FillByte`, told how many bytes of the page are buffered. */
  function FillByteWith(d: Device, rest: nat, b: byte): Device
    requires IsDevice(d) && rest < d.pageSize && d.addr + 1 < SPACE && rest <= d.addr
  {
    var tmp := d.tmp[rest := b];
    if rest + 1 < d.pageSize then d.(tmp := tmp, addr := d.addr + 1)
    else d.(
      tmp := tmp, addr := d.addr + 1,
      flash := WriteProgramPage(d.flash, d.pageSize, d.addr - rest, tmp, d.pageSize),
      writes := d.writes + [PageWrite(d.addr - rest, tmp)])
  }

  lemma {:induction false} FillByteIsFillByteWith(d: Device, b: byte)
    requires IsDevice(d) && d.addr + 1 < SPACE
    ensures FillByte(d, b) == FillByteWith(d, Rem(d.addr, d.pageSize), b)
    ensures Rem(d.addr + 1, d.pageSize) == (if Rem(d.addr, d.pageSize) + 1 == d.pageSize then 0 else Rem(d.addr, d.pageSize) + 1)
  {
    NextRem(d.addr, d.pageSize);
    assert (d.addr + 1) % SPACE == d.addr + 1;
    if Rem(d.addr, d.pageSize) + 1 == d.pageSize {
      assert Rem(d.addr + 1, d.pageSize) == 0;
    } else {
      assert Rem(d.addr + 1, d.pageSize) != 0;
    }
  }

  lemma {:induction false} FillByteBuffers(d: Device, before: seq<byte>, start: nat, done: seq<byte>, buffered: seq<byte>, b: byte)
    requires IsDevice(d) && StagedAs(d, before, start, done, buffered) && d.addr + 1 < SPACE && |buffered| + 1 < d.pageSize
    ensures StagedAs(FillByteWith(d, |buffered|, b), before, start, done, buffered + [b])
  {
    assert d.tmp[|buffered| := b][..|buffered| + 1] == d.tmp[..|buffered|] + [b];
  }

  lemma {:induction false} FillByteWrites(d: Device, before: seq<byte>, start: nat, done: seq<byte>, buffered: seq<byte>, b: byte)
    requires IsDevice(d) && StagedAs(d, before, start, done, buffered) && d.addr + 1 < SPACE && |buffered| + 1 == d.pageSize
    requires FIRST_PAGE <= start && start + |done| <= LAST_PAGE
    ensures StagedAs(FillByteWith(d, |buffered|, b), before, start, done + (buffered + [b]), [])
  {
    var page := buffered + [b];
    assert d.tmp[|buffered| := b] == page;
    PagesAppend(start, done, page, d.pageSize);
    WriteFullPage(before, start, done, page, d.pageSize);
  }

  /** Staging one byte more: the page is written if the byte fills it, and otherwise the byte is buffered. */
  lemma {:induction false} FillByteStagesWith(d: Device, before: seq<byte>, start: nat, done: seq<byte>, buffered: seq<byte>, b: byte,
                                              done': seq<byte>, buffered': seq<byte>)
    requires IsDevice(d) && StagedAs(d, before, start, done, buffered)
    requires FIRST_PAGE <= start && d.addr + 1 < SPACE && (|buffered| + 1 == d.pageSize ==> start + |done| <= LAST_PAGE)
    requires done' == if |buffered| + 1 == d.pageSize then done + (buffered + [b]) else done
    requires buffered' == if |buffered| + 1 == d.pageSize then [] else buffered + [b]
    ensures StagedAs(FillByteWith(d, |buffered|, b), before, start, done', buffered')
  {
    if |buffered| + 1 == d.pageSize {
      FillByteWrites(d, before, start, done, buffered, b);
    } else {
      FillByteBuffers(d, before, start, done, buffered, b);
    }
  }

  lemma {:induction false} StagedFromParts(d: Device, before: seq<byte>, start: nat, code: seq<byte>, done: seq<byte>, buffered: seq<byte>)
    requires IsDevice(d) && StagedAs(d, before, start, done, buffered)
    requires done + buffered == code && |buffered| == Rem(d.addr, d.pageSize)
    ensures Staged(d, before, start, code)
  {
    assert code[..|done|] == done && code[|done|..] == buffered;
  }

  lemma {:induction false} PartsOf(d: Device, before: seq<byte>, start: nat, code: seq<byte>) returns (done: seq<byte>, buffered: seq<byte>)
    requires IsDevice(d) && Staged(d, before, start, code)
    ensures StagedAs(d, before, start, done, buffered)
    ensures done + buffered == code && |buffered| == Rem(d.addr, d.pageSize)
  {
    var full := |code| - Rem(d.addr, d.pageSize);
    done, buffered := code[..full], code[full..];
  }

  lemma {:induction false} FillByteStages(d: Device, before: seq<byte>, start: nat, code: seq<byte>, b: byte)
    requires IsDevice(d) && Staged(d, before, start, code)
    requires FIRST_PAGE <= start && d.addr < LAST_PAGE + d.pageSize
    ensures Staged(FillByte(d, b), before, start, code + [b])
  {
    var done, buffered := PartsOf(d, before, start, code);
    FillByteIsFillByteWith(d, b);
    PageInWindow(d.addr, d.pageSize);
    assert code + [b] == done + (buffered + [b]);
    FillByteStagesFrom(d, before, start, code + [b], done, buffered, b, FillByte(d, b));
  }

  /** The same, told what is done and what is buffered. */
  lemma {:induction false} FillByteStagesFrom(
      d: Device, before: seq<byte>, start: nat, all: seq<byte>, done: seq<byte>, buffered: seq<byte>, b: byte, next: Device)
    requires IsDevice(d) && StagedAs(d, before, start, done, buffered) && d.addr + 1 < SPACE && IsDevice(next)
    requires FIRST_PAGE <= start && (|buffered| + 1 == d.pageSize ==> start + |done| <= LAST_PAGE)
    requires next == FillByteWith(d, |buffered|, b)
    requires Rem(next.addr, next.pageSize) == if |buffered| + 1 == d.pageSize then 0 else |buffered| + 1
    requires all == done + (buffered + [b])
    ensures Staged(next, before, start, all)
  {
    var wrote := |buffered| + 1 == d.pageSize;
    var done' := if wrote then done + (buffered + [b]) else done;
    var buffered' := if wrote then [] else buffered + [b];
    FillByteStagesWith(d, before, start, done, buffered, b, done', buffered');
    StagedFromParts(next, before, start, all, done', buffered');
  }

  /** Filling changes the page buffer, the flash and the address only. */
  lemma {:induction false} FillKeeps(d: Device, more: seq<byte>)
    requires IsDevice(d)
    ensures Fill(d, more).(addr := 0, tmp := [], flash := [], writes := []) == d.(addr := 0, tmp := [], flash := [], writes := [])
  {
    if more != [] {
      FillKeeps(d, more[..|more| - 1]);
      FillByteKeeps(Fill(d, more[..|more| - 1]), more[|more| - 1]);
    }
  }

  lemma {:induction false} FillByteKeeps(d: Device, b: byte)
    requires IsDevice(d)
    ensures FillByte(d, b).(addr := 0, tmp := [], flash := [], writes := []) == d.(addr := 0, tmp := [], flash := [], writes := [])
  {
  }

  lemma {:induction false} FillStages(d: Device, before: seq<byte>, start: nat, code: seq<byte>, more: seq<byte>)
    requires IsDevice(d) && Staged(d, before, start, code)
    requires FIRST_PAGE <= start && d.addr + |more| <= LAST_PAGE + d.pageSize
    ensures Staged(Fill(d, more), before, start, code + more) && Fill(d, more).addr == d.addr + |more|
    ensures Fill(d, more).(addr := 0, tmp := [], flash := [], writes := []) == d.(addr := 0, tmp := [], flash := [], writes := [])
  {
    FillKeeps(d, more);
    if more == [] {
      assert code + more == code;
    } else {
      var init, last := more[..|more| - 1], more[|more| - 1];
      assert code + more == code + init + [last];
      FillStages(d, before, start, code, init);
      FillStagesNext(Fill(d, init), before, start, code + init, last, Fill(d, more));
    }
  }

  lemma {:induction false} FillStagesNext(d: Device, before: seq<byte>, start: nat, code: seq<byte>, b: byte, next: Device)
    requires IsDevice(d) && Staged(d, before, start, code) && IsDevice(next)
    requires FIRST_PAGE <= start && d.addr < LAST_PAGE + d.pageSize
    requires next == FillByte(d, b)
    ensures Staged(next, before, start, code + [b]) && next.addr == d.addr + 1
  {
    FillByteStages(d, before, start, code, b);
  }

  lemma {:induction false} NothingIsStaged(clean: Device)
    requires IsDevice(clean) && clean.writes == [] && Rem(clean.addr, clean.pageSize) == 0
    ensures Staged(clean, clean.flash, clean.addr, [])
  {
    assert Spliced(clean.flash, clean.addr, []) == clean.flash;
    assert Pages(clean.addr, [], clean.pageSize) == [];
  }

  /** A device in the stage that has taken nothing yet takes `code`. */
  lemma {:induction false} StageFrom(clean: Device, code: seq<byte>) returns (staged: Device)
    requires IsDevice(clean) && clean.writes == [] && FIRST_PAGE <= clean.addr
    requires Rem(clean.addr, clean.pageSize) == 0 && clean.addr + |code| <= LAST_PAGE + clean.pageSize
    ensures IsDevice(staged) && staged == Fill(clean, code) && staged.addr == clean.addr + |code|
    ensures staged.pageSize == clean.pageSize && staged.appStart == clean.appStart && staged.flashing == clean.flashing
    ensures Staged(staged, clean.flash, clean.addr, code)
  {
    NothingIsStaged(clean);
    FillStages(clean, clean.flash, clean.addr, [], code);
    staged := Fill(clean, code);
    assert [] + code == code;
  }

  lemma {:induction false} FillConcat(d: Device, a: seq<byte>, b: seq<byte>)
    requires IsDevice(d)
    ensures Fill(Fill(d, a), b) == Fill(d, a + b)
  {
    if b == [] {
      assert a + b == a;
    } else {
      assert (a + b)[..|a + b| - 1] == a + b[..|b| - 1];
      FillConcat(d, a, b[..|b| - 1]);
    }
  }

  // ---- what the commit leaves ----

  /** The memory after writing `code` from `start` on, one byte after the other. */
  function WriteBytes(flash: seq<byte>, start: nat, code: seq<byte>): (r: seq<byte>)
    requires start + |code| <= |flash|
    ensures |r| == |flash|
  {
    if code == [] then flash
    else WriteBytes(flash, start, code[..|code| - 1])[start + |code| - 1 := code[|code| - 1]]
  }

  lemma {:induction false} WriteBytesSplices(flash: seq<byte>, start: nat, code: seq<byte>)
    requires start + |code| <= |flash|
    ensures WriteBytes(flash, start, code) == Spliced(flash, start, code)
  {
    if code != [] {
      WriteBytesSplices(flash, start, code[..|code| - 1]);
    }
  }

  /** The end of the last page that a device staged up to `addr` touches. */
  function EndOfPages(d: Device): nat
    requires IsDevice(d)
  {
    if Rem(d.addr, d.pageSize) == 0 then d.addr else PageOf(d.addr, d.pageSize) + d.pageSize
  }

  lemma {:induction false} LastPageIsWritable(a: nat, pageSize: nat)
    requires IsPageSize(pageSize) && a <= LAST_PAGE + pageSize && Rem(a, pageSize) != 0
    ensures PageOf(a, pageSize) <= LAST_PAGE
  {
    if LAST_PAGE <= a {
      InLastPage(a, pageSize);
    }
  }

  /** A partial page write stores `part` behind `done`, and touches nothing behind its page. */
  lemma {:induction false} WritePartialPage(before: seq<byte>, start: nat, done: seq<byte>, tmp: seq<byte>, part: seq<byte>, pageSize: nat)
    requires IsPageSize(pageSize) && |tmp| == pageSize && |part| < pageSize && tmp[..|part|] == part
    requires |before| == SPACE && FIRST_PAGE <= start && start + |done| <= LAST_PAGE
    ensures
      var page := start + |done|;
      var flash := WriteProgramPage(Spliced(before, start, done), pageSize, page, tmp, |part|);
      && flash[..page + |part|] == before[..start] + (done + part)
      && flash[page + pageSize..] == before[page + pageSize..]
  {
    var page, n := start + |done|, |part|;
    var flash := Spliced(before, start, done);
    assert Programmed(tmp, n)[..n] == part;
    assert flash[..page] == before[..start] + done;
    assert flash[page + pageSize..] == before[page + pageSize..];
  }

  /** What staging and committing leaves: the code, and the old memory around its pages. */
  lemma {:induction false} CommitStores(d: Device, before: seq<byte>, start: nat, code: seq<byte>)
    requires IsDevice(d) && Staged(d, before, start, code) && InWindow(start, d.addr, d.pageSize)
    ensures d.addr <= EndOfPages(d) <= SPACE
    ensures Commit(d).flash[..d.addr] == before[..start] + code
    ensures Commit(d).flash[EndOfPages(d)..] == before[EndOfPages(d)..]
  {
    var rest := Rem(d.addr, d.pageSize);
    var done, part := code[..|code| - rest], code[|code| - rest..];
    assert done + part == code;
    if rest != 0 {
      LastPageIsWritable(d.addr, d.pageSize);
      CommitStoresPart(d, before, start, done, part);
    } else {
      assert code[..|code|] == code;
      CommitStoresNothing(d, before, start, code);
    }
  }

  lemma {:induction false} CommitStoresPart(d: Device, before: seq<byte>, start: nat, done: seq<byte>, part: seq<byte>)
    requires IsDevice(d) && StagedAs(d, before, start, done, part) && FIRST_PAGE <= start && start + |done| <= LAST_PAGE
    requires |part| == Rem(d.addr, d.pageSize) != 0
    ensures d.addr <= EndOfPages(d) <= SPACE
    ensures Commit(d).flash[..d.addr] == before[..start] + (done + part)
    ensures Commit(d).flash[EndOfPages(d)..] == before[EndOfPages(d)..]
  {
    WritePartialPage(before, start, done, d.tmp, part, d.pageSize);
  }

  lemma {:induction false} CommitStoresNothing(d: Device, before: seq<byte>, start: nat, code: seq<byte>)
    requires IsDevice(d) && |before| == SPACE && d.addr == start + |code| && d.flash == Spliced(before, start, code)
    requires Rem(d.addr, d.pageSize) == 0
    ensures EndOfPages(d) == d.addr
    ensures Commit(d).flash[..d.addr] == before[..start] + code
    ensures Commit(d).flash[d.addr..] == before[d.addr..]
  {
    assert d.flash[..d.addr] == before[..start] + code;
  }

  /**
   Staging and committing leaves the same memory as writing byte by byte, except behind the
   code in its last page, which is erased with it.
   */
  lemma {:induction false} CommitIsBytewise(d: Device, before: seq<byte>, start: nat, code: seq<byte>)
    requires IsDevice(d) && Staged(d, before, start, code) && InWindow(start, d.addr, d.pageSize)
    ensures d.addr <= EndOfPages(d) <= SPACE && start + |code| <= |before|
    ensures
      var bytewise := WriteBytes(before, start, code);
      && Commit(d).flash[..d.addr] == bytewise[..d.addr]
      && Commit(d).flash[EndOfPages(d)..] == bytewise[EndOfPages(d)..]
  {
    CommitStores(d, before, start, code);
    WriteBytesSplices(before, start, code);
    var bytewise := Spliced(before, start, code);
    assert bytewise[..d.addr] == before[..start] + code;
    assert bytewise[EndOfPages(d)..] == before[EndOfPages(d)..];
  }

  /** What the commit leaves behind the code in its last page: an odd byte takes its neighbour along. */
  function TailByte(d: Device, i: nat): byte
    requires IsDevice(d)
  {
    var rest := Rem(d.addr, d.pageSize);
    if i == d.addr && rest % 2 == 1 then d.tmp[rest] else ERASED
  }

  lemma {:induction false} TailIsErased(d: Device, i: nat)
    requires IsDevice(d) && FIRST_PAGE <= PageOf(d.addr, d.pageSize) <= LAST_PAGE && d.addr <= i < EndOfPages(d)
    ensures Commit(d).flash[i] == TailByte(d, i)
  {
    var rest := Rem(d.addr, d.pageSize);
    var page := d.addr - rest;
    assert Commit(d).flash[i] == Programmed(d.tmp, rest)[i - page];
  }

  /** The memory after staging and committing, byte by byte. */
  lemma {:induction false} CommittedByte(d: Device, before: seq<byte>, start: nat, code: seq<byte>, i: nat)
    requires IsDevice(d) && Staged(d, before, start, code) && InWindow(start, d.addr, d.pageSize) && start <= i < SPACE
    ensures d.addr == start + |code| && |before| == SPACE
    ensures Commit(d).flash[i] ==
      if i < d.addr then code[i - start] else if i < EndOfPages(d) then TailByte(d, i) else before[i]
  {
    CommitStores(d, before, start, code);
    var flash, end := Commit(d).flash, EndOfPages(d);
    if i < d.addr {
      SameUpTo(flash, before[..start] + code, d.addr, i);
    } else if i < end {
      LastPageIsWritable(d.addr, d.pageSize);
      TailIsErased(d, i);
    } else {
      SameFrom(flash, before, end, i);
    }
  }

  lemma {:induction false} SameUpTo(a: seq<byte>, b: seq<byte>, n: nat, i: nat)
    requires n <= |a| && a[..n] == b && i < n
    ensures i < |b| && a[i] == b[i]
  {
    assert a[i] == a[..n][i];
  }

  lemma {:induction false} SameFrom(a: seq<byte>, b: seq<byte>, n: nat, i: nat)
    requires n <= i < |a| == |b| && a[n..] == b[n..]
    ensures a[i] == b[i]
  {
    assert a[i] == a[n..][i - n];
  }

  /** The two memories are the same exactly when the last page was already as the commit leaves it behind the code. */
  lemma {:induction false} BytewiseIff(d: Device, before: seq<byte>, start: nat, code: seq<byte>)
    requires IsDevice(d) && Staged(d, before, start, code) && InWindow(start, d.addr, d.pageSize)
    ensures d.addr <= EndOfPages(d) <= |before| && start + |code| <= |before|
    ensures Commit(d).flash == WriteBytes(before, start, code)
       <==> forall i :: d.addr <= i < EndOfPages(d) ==> before[i] == TailByte(d, i)
  {
    CommitIsBytewise(d, before, start, code);
    WriteBytesSplices(before, start, code);
    var committed, bytewise, end := Commit(d).flash, WriteBytes(before, start, code), EndOfPages(d);
    forall i | d.addr <= i < end ensures committed[i] == TailByte(d, i) && bytewise[i] == before[i] {
      LastPageIsWritable(d.addr, d.pageSize);
      TailIsErased(d, i);
    }
    if forall i :: d.addr <= i < end ==> before[i] == TailByte(d, i) {
      ThreeParts(committed, bytewise, d.addr, end);
    }
  }

  lemma {:induction false} ThreeParts(a: seq<byte>, b: seq<byte>, i: nat, j: nat)
    requires i <= j <= |a| == |b| && a[..i] == b[..i] && a[j..] == b[j..] && forall k :: i <= k < j ==> a[k] == b[k]
    ensures a == b
  {
    assert a == a[..i] + a[i..j] + a[j..];
    assert b == b[..i] + b[i..j] + b[j..];
  }

  /** With one byte staged, the commit also writes what an earlier page left behind it in the buffer. */
  lemma {:induction false} StaleNeighbour(before: seq<byte>, b: byte, stale: byte, x: byte, y: byte)
    requires |before| == SPACE
    ensures
      var d := Device(4, FIRST_PAGE, true, FIRST_PAGE + 1, [b, stale, x, y], before, []);
      && Staged(d, before, FIRST_PAGE, [b]) && InWindow(FIRST_PAGE, d.addr, d.pageSize)
      && Commit(d).flash[FIRST_PAGE + 1] == stale && Commit(d).flash[FIRST_PAGE + 2] == ERASED
      && (before[FIRST_PAGE + 1] != stale ==> Commit(d).flash != WriteBytes(before, FIRST_PAGE, [b]))
  {
    var d := Device(4, FIRST_PAGE, true, FIRST_PAGE + 1, [b, stale, x, y], before, []);
    RemIsRemainder(FIRST_PAGE, 4);
    RemIsRemainder(FIRST_PAGE + 1, 4);
    OneByteStaged(d, before, [b]);
    CommittedByte(d, before, FIRST_PAGE, [b], FIRST_PAGE + 1);
    CommittedByte(d, before, FIRST_PAGE, [b], FIRST_PAGE + 2);
    WriteBytesSplices(before, FIRST_PAGE, [b]);
  }

  lemma {:induction false} OneByteStaged(d: Device, before: seq<byte>, code: seq<byte>)
    requires IsDevice(d) && |before| == SPACE && d.flash == before && d.writes == [] && |code| == 1
    requires d.addr == FIRST_PAGE + 1 && Rem(d.addr, d.pageSize) == 1 && d.tmp[..1] == code
    ensures Staged(d, before, FIRST_PAGE, code)
  {
    var none, all := code[..0], code[0..];
    assert none == [] && all == code;
    assert Spliced(before, FIRST_PAGE, none) == before;
  }

  // ---- pushes ----

  function AddressBytes(a: word): seq<byte> {
    [a / 0x100, a % 0x100]
  }

  function AddressOf(payload: seq<byte>): nat
    requires |payload| >= 2
  {
    var high: int, low: int := payload[0], payload[1];
    high * 0x100 + low
  }

  lemma {:induction false} AddressRoundTrip(payload: seq<byte>, a: word)
    requires |payload| >= 2 && payload[0] == a / 0x100 && payload[1] == a % 0x100
    ensures AddressOf(payload) == a
  {
  }

  /** Each piece pushed at the address the device expects. */
  function PushAll(d: Device, pieces: seq<seq<byte>>): (r: Device)
    requires IsDevice(d)
    ensures IsDevice(r)
  {
    if pieces == [] then d
    else
      var mid := PushAll(d, pieces[..|pieces| - 1]);
      Handle(mid, PushCode(AddressBytes(mid.addr) + pieces[|pieces| - 1])).0
  }

  function Joined(pieces: seq<seq<byte>>): seq<byte> {
    if pieces == [] then [] else Joined(pieces[..|pieces| - 1]) + pieces[|pieces| - 1]
  }

  lemma {:induction false} PushFills(d: Device, piece: seq<byte>)
    requires IsDevice(d) && d.flashing && LOWEST_ADDRESS <= d.addr && piece != []
    ensures Handle(d, PushCode(AddressBytes(d.addr) + piece)).0 == Fill(d, piece)
  {
    assert (AddressBytes(d.addr) + piece)[2..] == piece;
  }

  lemma {:induction false} PushAllIsFill(d: Device, pieces: seq<seq<byte>>)
    requires IsDevice(d) && d.flashing && d.writes == [] && Rem(d.addr, d.pageSize) == 0
    requires FIRST_PAGE <= d.addr && d.addr + |Joined(pieces)| <= LAST_PAGE + d.pageSize
    requires [] !in pieces
    ensures PushAll(d, pieces) == Fill(d, Joined(pieces))
  {
    if pieces != [] {
      var init, last := pieces[..|pieces| - 1], pieces[|pieces| - 1];
      PushAllIsFill(d, init);
      var staged := StageFrom(d, Joined(init));
      PushFills(staged, last);
      FillConcat(d, Joined(init), last);
    }
  }

  /** However the code is split into pushes, the committed memory is the bytewise one. */
  lemma {:induction false} SplitDoesNotMatter(d: Device, pieces: seq<seq<byte>>)
    requires IsDevice(d) && d.flashing && d.writes == []
    requires InWindow(d.addr, d.addr + |Joined(pieces)|, d.pageSize) && [] !in pieces
    ensures
      var code, staged := Joined(pieces), PushAll(d, pieces);
      var bytewise := WriteBytes(d.flash, d.addr, code);
      && Staged(staged, d.flash, d.addr, code)
      && staged.addr == d.addr + |code| <= EndOfPages(staged) <= SPACE
      && Commit(staged).flash[..staged.addr] == bytewise[..staged.addr]
      && Commit(staged).flash[EndOfPages(staged)..] == bytewise[EndOfPages(staged)..]
  {
    PushAllIsFill(d, pieces);
    var staged := StageFrom(d, Joined(pieces));
    CommitIsBytewise(staged, d.flash, d.addr, Joined(pieces));
  }

  // ---- what no request can do ----

  function HandleAll(d: Device, reqs: seq<Request>): (r: Device)
    requires IsDevice(d)
    ensures IsDevice(r)
  {
    if reqs == [] then d else Handle(HandleAll(d, reqs[..|reqs| - 1]), reqs[|reqs| - 1]).0
  }

  /** Not in a page that may be programmed. */
  predicate Protected(pageSize: nat, i: nat) {
    i < 0x2000 || 0x7900 + pageSize <= i < 0x1_0000
  }

  lemma {:induction false} WriteKeepsProtected(flash: seq<byte>, pageSize: nat, page: nat, buf: seq<byte>, size: nat, i: nat)
    requires IsPageSize(pageSize) && |buf| == pageSize && |flash| == SPACE && Protected(pageSize, i)
    ensures WriteProgramPage(flash, pageSize, page, buf, size)[i] == flash[i]
  {
  }

  lemma {:induction false} FillKeepsProtected(d: Device, code: seq<byte>, i: nat)
    requires IsDevice(d) && Protected(d.pageSize, i)
    ensures Fill(d, code).flash[i] == d.flash[i] && Fill(d, code).pageSize == d.pageSize
  {
    if code != [] {
      var n := |code| - 1;
      FillKeepsProtected(d, code[..n], i);
      FillByteKeepsProtected(Fill(d, code[..n]), code[n], i);
    }
  }

  lemma {:induction false} FillByteKeepsProtected(d: Device, b: byte, i: nat)
    requires IsDevice(d) && Protected(d.pageSize, i)
    ensures FillByte(d, b).flash[i] == d.flash[i] && FillByte(d, b).pageSize == d.pageSize
  {
    var next := Buffered(d, b);
    WriteKeepsProtected(next.flash, next.pageSize, PageOf(d.addr, d.pageSize), next.tmp, next.pageSize, i);
  }

  /** Whatever requests come, in whatever order, the bootloader and what lies behind the application keep their bytes. */
  lemma {:induction false} ProtectedMemoryIsKept(d: Device, reqs: seq<Request>, i: nat)
    requires IsDevice(d) && Protected(d.pageSize, i)
    ensures HandleAll(d, reqs).flash[i] == d.flash[i] && HandleAll(d, reqs).pageSize == d.pageSize
  {
    if reqs != [] {
      var before := HandleAll(d, reqs[..|reqs| - 1]);
      ProtectedMemoryIsKept(d, reqs[..|reqs| - 1], i);
      match reqs[|reqs| - 1]
      case PushCode(payload) =>
        if |payload| >= 3 {
          FillKeepsProtected(before, payload[2..], i);
        }
      case CommitFlash =>
        var rest := Rem(before.addr, before.pageSize);
        WriteKeepsProtected(before.flash, before.pageSize, PageOf(before.addr, before.pageSize), before.tmp, rest, i);
      case _ =>
    }
  }

  /**
   A push is taken exactly in the stage, above the bootloader, at the device's address and with some code; it is
   refused with the number of the first condition that fails, and then changes nothing.
   */
  lemma {:induction false} PushTakenIff(d: Device, payload: seq<byte>)
    requires IsDevice(d)
    ensures
      var (after, reply) := Handle(d, PushCode(payload));
      if !d.flashing then after == d && reply == Errno(107)
      else if |payload| < 3 then after == d && reply == Errno(74)
      else if d.addr < 0x1f00 then after == d && reply == Errno(14)
      else if AddressOf(payload) != d.addr then after == d && reply == Errno(6)
      else reply == Pushed((d.addr + |payload| - 2) % 0x1_0000)
  {
    if |payload| >= 3 {
      FillWraps(d, payload[2..]);
      if payload[0] == d.addr / 0x100 && payload[1] == d.addr % 0x100 {
        assert AddressOf(payload) == d.addr;
      }
    }
  }

  lemma {:induction false} FillByteAdvances(d: Device, b: byte)
    requires IsDevice(d)
    ensures FillByte(d, b).addr == (d.addr + 1) % 0x1_0000
  {
  }

  lemma {:induction false} NextWrapped(a: nat)
    ensures (a % 0x1_0000 + 1) % 0x1_0000 == (a + 1) % 0x1_0000
  {
  }

  lemma {:induction false} FillWraps(d: Device, code: seq<byte>)
    requires IsDevice(d)
    ensures Fill(d, code).addr == (d.addr + |code|) % 0x1_0000
  {
    if code != [] {
      var n := |code| - 1;
      FillWraps(d, code[..n]);
      FillByteAdvances(Fill(d, code[..n]), code[n]);
      NextWrapped(d.addr + n);
    }
  }

  /** A commit is taken exactly in the stage and above the bootloader. */
  lemma {:induction false} CommitTakenIff(d: Device)
    requires IsDevice(d)
    ensures
      var (after, reply) := Handle(d, CommitFlash);
      if !d.flashing then after == d && reply == Errno(77)
      else if d.addr < 0x1f00 then after == d && reply == Errno(14)
      else reply == Done && !after.flashing
  {
  }
}
