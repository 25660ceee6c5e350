/** The bootloader's flash functions on their buffers: what each does is what `Flash` says. */
module FlashDevice {
  import opened Arithmetic
  import opened Bytes
  import opened Flash

  class Bootloader {
    const pageSize: nat
    const appStart: word
    const tmp: array<byte>
    const flash: array<byte>
    var flashStage: byte
    var crntAddress: word
    ghost var writes: seq<PageWrite>

    ghost predicate Valid()
      reads this
    {
      IsPageSize(pageSize) && pageSize != 1 && tmp.Length == pageSize && flash.Length == SPACE && tmp != flash && flashStage <= 1
    }

    ghost function View(): Device
      reads this, tmp, flash
    {
      Device(pageSize, appStart, flashStage == 1, crntAddress, tmp[..], flash[..], writes)
    }

    constructor (pageSize: nat, appStart: word)
      requires IsPageSize(pageSize) && pageSize != 1
      ensures Valid() && !View().flashing && View().addr == 0 && View().writes == []
      ensures this.pageSize == pageSize && this.appStart == appStart
    {
      this.pageSize, this.appStart := pageSize, appStart;
      tmp := new byte[pageSize](_ => 0);
      flash := new byte[SPACE](_ => ERASED);
      flashStage, crntAddress, writes := 0, 0, [];
    }

    method WriteProgramPage(page: nat, size: nat)
      requires Valid()
      modifies flash
      ensures Valid() && tmp[..] == old(tmp[..])
      ensures flash[..] == Flash.WriteProgramPage(old(flash[..]), pageSize, page, tmp[..], size)
    {
      if page < FIRST_PAGE || page > LAST_PAGE || size > pageSize {
        return;
      }
      forall i | 0 <= i < pageSize {
        flash[page + i] := ERASED;
      }
      var i := 0;
      while i < size
        invariant i % 2 == 0 && i <= size + size % 2 <= pageSize
        invariant flash[..page] == old(flash[..page]) && flash[page + pageSize..] == old(flash[page + pageSize..])
        invariant forall j :: page <= j < page + pageSize ==> flash[j] == if j - page < i then tmp[j - page] else ERASED
      {
        flash[page + i], flash[page + i + 1] := tmp[i], tmp[i + 1];
        i := i + 2;
      }
      assert i == size + size % 2;
      ghost var written, expected := flash[page..page + pageSize], Programmed(tmp[..], size);
      assert written == expected;
      assert flash[..] == flash[..page] + flash[page..page + pageSize] + flash[page + pageSize..];
    }

    /** Puts the byte into the page buffer and advances the address. */
    method StoreByte(b: byte)
      requires Valid()
      modifies this`crntAddress, tmp
      ensures Valid() && View() == Buffered(old(View()), b)
    {
      tmp[Rem(crntAddress, pageSize)] := b;
      crntAddress := if crntAddress + 1 == SPACE then 0 else crntAddress + 1;
    }

    method FlushPage(page: nat)
      requires Valid()
      modifies this`writes, flash
      ensures Valid() && View() == Flushed(old(View()), page)
    {
      WriteProgramPage(page, pageSize);
      writes := writes + [PageWrite(page, tmp[..])];
    }

    method FillOne(b: byte)
      requires Valid()
      modifies this`crntAddress, this`writes, tmp, flash
      ensures Valid() && View() == FillByte(old(View()), b)
    {
      var last := crntAddress;
      StoreByte(b);
      if Rem(crntAddress, pageSize) == 0 {
        FlushPage(last - Rem(last, pageSize));
      }
    }

    method FillFlash(buf: seq<byte>)
      requires Valid()
      modifies this`crntAddress, this`writes, tmp, flash
      ensures Valid() && View() == Fill(old(View()), buf)
    {
      for i := 0 to |buf|
        invariant Valid() && View() == Fill(old(View()), buf[..i])
      {
        assert buf[..i + 1][..i] == buf[..i];
        FillOne(buf[i]);
      }
      assert buf[..|buf|] == buf;
    }

    method StartFlash() returns (reply: Reply)
      requires Valid()
      modifies this`flashStage, this`crntAddress
      ensures Valid() && (View(), reply) == Handle(old(View()), Request.StartFlash)
    {
      reply := if flashStage == 1 then Errno(EALREADY) else Done;
      crntAddress := appStart;
      flashStage := 1;
    }

    method PushCode(data: seq<byte>) returns (reply: Reply)
      requires Valid()
      modifies this`crntAddress, this`writes, tmp, flash
      ensures Valid() && (View(), reply) == Handle(old(View()), Request.PushCode(data))
    {
      if flashStage == 0 {
        return Errno(ENOTCONN);
      }
      if |data| < 3 {
        return Errno(EBADMSG);
      }
      if crntAddress < LOWEST_ADDRESS {
        return Errno(EFAULT);
      }
      if data[0] != crntAddress / 0x100 || data[1] != crntAddress % 0x100 {
        return Errno(ENXIO);
      }
      FillFlash(data[2..]);
      reply := Pushed(crntAddress);
    }

    method CommitFlash() returns (reply: Reply)
      requires Valid()
      modifies this`flashStage, this`writes, flash
      ensures Valid() && (View(), reply) == Handle(old(View()), Request.CommitFlash)
    {
      if flashStage == 0 {
        return Errno(EBADFD);
      }
      if crntAddress < LOWEST_ADDRESS {
        return Errno(EFAULT);
      }
      var size := Rem(crntAddress, pageSize);
      if size != 0 {
        WriteProgramPage(crntAddress - size, size);
        writes := writes + [PageWrite(crntAddress - size, tmp[..size])];
      }
      flashStage := 0;
      reply := Done;
    }
  }
}
