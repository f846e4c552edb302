/** drivers/spi/spi-w25qxx.c: arbitrary writes on top of page programming and sector erasing. */
module W25qxx {
  import opened Bytes
  import opened NorFlash

  /** How much of a write of size bytes, starting off bytes into a sector, falls in that sector. */
  function Chunk(off: nat, size: nat): (n: nat)
    requires off < 4096
    ensures n <= size && off + n <= 4096 && (size > 0 ==> n > 0) && (n < size ==> off + n == 4096)
  {
    if size <= 4096 - off then size else 4096 - off
  }

  /** How much of a write falls in the last sector that it comes to. */
  function LastPart(off: nat, size: nat): (n: nat)
    requires off < 4096
    ensures n <= size && (size > 0 ==> n > 0) && (n == size <==> off + size <= 4096)
  {
    if off + size <= 4096 then size else if (off + size) % 4096 == 0 then 4096 else (off + size) % 4096
  }

  /** Ahead of it are whole sectors, from the one that the write starts in. */
  lemma LastPartIs(off: nat, size: nat)
    requires off < 4096 && off + size > 4096
    ensures LastPart(off, size) <= 4096 && (off + size - LastPart(off, size)) % 4096 == 0
  {
    var end, sectors := off + size, (off + size) / 4096;
    assert end == sectors * 4096 + end % 4096;
    WholeSectors(sectors);
    WholeSectors(sectors - 1);
  }

  lemma WholeSectors(n: nat)
    ensures n * 4096 % 4096 == 0
  {}

  /** That does not change from one sector to the next. */
  lemma LastPartNext(off: nat, size: nat, n: nat)
    requires off < 4096 && n == Chunk(off, size) < size
    ensures LastPart(0, size - n) == LastPart(off, size)
  {}

  /** An address split into its upper bits, which no command carries, and the part the chip sees. */
  lemma SplitAddr24(addr: nat, high: nat, low: nat)
    requires addr == high * 0x100_0000 + low && low < CAPACITY
    ensures Addr24(addr) == low
  {}

  lemma InSector(addr: nat, high: nat, low: nat, k: nat)
    requires addr == high * 0x100_0000 + low && low + k < 0x100_0000
    ensures (addr % 0x100_0000 + k) % 0x100_0000 == low + k
  {
    SplitAddr24(addr, high, low);
  }

  lemma InBuffer(b: seq<byte>, cells: seq<byte>, base: nat, off: nat, n: nat)
    requires off + n <= 4096 && base + 4096 <= |cells| && b == cells[base..base + 4096]
    ensures b[off..off + n] == cells[base + off..base + off + n]
  {
    var part, same := b[off..off + n], cells[base + off..base + off + n];
    forall i | 0 <= i < n ensures part[i] == same[i] {
      assert b[off + i] == cells[base + (off + i)];
    }
  }

  lemma SectorParts(pos: nat)
    ensures pos / 4096 == pos / 0x100_0000 * 4096 + Addr24(pos) / 4096 && pos % 4096 == Addr24(pos) % 4096
    ensures Addr24(pos) / 4096 < 4096
  {}

  lemma SplitPage(addr: nat, page: nat, inPage: nat)
    requires addr == page * 256 + inPage && inPage < 256
    ensures addr % 256 == inPage
  {}

  function Max(x: nat, y: nat): nat { if x < y then y else x }

  function Min(x: nat, y: nat): nat { if x < y then x else y }

  ghost predicate Dirty(cells: seq<byte>, from: nat, to: nat)
    requires to <= |cells|
  {
    exists i :: from <= i < to && cells[i] != ERASED
  }

  lemma DirtyIff(cells: seq<byte>, from: nat, to: nat)
    requires from <= to <= |cells|
    ensures Dirty(cells, from, to) <==> !AllErased(cells[from..to])
  {
    if Dirty(cells, from, to) {
      var i :| from <= i < to && cells[i] != ERASED;
      assert cells[from..to][i - from] != ERASED;
    }
  }

  /** The erase log after the chunk of n bytes at off in the sector, given the log before it. */
  ghost function Logged(log: seq<nat>, cells: seq<byte>, sector: nat, off: nat, n: nat): seq<nat>
    requires sector * 4096 + off + n <= |cells|
  {
    if AllErased(cells[sector * 4096 + off..sector * 4096 + off + n]) then log else log + [sector]
  }

  /**
   The sectors a write of size bytes erases, given what the flash holds before it. The write starts
   off bytes into the sector with number sector.
   */
  ghost function DirtySectors(cells: seq<byte>, sector: nat, off: nat, size: nat): seq<nat>
    requires off < 4096 && sector * 4096 + off + size <= |cells|
    decreases size
  {
    var n := Chunk(off, size);
    var own := Logged([], cells, sector, off, n);
    if n == size then own else own + DirtySectors(cells, sector + 1, 0, size - n)
  }

  /** A sector is erased exactly when some byte of the target range in it is not 0xFF. */
  lemma {:induction false} DirtySectorsAre(cells: seq<byte>, sector: nat, off: nat, size: nat, s: nat)
    requires off < 4096 && sector * 4096 + off + size <= |cells|
    ensures s in DirtySectors(cells, sector, off, size)
       <==> Dirty(cells, Max(s * 4096, sector * 4096 + off), Min(s * 4096 + 4096, sector * 4096 + off + size))
    decreases size
  {
    var n, pos := Chunk(off, size), sector * 4096 + off;
    var own := Logged([], cells, sector, off, n);
    FirstSector(cells, sector, off, n, s);
    if n < size {
      var next, end := sector * 4096 + 4096, pos + size;
      DirtySectorsAre(cells, sector + 1, 0, size - n, s);
      var rest := DirtySectors(cells, sector + 1, 0, size - n);
      assert s in own + rest <==> s in own || s in rest;
      assert DirtySectors(cells, sector, off, size) == own + rest;
      MoreSectors(cells, s * 4096, pos, next, end, s <= sector);
    }
  }

  lemma FirstSector(cells: seq<byte>, sector: nat, off: nat, n: nat, s: nat)
    requires off + n <= 4096 && sector * 4096 + off + n <= |cells|
    ensures s in Logged([], cells, sector, off, n)
       <==> Dirty(cells, Max(s * 4096, sector * 4096 + off), Min(s * 4096 + 4096, sector * 4096 + off + n))
  {
    DirtyIff(cells, sector * 4096 + off, sector * 4096 + off + n);
    OneSector(cells, s * 4096, sector * 4096, off, n);
  }

  /** In the first sector of a write: at is where another sector starts. */
  lemma OneSector(cells: seq<byte>, at: nat, base: nat, off: nat, n: nat)
    requires off + n <= 4096 && base + off + n <= |cells| && (at == base || at + 4096 <= base || base + 4096 <= at)
    ensures at == base && Dirty(cells, base + off, base + off + n)
            <==> Dirty(cells, Max(at, base + off), Min(at + 4096, base + off + n))
  {}

  /** In the others. */
  lemma MoreSectors(cells: seq<byte>, at: nat, pos: nat, next: nat, end: nat, early: bool)
    requires pos <= next <= end <= |cells| && if early then at + 4096 <= next else next <= at
    ensures Dirty(cells, Max(at, pos), Min(at + 4096, end))
            <==> Dirty(cells, Max(at, pos), Min(at + 4096, next)) || Dirty(cells, Max(at, next), Min(at + 4096, end))
  {}

  ghost predicate AscendingFrom(d: seq<nat>, low: nat) {
    && (forall k :: 0 <= k < |d| ==> low <= d[k])
    && (forall j, k :: 0 <= j < k < |d| ==> d[j] < d[k])
  }

  lemma AscendingCons(x: nat, d: seq<nat>, low: nat)
    requires AscendingFrom(d, low) && x < low
    ensures AscendingFrom([x] + d, x) && AscendingFrom([] + d, x)
  {}

  /** No sector is erased twice by one write, and the sectors go up. */
  lemma {:induction false} DirtySectorsAscend(cells: seq<byte>, sector: nat, off: nat, size: nat)
    requires off < 4096 && sector * 4096 + off + size <= |cells|
    ensures AscendingFrom(DirtySectors(cells, sector, off, size), sector)
    decreases size
  {
    var n := Chunk(off, size);
    if n < size {
      DirtySectorsAscend(cells, sector + 1, 0, size - n);
      var rest := DirtySectors(cells, sector + 1, 0, size - n);
      AscendingCons(sector, rest, sector + 1);
      assert Logged([], cells, sector, off, n) == [] || Logged([], cells, sector, off, n) == [sector];
    }
  }

  lemma SameTail(before: seq<byte>, now: seq<byte>, pos: nat, n: nat)
    requires pos + n <= |before| == |now| && now[pos..] == before[pos..]
    ensures now[pos..pos + n] == before[pos..pos + n] && now[pos + n..] == before[pos + n..]
  {
    assert now[pos..pos + n] == now[pos..][..n] == before[pos..][..n] == before[pos..pos + n];
    assert now[pos + n..] == now[pos..][n..] == before[pos..][n..] == before[pos + n..];
  }

  /** What a write erases depends on the range it covers only. */
  lemma {:induction false} DirtySectorsLocal(before: seq<byte>, now: seq<byte>, sector: nat, off: nat, size: nat)
    requires off < 4096 && sector * 4096 + off + size <= |before| == |now|
    requires now[sector * 4096 + off..] == before[sector * 4096 + off..]
    ensures DirtySectors(now, sector, off, size) == DirtySectors(before, sector, off, size)
    decreases size
  {
    var n, pos := Chunk(off, size), sector * 4096 + off;
    SameTail(before, now, pos, n);
    if n < size {
      DirtySectorsLocal(before, now, sector + 1, 0, size - n);
    }
  }

  /** The erase log stays on schedule when a chunk is stored. */
  lemma LogChunk(goal: seq<nat>, log: seq<nat>, cells: seq<byte>, cells': seq<byte>, sector: nat, off: nat, size: nat,
                 n: nat, next: nat, after: nat, more: nat)
    requires after == sector + 1 && more == size - n
    requires off < 4096 && sector * 4096 + off + size <= |cells| == |cells'| && n == Chunk(off, size)
    requires next == sector * 4096 + off + n && cells'[next..] == cells[next..]
    requires goal == log + DirtySectors(cells, sector, off, size)
    ensures goal == if more == 0 then Logged(log, cells, sector, off, n)
                    else Logged(log, cells, sector, off, n) + DirtySectors(cells', after, 0, more)
  {
    if n < size {
      DirtySectorsLocal(cells, cells', sector + 1, 0, size - n);
      LogAppend(log, cells, sector, off, n, DirtySectors(cells, sector + 1, 0, size - n));
    } else {
      LogAppend(log, cells, sector, off, n, []);
      assert Logged([], cells, sector, off, n) + [] == Logged([], cells, sector, off, n);
      assert Logged(log, cells, sector, off, n) + [] == Logged(log, cells, sector, off, n);
    }
  }

  lemma LogAppend(log: seq<nat>, cells: seq<byte>, sector: nat, off: nat, n: nat, rest: seq<nat>)
    requires sector * 4096 + off + n <= |cells|
    ensures log + (Logged([], cells, sector, off, n) + rest) == Logged(log, cells, sector, off, n) + rest
  {}

  /** One turn of the loop of w25qxx_write, on values: the stored prefix grows, and nothing behind the chunk changes. */
  lemma ChunkStored(before: seq<byte>, a: nat, data: seq<byte>, index: nat, n: nat, now: seq<byte>, now': seq<byte>,
                    at: nat, next: nat)
    requires at == a + index && a + |data| <= |before| && next == index + n <= |data|
    requires now == Overwrite(before, a, data[..index]) && now' == Overwrite(now, at, data[index..index + n])
    ensures now' == Overwrite(before, a, data[..next]) && now'[at + n..] == now[at + n..]
  {
    OverwriteMore(before, a, data, index, n);
    OverwriteTake(now, at, data[index..index + n]);
  }

  lemma OnesAnd(b: byte)
    ensures ERASED & b == b
  {}

  /** Programming cells that are erased stores the data. */
  lemma ProgramErased(cells: seq<byte>, at: nat, data: seq<byte>)
    requires at + |data| <= |cells| && AllErased(cells[at..at + |data|])
    ensures Programmed(cells, at, data) == Overwrite(cells, at, data)
  {
    forall i | at <= i < at + |data|
      ensures cells[i] & data[i - at] == data[i - at]
    {
      assert cells[i] == cells[at..at + |data|][i - at];
      OnesAnd(data[i - at]);
    }
  }

  /** Without an erase, a write succeeds exactly when no bit of the data that is 1 is already 0. */
  lemma ProgramStoresIff(cells: seq<byte>, at: nat, data: seq<byte>)
    requires at + |data| <= |cells|
    ensures Programmed(cells, at, data) == Overwrite(cells, at, data)
       <==> forall i :: 0 <= i < |data| ==> cells[at + i] & data[i] == data[i]
  {
    var p, o := Programmed(cells, at, data), Overwrite(cells, at, data);
    if p == o {
      forall i | 0 <= i < |data| ensures cells[at + i] & data[i] == data[i] {
        assert p[at + i] == o[at + i];
      }
    } else {
      assert !(forall i :: 0 <= i < |p| ==> p[i] == o[i]);
      var k :| 0 <= k < |p| && p[k] != o[k];
      assert cells[at + (k - at)] & data[k - at] != data[k - at];
    }
  }

  /** Programming one more piece of the data right after the pieces already programmed. */
  lemma ProgramMore(cells: seq<byte>, at: nat, data: seq<byte>, done: nat, n: nat)
    requires done + n <= |data| && at + |data| <= |cells|
    ensures Programmed(Programmed(cells, at, data[..done]), at + done, data[done..done + n])
         == Programmed(cells, at, data[..done + n])
  {
    var a := Programmed(Programmed(cells, at, data[..done]), at + done, data[done..done + n]);
    var b := Programmed(cells, at, data[..done + n]);
    forall i | 0 <= i < |cells| ensures a[i] == b[i] {
      if at + done <= i < at + done + n {
        assert data[done..done + n][i - at - done] == data[..done + n][i - at];
      }
    }
  }

  /** Erasing a sector and programming its patched copy back overwrites just the patch. */
  lemma PatchSector(cells: seq<byte>, base: nat, off: nat, data: seq<byte>)
    requires base + 4096 <= |cells| && off + |data| <= 4096
    ensures Programmed(Wiped(cells, base), base, Overwrite(cells[base..base + 4096], off, data))
         == Overwrite(cells, base + off, data)
  {
    var copy := Overwrite(cells[base..base + 4096], off, data);
    ProgramErased(Wiped(cells, base), base, copy);
  }

  lemma ProgramNone(cells: seq<byte>, at: nat, none: seq<byte>)
    requires at <= |cells| && none == []
    ensures Programmed(cells, at, none) == cells
  {}

  lemma OverwriteNone<T>(cells: seq<T>, at: nat, none: seq<T>)
    requires at <= |cells| && none == []
    ensures Overwrite(cells, at, none) == cells
  {}

  lemma OverwriteStep<T>(cells: seq<T>, at: nat, data: seq<T>, i: nat)
    requires i < |data| && at + |data| <= |cells|
    ensures Overwrite(cells, at, data[..i])[at + i := data[i]] == Overwrite(cells, at, data[..i + 1])
  {
    OverwriteMore(cells, at, data, i, 1);
    assert data[i..i + 1] == [data[i]];
  }

  lemma OverwriteMore<T>(cells: seq<T>, at: nat, data: seq<T>, done: nat, n: nat)
    requires done + n <= |data| && at + |data| <= |cells|
    ensures Overwrite(Overwrite(cells, at, data[..done]), at + done, data[done..done + n])
         == Overwrite(cells, at, data[..done + n])
  {
    var a := Overwrite(Overwrite(cells, at, data[..done]), at + done, data[done..done + n]);
    var b := Overwrite(cells, at, data[..done + n]);
    assert data[..done] + data[done..done + n] == data[..done + n];
    assert forall i :: 0 <= i < |cells| ==> a[i] == b[i];
  }

  class Driver {
    const chip: NorChip
    const buf: array<byte>

    ghost predicate Valid()
      reads this, chip
    {
      chip.Valid() && buf.Length == 4096
    }

    constructor (chip: NorChip)
      requires chip.Valid()
      ensures Valid() && this.chip == chip && fresh(buf)
    {
      this.chip := chip;
      buf := new byte[4096];
    }

    /** w25qxx_erase_sector; the chip knows the sector by the low part s of its number. */
    method EraseSector(sector: nat, ghost high: nat, ghost s: nat)
      requires Valid() && sector == high * 4096 + s && s < 4096
      modifies chip
      ensures Valid() && chip.cells == Wiped(old(chip.cells), s * 4096)
      ensures chip.erased == old(chip.erased) + [s]
    {
      SplitAddr24(sector * 4096, high, s * 4096);
      chip.SectorErase(sector * 4096);
    }

    /** w25qxx_read; its loop counter is 16 bits wide. */
    method Read(pos: nat, buffer: array<byte>, size: nat) returns (r: nat)
      requires Valid()
      requires size <= buffer.Length && size < 0x1_0000
      modifies buffer
      ensures r == size
      ensures forall k :: 0 <= k < size ==> buffer[k] == chip.cells[(pos % 0x100_0000 + k) % 0x100_0000]
      ensures forall k :: size <= k < buffer.Length ==> buffer[k] == old(buffer[k])
    {
      var i := 0;
      while i < size
        invariant i <= size
        invariant forall k :: 0 <= k < i ==> buffer[k] == chip.cells[(pos % 0x100_0000 + k) % 0x100_0000]
        invariant forall k :: i <= k < buffer.Length ==> buffer[k] == old(buffer[k])
      {
        buffer[i] := chip.ReadByte(pos, i);
        i := i + 1;
      }
      return size;
    }

    /** w25qxx_write_page */
    method WritePage(data: seq<byte>, addr: nat)
      requires Valid() && addr % 256 + |data| <= 256
      modifies chip`cells
      ensures Valid() && Addr24(addr) + |data| <= CAPACITY
      ensures chip.cells == Programmed(old(chip.cells), Addr24(addr), data)
    {
      chip.PageProgram(addr, data);
    }

    /** One turn of the loop of w25qxx_write_no_check. */
    method WritePiece(data: seq<byte>, done: nat, n: nat, writeAddr: nat, ghost high: nat, ghost a: nat,
                      ghost before: seq<byte>)
      requires Valid() && done + n <= |data| && writeAddr % 256 + n <= 256
      requires writeAddr == high * 0x100_0000 + a + done && a + |data| <= CAPACITY == |before|
      requires chip.cells == Programmed(before, a, data[..done])
      modifies chip`cells
      ensures Valid() && chip.cells == Programmed(before, a, data[..done + n])
    {
      var piece := data[done..done + n];
      ghost var now := chip.cells;
      WritePage(piece, writeAddr);
      if n > 0 {
        SplitAddr24(writeAddr, high, a + done);
      } else {
        ProgramNone(now, a + done, piece);
        ProgramNone(now, Addr24(writeAddr), piece);
      }
      ProgramMore(before, a, data, done, n);
    }

    /** w25qxx_write_no_check: turns the page as needed, and never erases. */
    method WriteNoCheck(data: seq<byte>, addr: nat, ghost high: nat, ghost a: nat)
      requires Valid() && |data| < 0x1_0000
      requires addr == high * 0x100_0000 + a && a + |data| <= CAPACITY
      modifies chip`cells
      ensures Valid() && chip.cells == Programmed(old(chip.cells), a, data)
    {
      ghost var before := chip.cells;
      ghost var page, inPage: nat := addr / 256, addr % 256;
      var done, writeAddr, toWrite: nat := 0, addr, |data|;
      var pageremain: nat := 256 - addr % 256;
      if toWrite <= pageremain {
        pageremain := toWrite;
      }
      ProgramNone(before, a, data[..0]);
      while true
        invariant Valid() && done + toWrite == |data| && writeAddr == addr + done
        invariant toWrite > 0 || done == 0
        invariant writeAddr == page * 256 + inPage && inPage < 256
        invariant pageremain == if toWrite <= 256 - inPage then toWrite else 256 - inPage
        invariant chip.cells == Programmed(before, a, data[..done])
        decreases toWrite
      {
        SplitPage(writeAddr, page, inPage);
        WritePiece(data, done, pageremain, writeAddr, high, a, before);
        if toWrite == pageremain {
          break;
        }
        done, writeAddr, toWrite := done + pageremain, writeAddr + pageremain, toWrite - pageremain;
        page, inPage := page + 1, 0;
        if toWrite > 256 {
          pageremain := 256;
        } else {
          pageremain := toWrite;
        }
      }
      assert data[..|data|] == data;
    }

    /** The check of w25qxx_write: finds the first byte of buf[secoff..secoff + n) that is not 0xFF. */
    method ErasedRun(secoff: nat, n: nat) returns (i: nat)
      requires Valid() && secoff + n <= 4096
      ensures i <= n && (forall k :: secoff <= k < secoff + i ==> buf[k] == ERASED)
              && (i < n ==> buf[secoff + i] != ERASED)
      ensures i < n <==> !AllErased(buf[secoff..secoff + n])
    {
      i := 0;
      while i < n
        invariant i <= n
        invariant forall k :: secoff <= k < secoff + i ==> buf[k] == ERASED
      {
        if buf[secoff + i] != ERASED {
          assert buf[secoff..secoff + n][i] != ERASED;
          return;
        }
        i := i + 1;
      }
    }

    /** The dirty branch of w25qxx_write, once buf holds the sector: patch, erase and program it back. */
    method RewriteSector(secpos: nat, secoff: nat, data: seq<byte>, ghost high: nat, ghost sector: nat)
      requires Valid() && secoff + |data| <= 4096
      requires secpos == high * 4096 + sector && sector < 4096
      requires buf[..] == chip.cells[sector * 4096..sector * 4096 + 4096]
      modifies chip, buf
      ensures Valid() && chip.cells == Overwrite(old(chip.cells), sector * 4096 + secoff, data)
      ensures chip.erased == old(chip.erased) + [sector]
    {
      ghost var before, copy := chip.cells, buf[..];
      EraseSector(secpos, high, sector);
      OverwriteNone(copy, secoff, data[..0]);
      var i := 0;
      while i < |data|
        modifies buf
        invariant i <= |data|
        invariant buf[..] == Overwrite(copy, secoff, data[..i])
      {
        OverwriteStep(copy, secoff, data, i);
        buf[i + secoff] := data[i];
        i := i + 1;
      }
      assert data[..|data|] == data;
      WriteNoCheck(buf[..], secpos * 4096, high, sector * 4096);
      PatchSector(before, sector * 4096, secoff, data);
    }

    /** Reads a sector into the driver's own buffer. */
    method ReadSector(secpos: nat, ghost high: nat, ghost sector: nat)
      requires Valid() && secpos == high * 4096 + sector && sector < 4096
      modifies buf
      ensures Valid() && buf[..] == chip.cells[sector * 4096..sector * 4096 + 4096]
    {
      var _ := Read(secpos * 4096, buf, 4096);
      forall k | 0 <= k < 4096 ensures buf[k] == chip.cells[sector * 4096 + k] {
        InSector(secpos * 4096, high, sector * 4096, k);
      }
    }

    /** One turn of the loop of w25qxx_write: the part of the write that falls in one sector. */
    method WriteChunk(secpos: nat, secoff: nat, data: seq<byte>, ghost high: nat, ghost sector: nat)
      requires Valid() && secoff < 4096 && secoff + |data| <= 4096
      requires secpos == high * 4096 + sector && sector < 4096
      modifies chip, buf
      ensures Valid() && chip.cells == Overwrite(old(chip.cells), sector * 4096 + secoff, data)
      ensures chip.erased == Logged(old(chip.erased), old(chip.cells), sector, secoff, |data|)
    {
      SplitAddr24(secpos * 4096, high, sector * 4096);
      ghost var a, before := sector * 4096 + secoff, chip.cells;
      ReadSector(secpos, high, sector);
      assert buf[secoff..secoff + |data|] == buf[..][secoff..secoff + |data|];
      InBuffer(buf[..], before, sector * 4096, secoff, |data|);
      var i := ErasedRun(secoff, |data|);
      if i < |data| {
        RewriteSector(secpos, secoff, data, high, sector);
      } else {
        WriteNoCheck(data, secpos * 4096 + secoff, high, a);
        ProgramErased(before, a, data);
      }
    }

    /** One turn of the loop of w25qxx_write, seen from the whole write. */
    method StoreChunk(secpos: nat, off: nat, data: seq<byte>, index: nat, n: nat, ghost left: nat,
                      ghost high: nat, ghost sector: nat, ghost before: seq<byte>, ghost a: nat, ghost goal: seq<nat>,
                      ghost next: nat, ghost more: nat, ghost after: nat)
      requires next == index + n && more == left - n && after == sector + 1
      requires Valid() && off < 4096 && index + left == |data| && n == Chunk(off, left)
      requires secpos == high * 4096 + sector && sector < 4096 && a + index == sector * 4096 + off
      requires a + |data| <= CAPACITY == |before|
      requires chip.cells == Overwrite(before, a, data[..index])
      requires goal == chip.erased + DirtySectors(chip.cells, sector, off, left)
      modifies chip, buf
      ensures Valid() && chip.cells == Overwrite(before, a, data[..next])
      ensures goal == if more == 0 then chip.erased else chip.erased + DirtySectors(chip.cells, after, 0, more)
    {
      ghost var now, log, at := chip.cells, chip.erased, sector * 4096 + off;
      WriteChunk(secpos, off, data[index..index + n], high, sector);
      ChunkStored(before, a, data, index, n, now, chip.cells, at, next);
      LogChunk(goal, log, now, chip.cells, sector, off, left, n, at + n, after, more);
    }

    /**
     The loop of w25qxx_write. It starts secoff bytes into a sector that the driver knows by the number
     secpos, and the chip by the low part first of that number.
     */
    method WriteLoop(secpos: nat, secoff: nat, data: seq<byte>, ghost high: nat, ghost first: nat) returns (r: nat)
      requires Valid() && secoff < 4096
      requires secpos == high * 4096 + first && first < 4096 && first * 4096 + secoff + |data| <= CAPACITY
      modifies chip, buf
      ensures Valid() && chip.cells == Overwrite(old(chip.cells), first * 4096 + secoff, data)
      ensures chip.erased == old(chip.erased) + DirtySectors(old(chip.cells), first, secoff, |data|)
      ensures r == LastPart(secoff, |data|)
    {
      ghost var before, a, sector: nat := chip.cells, first * 4096 + secoff, first;
      ghost var goal := chip.erased + DirtySectors(before, first, secoff, |data|);
      var pos, off, index, left: nat := secpos, secoff, 0, |data|;
      var secremain := Chunk(secoff, |data|);
      OverwriteNone(before, a, data[..0]);
      while true
        invariant Valid() && LastPart(off, left) == LastPart(secoff, |data|)
        invariant index + left == |data| && off < 4096 && secremain == Chunk(off, left)
        invariant pos == high * 4096 + sector && sector < 4096 && a + index == sector * 4096 + off
        invariant chip.cells == Overwrite(before, a, data[..index])
        invariant goal == chip.erased + DirtySectors(chip.cells, sector, off, left)
        decreases left
      {
        var next, more := index + secremain, left - secremain;
        ghost var after := sector + 1;
        StoreChunk(pos, off, data, index, secremain, left, high, sector, before, a, goal, next, more, after);
        if more == 0 {
          break;
        }
        LastPartNext(off, left, secremain);
        pos, off, sector, index, left := pos + 1, 0, after, next, more;
        secremain := ChunkAtStart(left);
      }
      assert data[..|data|] == data;
      return left;
    }

    /** The size of the next chunk when it starts with a sector. */
    method ChunkAtStart(left: nat) returns (n: nat)
      ensures n == Chunk(0, left)
    {
      if left > 4096 {
        return 4096;
      }
      return left;
    }

    /**
     w25qxx_write is a plain memory write, and erases just the sectors whose target range was dirty.
     What it returns is the size of the last chunk: that is the size asked for only within one sector.
     */
    method Write(pos: nat, data: seq<byte>) returns (r: nat)
      requires Valid() && Addr24(pos) + |data| <= CAPACITY
      modifies chip, buf
      ensures Valid() && chip.cells == Overwrite(old(chip.cells), Addr24(pos), data)
      ensures chip.erased
           == old(chip.erased) + DirtySectors(old(chip.cells), Addr24(pos) / 4096, Addr24(pos) % 4096, |data|)
      ensures r == LastPart(Addr24(pos) % 4096, |data|)
    {
      SectorParts(pos);
      r := WriteLoop(pos / 4096, pos % 4096, data, pos / 0x100_0000, Addr24(pos) / 4096);
    }
  }
}
