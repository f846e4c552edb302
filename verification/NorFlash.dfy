/**
 The W25Qxx serial NOR flash chip as its driver sees it. Programming can only clear bits, erasing
 sets a whole sector to 0xFF, and a command carries 24 address bits.
 */
module NorFlash {
  import opened Bytes

  const CAPACITY: nat := 0x100_0000
  const ERASED: byte := 0xFF

  /** The part of an address that the three address bytes of a command carry. */
  function Addr24(addr: nat): nat {
    addr % 0x100_0000
  }

  /** The first address of the sector of addr. */
  function SectorBase(addr: nat): nat {
    addr - addr % 4096
  }

  ghost predicate AllErased(cells: seq<byte>) {
    forall i :: 0 <= i < |cells| ==> cells[i] == ERASED
  }

  /** The array after programming data at address at: a bit that is 0 stays 0. */
  function Programmed(cells: seq<byte>, at: nat, data: seq<byte>): (r: seq<byte>)
    requires at + |data| <= |cells|
    ensures |r| == |cells|
  {
    seq(|cells|, i requires 0 <= i < |cells| =>
      if at <= i < at + |data| then cells[i] & data[i - at] else cells[i])
  }

  /** The array after erasing the sector that starts at base. */
  function Wiped(cells: seq<byte>, base: nat): (r: seq<byte>)
    requires base + 4096 <= |cells|
    ensures |r| == |cells|
  {
    seq(|cells|, i requires 0 <= i < |cells| => if base <= i < base + 4096 then ERASED else cells[i])
  }

  class NorChip {
    var cells: seq<byte>
    // The numbers of the sectors erased so far, oldest first.
    ghost var erased: seq<nat>

    ghost predicate Valid()
      reads this
    {
      |cells| == CAPACITY
    }

    constructor (cells: seq<byte>)
      requires |cells| == CAPACITY
      ensures Valid() && this.cells == cells && erased == []
    {
      this.cells := cells;
      erased := [];
    }

    /** Command 0x20: the sector that holds addr reads 0xFF afterwards. */
    method SectorErase(addr: nat)
      requires Valid()
      modifies this
      ensures Valid()
      ensures cells == Wiped(old(cells), SectorBase(Addr24(addr)))
      ensures erased == old(erased) + [Addr24(addr) / 4096]
    {
      cells := Wiped(cells, SectorBase(Addr24(addr)));
      erased := erased + [Addr24(addr) / 4096];
    }

    /** Command 0x02: clears bits inside one page. */
    method PageProgram(addr: nat, data: seq<byte>)
      requires Valid()
      requires addr % 256 + |data| <= 256
      modifies `cells
      ensures Valid() && Addr24(addr) + |data| <= CAPACITY
      ensures cells == Programmed(old(cells), Addr24(addr), data)
    {
      cells := Programmed(cells, Addr24(addr), data);
    }

    /** Command 0x03: the k-th byte that a sequential read from addr shifts out. */
    function ReadByte(addr: nat, k: nat): (b: byte)
      requires Valid()
      reads this
    {
      cells[(Addr24(addr) + k) % 0x100_0000]
    }
  }
}
