/** app/keyboard/com/com_updata.c: receiving a firmware image package by package. */
module Download {
  import opened Bytes
  import opened NorFlash
  import W25qxx

  const COM_DOWNLOAD_PKG: nat := 5
  const DATA_ERR: nat := 0xFF
  const PKG_NOT_END: nat := 0
  const KERNEL_A_ADDR: nat := 0x8000
  const KERNEL_B_ADDR: nat := 0x3_A000
  const REBOOT_FLASH_BASE: nat := 0x7F0_0000
  const ETIMEDOUT: int := 110
  const ENOMEM: int := 12

  /** The command header of one package. */
  datatype Header = Header(kind: nat, dataType: nat, index: nat, end: nat, val: nat)

  /**
   What the host does in one turn of the receive loop: how the first acknowledge went, how the read of
   the payload went, how the second acknowledge went, and how the read of the next header went.
   */
  datatype Round = Round(ack: int, readRet: int, payload: seq<byte>, ackAgain: int, nextRet: int, next: Header)

  /** A package that reached the flash. */
  datatype Package = Package(tag: nat, data: seq<byte>)

  /** How a session ends: the value returned, and whether the image was taken as complete. */
  datatype Outcome = Outcome(ret: int, complete: bool)

  /** Where a partition starts; other numbers name no partition. */
  function PartitionBase(index: nat): nat {
    if index == 1 then KERNEL_A_ADDR else if index == 2 then KERNEL_B_ADDR else 0
  }

  predicate IsPartition(index: nat) {
    index <= 2
  }

  /** Whether the loop goes on to another package after the round. */
  predicate GoesOn(hdr: Header, index: nat, r: Round) {
    r.ackAgain == 0 && hdr.end == PKG_NOT_END && r.nextRet == 0 && r.next.kind == COM_DOWNLOAD_PKG
      && r.next.index == index
  }

  predicate Received(r: Round) {
    r.ack == 0 && r.readRet == 0
  }

  /** The packages that are handed to the flash, in order. */
  function Packages(hdr: Header, index: nat, rounds: seq<Round>): seq<Package>
    decreases |rounds|
  {
    if rounds == [] || !Received(rounds[0]) then []
    else [Package(hdr.dataType, rounds[0].payload)]
         + if GoesOn(hdr, index, rounds[0]) then Packages(rounds[0].next, index, rounds[1..]) else []
  }

  /** How the loop leaves a round it does not go on from. A wrong header is reported with the return code 0. */
  function RoundEnding(hdr: Header, r: Round): Outcome {
    if r.ack != 0 then Outcome(r.ack, false)
    else if r.readRet != 0 then Outcome(r.readRet, false)
    else if r.ackAgain != 0 then Outcome(r.ackAgain, false)
    else if hdr.end != PKG_NOT_END then Outcome(0, true)
    else Outcome(r.nextRet, false)
  }

  /** How the session ends; a link with no more rounds times out. */
  function Ending(hdr: Header, index: nat, rounds: seq<Round>): Outcome
    decreases |rounds|
  {
    if rounds == [] then Outcome(-ETIMEDOUT, false)
    else if Received(rounds[0]) && GoesOn(hdr, index, rounds[0]) then Ending(rounds[0].next, index, rounds[1..])
    else RoundEnding(hdr, rounds[0])
  }

  /** The header that announced the package of a round. */
  function HeaderOf(first: Header, rounds: seq<Round>, n: nat): Header
    requires n <= |rounds|
  {
    if n == 0 then first else rounds[n - 1].next
  }

  predicate Passed(first: Header, index: nat, rounds: seq<Round>, n: nat)
    requires n < |rounds|
  {
    Received(rounds[n]) && GoesOn(HeaderOf(first, rounds, n), index, rounds[n])
  }

  /**
   The package came and was acknowledged, more were announced, and a header was read that belongs to another
   command.
   */
  predicate WrongHeader(hdr: Header, index: nat, r: Round) {
    && Received(r) && r.ackAgain == 0 && hdr.end == PKG_NOT_END
    && r.nextRet == 0 && (r.next.kind != COM_DOWNLOAD_PKG || r.next.index != index)
  }

  /** The session ends with round n, for such a header. */
  ghost predicate EndsWrong(first: Header, index: nat, rounds: seq<Round>, n: nat) {
    && n < |rounds| && WrongHeader(HeaderOf(first, rounds, n), index, rounds[n])
    && forall m :: 0 <= m < n ==> Passed(first, index, rounds, m)
  }

  lemma EndsLater(first: Header, index: nat, rounds: seq<Round>, n: nat)
    requires rounds != [] && Passed(first, index, rounds, 0)
    ensures EndsWrong(first, index, rounds, n + 1) <==> EndsWrong(rounds[0].next, index, rounds[1..], n)
  {
    var next, rest := rounds[0].next, rounds[1..];
    forall m | 0 <= m < |rest| ensures Passed(next, index, rest, m) == Passed(first, index, rounds, m + 1) {
      assert HeaderOf(next, rest, m) == HeaderOf(first, rounds, m + 1);
    }
    if n < |rest| {
      assert HeaderOf(next, rest, n) == HeaderOf(first, rounds, n + 1);
    }
    if EndsWrong(next, index, rest, n) {
      forall m | 0 <= m < n + 1 ensures Passed(first, index, rounds, m) {
        assert m > 0 ==> Passed(next, index, rest, m - 1);
      }
    }
  }

  /**
   Exactly when a session that is not complete returns 0: the first round that it does not go on from ends like
   that.
   */
  lemma {:induction false} ReturnsZeroIff(first: Header, index: nat, rounds: seq<Round>)
    ensures Ending(first, index, rounds).ret == 0 && !Ending(first, index, rounds).complete
            <==> exists n :: EndsWrong(first, index, rounds, n)
    decreases |rounds|
  {
    if rounds != [] && Passed(first, index, rounds, 0) {
      ReturnsZeroIff(rounds[0].next, index, rounds[1..]);
      if n: nat :| EndsWrong(first, index, rounds, n) {
        assert n > 0;
        EndsLater(first, index, rounds, n - 1);
      } else if n: nat :| EndsWrong(rounds[0].next, index, rounds[1..], n) {
        EndsLater(first, index, rounds, n);
      }
    } else if rounds != [] {
      assert forall n: nat :: EndsWrong(first, index, rounds, n) ==> n == 0;
      assert EndsWrong(first, index, rounds, 0) <==> WrongHeader(first, index, rounds[0]);
    }
  }

  /** Everything in the round went well, and the next package of the same image is announced. */
  predicate Clean(hdr: Header, index: nat, r: Round) {
    && r.ack == 0 && r.readRet == 0 && r.ackAgain == 0 && hdr.end == 0
    && r.nextRet == 0 && r.next.kind == 5 && r.next.index == index
  }

  function FirstError(codes: seq<int>): int {
    if codes == [] then 0 else if codes[0] != 0 then codes[0] else FirstError(codes[1..])
  }

  /** The codes that the round comes to, in order: the last header is only read if another package is announced. */
  function Codes(hdr: Header, r: Round): seq<int> {
    [r.ack, r.readRet, r.ackAgain] + if hdr.end == 0 then [r.nextRet] else []
  }

  /**
   The session goes on to the first round n that is not clean. It returns the first error code of that round, is
   complete if there was none and no package was announced, and has handed over a package for each round up to there
   that brought one. If there is no such round, it times out.
   */
  lemma {:induction false} SessionIs(first: Header, index: nat, rounds: seq<Round>) returns (n: nat)
    ensures n <= |rounds| && forall m :: 0 <= m < n ==> Clean(HeaderOf(first, rounds, m), index, rounds[m])
    ensures n == |rounds| ==> Ending(first, index, rounds) == Outcome(-110, false)
    ensures n < |rounds| ==>
              var h, r := HeaderOf(first, rounds, n), rounds[n];
              && !Clean(h, index, r) && Ending(first, index, rounds).ret == FirstError(Codes(h, r))
              && (Ending(first, index, rounds).complete
                  <==> r.ack == 0 && r.readRet == 0 && r.ackAgain == 0 && h.end != 0)
    ensures |Packages(first, index, rounds)|
            == n + if n < |rounds| && rounds[n].ack == 0 && rounds[n].readRet == 0 then 1 else 0
    ensures forall m :: 0 <= m < |Packages(first, index, rounds)| ==>
              Packages(first, index, rounds)[m] == Package(HeaderOf(first, rounds, m).dataType, rounds[m].payload)
    decreases |rounds|
  {
    n := 0;
    if rounds != [] {
      var next, rest := rounds[0].next, rounds[1..];
      if Clean(first, index, rounds[0]) {
        n := SessionIs(next, index, rest);
        CleanRound(first, index, rounds);
        n := n + 1;
      } else {
        RoundIs(first, index, rounds[0]);
      }
    }
  }

  lemma CleanRound(first: Header, index: nat, rounds: seq<Round>)
    requires rounds != [] && Clean(first, index, rounds[0])
    ensures Packages(first, index, rounds)
            == [Package(first.dataType, rounds[0].payload)] + Packages(rounds[0].next, index, rounds[1..])
    ensures Ending(first, index, rounds) == Ending(rounds[0].next, index, rounds[1..])
    ensures forall m :: 0 < m <= |rounds| ==> HeaderOf(first, rounds, m) == HeaderOf(rounds[0].next, rounds[1..], m - 1)
    ensures forall m :: 0 < m < |rounds| ==> rounds[m] == rounds[1..][m - 1]
  {}

  lemma FirstOf(code: int, codes: seq<int>)
    ensures FirstError([code] + codes) == if code != 0 then code else FirstError(codes)
  {
    assert ([code] + codes)[1..] == codes;
  }

  lemma RoundIs(hdr: Header, index: nat, r: Round)
    requires !Clean(hdr, index, r)
    ensures !(Received(r) && GoesOn(hdr, index, r)) && RoundEnding(hdr, r).ret == FirstError(Codes(hdr, r))
    ensures RoundEnding(hdr, r).complete <==> r.ack == 0 && r.readRet == 0 && r.ackAgain == 0 && hdr.end != 0
  {
    var last := if hdr.end == 0 then [r.nextRet] else [];
    FirstOf(r.ack, [r.readRet, r.ackAgain] + last);
    FirstOf(r.readRet, [r.ackAgain] + last);
    FirstOf(r.ackAgain, last);
    FirstOf(r.nextRet, []);
    assert [r.nextRet] + [] == [r.nextRet] && FirstError([]) == 0;
    assert [r.ack] + ([r.readRet, r.ackAgain] + last) == Codes(hdr, r);
    assert [r.readRet] + ([r.ackAgain] + last) == [r.readRet, r.ackAgain] + last;
  }

  /** Each payload is as long as its header says, and fits the buffer allocated for the first one. */
  ghost predicate Coherent(hdr: Header, rounds: seq<Round>, bufSize: nat)
    decreases |rounds|
  {
    hdr.val <= bufSize
    && (rounds != [] ==> |rounds[0].payload| == hdr.val && Coherent(rounds[0].next, rounds[1..], bufSize))
  }

  /** The data of those packages whose tag differs from the tag of the package before them. */
  function Accepted(last: nat, pkgs: seq<Package>): seq<byte>
    decreases |pkgs|
  {
    if pkgs == [] then []
    else (if pkgs[0].tag != last then pkgs[0].data else []) + Accepted(pkgs[0].tag, pkgs[1..])
  }

  /** Where the write position is after the packages. */
  function Advance(addr: nat, last: nat, p: Package): nat {
    if p.tag != last then addr + |p.data| else addr
  }

  /** Each package ends at limit or before, where it is written. */
  ghost predicate Fits(base: nat, addr: nat, last: nat, pkgs: seq<Package>, limit: nat)
    decreases |pkgs|
  {
    pkgs != [] ==> base + addr + |pkgs[0].data| <= limit
                   && Fits(base, Advance(addr, last, pkgs[0]), pkgs[0].tag, pkgs[1..], limit)
  }

  /** The flash after the packages have been written one by one: a repeated one is written as well. */
  ghost function FlashAfter(cells: seq<byte>, base: nat, addr: nat, last: nat, pkgs: seq<Package>): (r: seq<byte>)
    requires |cells| == CAPACITY && Fits(base, addr, last, pkgs, CAPACITY)
    ensures |r| == CAPACITY
    decreases |pkgs|
  {
    if pkgs == [] then cells
    else FlashAfter(Overwrite(cells, base + addr, pkgs[0].data), base, Advance(addr, last, pkgs[0]), pkgs[0].tag,
                    pkgs[1..])
  }

  /**
   Whatever the packages are, the partition starts with the accepted data, right after what was there
   up to addr, and nothing before addr changes.
   */
  lemma {:induction false} AcceptedPrefix(cells: seq<byte>, base: nat, addr: nat, last: nat, pkgs: seq<Package>)
    requires |cells| == CAPACITY && Fits(base, addr, last, pkgs, CAPACITY) && base + addr <= CAPACITY
    ensures var image := Accepted(last, pkgs);
            && base + addr + |image| <= CAPACITY
            && FlashAfter(cells, base, addr, last, pkgs)[..base + addr + |image|] == cells[..base + addr] + image
    decreases |pkgs|
  {
    if pkgs != [] {
      var p := pkgs[0];
      var written := Overwrite(cells, base + addr, p.data);
      var addr' := Advance(addr, last, p);
      AcceptedPrefix(written, base, addr', p.tag, pkgs[1..]);
      var own := if p.tag != last then p.data else [];
      OverwriteTake(cells, base + addr, p.data);
      assert written[..base + addr'] == cells[..base + addr] + own;
      assert cells[..base + addr] + (own + Accepted(p.tag, pkgs[1..])) ==
             written[..base + addr'] + Accepted(p.tag, pkgs[1..]);
    }
  }

  /** One turn of the receive loop, on values. */
  lemma OnePackage(cells: seq<byte>, base: nat, addr: nat, last: nat, p: Package, pkgs: seq<Package>)
    ensures |Accepted(last, [p] + pkgs)| == Advance(0, last, p) + |Accepted(p.tag, pkgs)|
    ensures Fits(base, addr, last, [p] + pkgs, CAPACITY)
       ==> base + addr + |p.data| <= CAPACITY && Fits(base, Advance(addr, last, p), p.tag, pkgs, CAPACITY)
    ensures |cells| == CAPACITY && Fits(base, addr, last, [p] + pkgs, CAPACITY) ==>
              FlashAfter(cells, base, addr, last, [p] + pkgs) ==
              FlashAfter(Overwrite(cells, base + addr, p.data), base, Advance(addr, last, p), p.tag, pkgs)
  {
    assert ([p] + pkgs)[1..] == pkgs;
  }

  /** Nothing outside the range the packages cover changes. */
  lemma {:induction false} DownloadFrame(cells: seq<byte>, base: nat, addr: nat, last: nat, pkgs: seq<Package>,
                                         limit: nat)
    requires |cells| == CAPACITY && limit <= CAPACITY
    requires Fits(base, addr, last, pkgs, limit) && Fits(base, addr, last, pkgs, CAPACITY)
    ensures var r := FlashAfter(cells, base, addr, last, pkgs);
            forall i :: 0 <= i < CAPACITY && !(base <= i < limit) ==> r[i] == cells[i]
    decreases |pkgs|
  {
    if pkgs != [] {
      var p := pkgs[0];
      var written := Overwrite(cells, base + addr, p.data);
      assert forall i :: 0 <= i < CAPACITY && !(base <= i < limit) ==> written[i] == cells[i];
      DownloadFrame(written, base, Advance(addr, last, p), p.tag, pkgs[1..], limit);
    }
  }

  lemma {:induction false} FitsPrefix(base: nat, addr: nat, last: nat, pkgs: seq<Package>, n: nat)
    requires n <= |pkgs| && Fits(base, addr, last, pkgs, CAPACITY)
    ensures Fits(base, addr, last, pkgs[..n], CAPACITY)
    decreases n
  {
    if n > 0 {
      FitsPrefix(base, Advance(addr, last, pkgs[0]), pkgs[0].tag, pkgs[1..], n - 1);
      assert pkgs[..n][1..] == pkgs[1..][..n - 1];
    }
  }

  /** After each iteration the partition starts with the data accepted so far, and later iterations keep it. */
  lemma PrefixAtEveryIteration(cells: seq<byte>, base: nat, pkgs: seq<Package>, n: nat)
    requires |cells| == CAPACITY && n <= |pkgs| && Fits(base, 0, DATA_ERR, pkgs, CAPACITY) && base <= CAPACITY
    ensures Fits(base, 0, DATA_ERR, pkgs[..n], CAPACITY)
    ensures var image := Accepted(DATA_ERR, pkgs[..n]);
            && base + |image| <= CAPACITY
            && FlashAfter(cells, base, 0, DATA_ERR, pkgs[..n])[base..base + |image|] == image
            && FlashAfter(cells, base, 0, DATA_ERR, pkgs)[base..base + |image|] == image
  {
    FitsPrefix(base, 0, DATA_ERR, pkgs, n);
    AcceptedGrows(DATA_ERR, pkgs, n);
    AcceptedPrefix(cells, base, 0, DATA_ERR, pkgs[..n]);
    AcceptedPrefix(cells, base, 0, DATA_ERR, pkgs);
    var image, all := Accepted(DATA_ERR, pkgs[..n]), Accepted(DATA_ERR, pkgs);
    var r, r' := FlashAfter(cells, base, 0, DATA_ERR, pkgs[..n]), FlashAfter(cells, base, 0, DATA_ERR, pkgs);
    assert r[base..base + |image|] == r[..base + |image|][base..] == image;
    assert r'[base..base + |image|] == r'[..base + |all|][base..base + |image|] == all[..|image|] == image;
  }

  /** Packages later than the first n leave the data accepted from those n in place. */
  lemma {:induction false} AcceptedGrows(last: nat, pkgs: seq<Package>, n: nat)
    requires n <= |pkgs|
    ensures Accepted(last, pkgs[..n]) <= Accepted(last, pkgs)
    decreases n
  {
    if n > 0 {
      AcceptedGrows(pkgs[0].tag, pkgs[1..], n - 1);
      assert pkgs[..n][1..] == pkgs[1..][..n - 1];
    } else {
      assert pkgs[..n] == [];
    }
  }

  /** A sender that repeats each of its chunks, since an acknowledge may get lost. */
  datatype Chunk = Chunk(tag: nat, data: seq<byte>, repeats: nat)

  function Copies(p: Package, n: nat): seq<Package> {
    if n == 0 then [] else [p] + Copies(p, n - 1)
  }

  function Sent(chunks: seq<Chunk>): seq<Package> {
    if chunks == [] then []
    else Copies(Package(chunks[0].tag, chunks[0].data), chunks[0].repeats + 1) + Sent(chunks[1..])
  }

  function Image(chunks: seq<Chunk>): seq<byte> {
    if chunks == [] then [] else chunks[0].data + Image(chunks[1..])
  }

  predicate Alternates(last: nat, chunks: seq<Chunk>)
    decreases |chunks|
  {
    chunks != [] ==> chunks[0].tag != last && Alternates(chunks[0].tag, chunks[1..])
  }

  lemma {:induction false} CopiesAccepted(last: nat, p: Package, n: nat, rest: seq<Package>)
    ensures Accepted(last, Copies(p, n + 1) + rest)
         == (if p.tag != last then p.data else []) + Accepted(p.tag, rest)
    decreases n
  {
    var all := Copies(p, n + 1) + rest;
    assert all[0] == p && all[1..] == Copies(p, n) + rest;
    if n == 0 {
      assert Copies(p, 0) + rest == rest;
    } else {
      CopiesAccepted(p.tag, p, n - 1, rest);
      assert Accepted(p.tag, all[1..]) == [] + Accepted(p.tag, rest);
    }
  }

  /**
   Every chunk arrives exactly once, however often it is repeated, if and only if the tags alternate,
   counting DATA_ERR as the tag before the first.
   */
  lemma {:induction false} ExactlyOnce(last: nat, chunks: seq<Chunk>)
    requires forall c :: c in chunks ==> c.data != []
    ensures |Accepted(last, Sent(chunks))| <= |Image(chunks)|
    ensures Accepted(last, Sent(chunks)) == Image(chunks) <==> Alternates(last, chunks)
    decreases |chunks|
  {
    if chunks != [] {
      var c := chunks[0];
      ExactlyOnce(c.tag, chunks[1..]);
      CopiesAccepted(last, Package(c.tag, c.data), c.repeats, Sent(chunks[1..]));
      var rest := Accepted(c.tag, Sent(chunks[1..]));
      if c.tag != last {
        assert Accepted(last, Sent(chunks)) == c.data + rest;
        assert (c.data + rest)[|c.data|..] == rest && (c.data + Image(chunks[1..]))[|c.data|..] == Image(chunks[1..]);
      } else {
        assert |Accepted(last, Sent(chunks))| == |rest| < |Image(chunks)|;
      }
    }
  }

  /** The flash after a whole session: a number that names no partition leaves it alone. */
  ghost function ImageAfter(cells: seq<byte>, first: Header, rounds: seq<Round>): (r: seq<byte>)
    requires |cells| == CAPACITY
    requires IsPartition(first.index)
         ==> Fits(PartitionBase(first.index), 0, DATA_ERR, Packages(first, first.index, rounds), CAPACITY)
    ensures |r| == CAPACITY
  {
    if !IsPartition(first.index) then cells
    else FlashAfter(cells, PartitionBase(first.index), 0, DATA_ERR, Packages(first, first.index, rounds))
  }

  /**
   A host that repeats chunks as it likes, but alternates their tags, gets its image into the partition,
   and the reboot flag that follows a complete session does not touch it.
   */
  lemma DownloadDelivers(cells: seq<byte>, first: Header, rounds: seq<Round>, chunks: seq<Chunk>, flag: byte)
    requires |cells| == CAPACITY && IsPartition(first.index)
    requires Fits(PartitionBase(first.index), 0, DATA_ERR, Packages(first, first.index, rounds), CAPACITY)
    requires Packages(first, first.index, rounds) == Sent(chunks)
    requires Alternates(DATA_ERR, chunks) && forall c :: c in chunks ==> c.data != []
    requires PartitionBase(first.index) + |Image(chunks)| <= 0xF0_0000
    ensures var base, image := PartitionBase(first.index), Image(chunks);
            && ImageAfter(cells, first, rounds)[base..base + |image|] == image
            && Overwrite(ImageAfter(cells, first, rounds), 0xF0_0000, [flag])[base..base + |image|] == image
  {
    var pkgs := Packages(first, first.index, rounds);
    ExactlyOnce(DATA_ERR, chunks);
    assert pkgs[..|pkgs|] == pkgs;
    PrefixAtEveryIteration(cells, PartitionBase(first.index), pkgs, |pkgs|);
    var base, image := PartitionBase(first.index), Image(chunks);
    var r := ImageAfter(cells, first, rounds);
    assert r == FlashAfter(cells, base, 0, DATA_ERR, pkgs) && r[base..base + |image|] == image;
    NotBehind(r, 0xF0_0000, [flag], base, base + |image|);
  }

  /** A store changes nothing in front of it. */
  lemma NotBehind(cells: seq<byte>, at: nat, data: seq<byte>, from: nat, to: nat)
    requires from <= to <= at && at + |data| <= |cells|
    ensures Overwrite(cells, at, data)[from..to] == cells[from..to]
  {}

  class Updater {
    const flash: W25qxx.Driver

    ghost predicate Valid()
      reads this, flash, flash.chip
    {
      flash.Valid()
    }

    constructor (flash: W25qxx.Driver)
      requires flash.Valid()
      ensures Valid() && this.flash == flash
    {
      this.flash := flash;
    }

    /** write_img_to_flash; the caller ignores the error for a number that names no partition. */
    method WriteImgToFlash(img: seq<byte>, addr: nat, index: nat)
      requires Valid() && (IsPartition(index) ==> PartitionBase(index) + addr + |img| <= CAPACITY)
      modifies flash.chip, flash.buf
      ensures Valid()
      ensures flash.chip.cells ==
              if index == 0 then Overwrite(old(flash.chip.cells), addr, img)
              else if index == 1 then Overwrite(old(flash.chip.cells), 0x8000 + addr, img)
              else if index == 2 then Overwrite(old(flash.chip.cells), 0x3_A000 + addr, img)
              else old(flash.chip.cells)
    {
      if !IsPartition(index) {
        return;
      }
      var at := PartitionBase(index) + addr;
      if at == CAPACITY {
        W25qxx.OverwriteNone(flash.chip.cells, at, img);
        W25qxx.OverwriteNone(flash.chip.cells, Addr24(at), img);
      } else {
        W25qxx.SplitAddr24(at, 0, at);
      }
      var _ := flash.Write(at, img);
    }

    /** write_reboot_flag; the chip sees the low 24 bits of the address. */
    method WriteRebootFlag(flag: byte)
      requires Valid()
      modifies flash.chip, flash.buf
      ensures Valid() && flash.chip.cells == Overwrite(old(flash.chip.cells), 0xF0_0000, [flag])
    {
      W25qxx.SplitAddr24(REBOOT_FLASH_BASE, 7, 0xF0_0000);
      var _ := flash.Write(REBOOT_FLASH_BASE, [flag]);
    }

    /** The body of the loop of com_download_img, up to the decision whether there is another package. */
    method ReceivePackage(r: Round, hdr: Header, index: nat, addr: nat, last: nat, total: nat)
      returns (stop: bool, end: Outcome, addr': nat, last': nat, total': nat)
      requires Valid()
      requires IsPartition(index) && Received(r) ==> PartitionBase(index) + addr + |r.payload| <= CAPACITY
      modifies flash.chip, flash.buf
      ensures Valid()
      ensures stop <==> !(Received(r) && GoesOn(hdr, index, r))
      ensures stop ==> end == RoundEnding(hdr, r)
      ensures Received(r) ==> addr' == Advance(addr, last, Package(hdr.dataType, r.payload)) && last' == hdr.dataType
      ensures !Received(r) ==> addr' == addr && last' == last
      ensures total' == total + if Received(r) && hdr.dataType != last then |r.payload| else 0
      ensures flash.chip.cells == if Received(r) && IsPartition(index)
                                  then Overwrite(old(flash.chip.cells), PartitionBase(index) + addr, r.payload)
                                  else old(flash.chip.cells)
    {
      stop, addr', last', total' := true, addr, last, total;
      if r.ack != 0 {
        end := Outcome(r.ack, false);
        return;
      }
      if r.readRet != 0 {
        end := Outcome(r.readRet, false);
        return;
      }
      WriteImgToFlash(r.payload, addr, index);
      if hdr.dataType != last {
        addr' := addr + |r.payload|;
        total' := total + |r.payload|;
        last' := hdr.dataType;
      }
      if r.ackAgain != 0 {
        end := Outcome(r.ackAgain, false);
        return;
      }
      if hdr.end != PKG_NOT_END {
        end := Outcome(0, true);
        return;
      }
      end := Outcome(r.nextRet, false);
      stop := r.nextRet != 0 || r.next.kind != COM_DOWNLOAD_PKG || index != r.next.index;
    }

    /**
     The state of the loop in front of the rounds rest: size and goal are what total_size and the flash are going
     to be at the end, and total_size agrees with addr.
     */
    ghost predicate OnTheWay(hdr: Header, index: nat, rest: seq<Round>, addr: nat, last: nat, total: nat, size: nat,
                             goal: seq<byte>)
      reads this, flash, flash.chip
    {
      && Valid() && total == addr && size == addr + |Accepted(last, Packages(hdr, index, rest))|
      && (IsPartition(index) ==> Fits(PartitionBase(index), addr, last, Packages(hdr, index, rest), CAPACITY))
      && goal == if IsPartition(index)
                 then FlashAfter(flash.chip.cells, PartitionBase(index), addr, last, Packages(hdr, index, rest))
                 else flash.chip.cells
    }

    /** One turn of the loop. */
    method ReceiveTurn(hdr: Header, index: nat, r: Round, addr: nat, last: nat, total: nat,
                       ghost later: seq<Round>, ghost size: nat, ghost goal: seq<byte>)
      returns (stop: bool, end: Outcome, addr': nat, last': nat, total': nat)
      requires OnTheWay(hdr, index, [r] + later, addr, last, total, size, goal)
      modifies flash.chip, flash.buf
      ensures stop ==> end == RoundEnding(hdr, r) && total' == size && flash.chip.cells == goal && Valid()
      ensures !stop ==> OnTheWay(r.next, index, later, addr', last', total', size, goal)
      ensures stop <==> !(Received(r) && GoesOn(hdr, index, r))
    {
      ghost var rest := if GoesOn(hdr, index, r) then Packages(r.next, index, later) else [];
      PackagesFirst(hdr, index, r, later);
      if Received(r) {
        OnePackage(flash.chip.cells, PartitionBase(index), addr, last, Package(hdr.dataType, r.payload), rest);
      }
      stop, end, addr', last', total' := ReceivePackage(r, hdr, index, addr, last, total);
    }

    lemma PackagesFirst(hdr: Header, index: nat, r: Round, later: seq<Round>)
      ensures Packages(hdr, index, [r] + later) ==
              if !Received(r) then []
              else [Package(hdr.dataType, r.payload)] + if GoesOn(hdr, index, r) then Packages(r.next, index, later)
                else []
    {
      assert ([r] + later)[1..] == later;
    }

    /** The loop of com_download_img. */
    method ReceiveLoop(first: Header, rounds: seq<Round>) returns (end: Outcome, total: nat)
      requires Valid() && Coherent(first, rounds, first.val)
      requires IsPartition(first.index)
           ==> Fits(PartitionBase(first.index), 0, DATA_ERR, Packages(first, first.index, rounds), CAPACITY)
      modifies flash.chip, flash.buf
      ensures Valid()
      ensures end == Ending(first, first.index, rounds)
      ensures total == |Accepted(DATA_ERR, Packages(first, first.index, rounds))|
      ensures flash.chip.cells == ImageAfter(old(flash.chip.cells), first, rounds)
    {
      var index := first.index;
      ghost var goal, size := ImageAfter(flash.chip.cells, first, rounds),
        |Accepted(DATA_ERR, Packages(first, index, rounds))|;
      var hdr, last, k, addr := first, DATA_ERR, 0, 0;
      total := 0;
      assert rounds[0..] == rounds;
      while k < |rounds|
        invariant k <= |rounds| && OnTheWay(hdr, index, rounds[k..], addr, last, total, size, goal)
        invariant Ending(first, index, rounds) == Ending(hdr, index, rounds[k..])
      {
        ghost var later := rounds[k + 1..];
        assert rounds[k..] == [rounds[k]] + later && rounds[k..][1..] == later;
        var stop;
        stop, end, addr, last, total := ReceiveTurn(hdr, index, rounds[k], addr, last, total, later, size, goal);
        if stop {
          return;
        }
        hdr, k := rounds[k].next, k + 1;
      }
      end := Outcome(-ETIMEDOUT, false);
    }

    /** com_download_img, up to the reboot. The rounds are what the host does. */
    method DownloadImg(first: Header, gotBuf: bool, rounds: seq<Round>) returns (ret: int, total: nat)
      requires Valid() && Coherent(first, rounds, first.val) && first.index < 0x100
      requires IsPartition(first.index)
           ==> Fits(PartitionBase(first.index), 0, DATA_ERR, Packages(first, first.index, rounds), CAPACITY)
      modifies flash.chip, flash.buf
      ensures Valid()
      ensures !gotBuf ==> ret == -ENOMEM && total == 0 && flash.chip.cells == old(flash.chip.cells)
      ensures gotBuf ==>
                var end, image := Ending(first, first.index, rounds), ImageAfter(old(flash.chip.cells), first, rounds);
                && ret == end.ret && total == |Accepted(DATA_ERR, Packages(first, first.index, rounds))|
                && flash.chip.cells == if end.complete then Overwrite(image, 0xF0_0000, [first.index as byte])
                   else image
    {
      if !gotBuf {
        return -ENOMEM, 0;
      }
      var end;
      end, total := ReceiveLoop(first, rounds);
      if end.complete {
        WriteRebootFlag(first.index as byte);
      }
      return end.ret, total;
    }
  }
}
