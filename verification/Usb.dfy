/** drivers/usb/device/core/core.c: how transfers are cut into packets and put together again, callback by callback. */
module Usb {
  import opened Bytes
  import opened Words

  // ---------- endpoint 0, data stage towards the host

  datatype Stage = DataIn | StatusOut | Other

  /**
   The endpoint and its request. The buffer pointer is an offset into data, remain is a 32-bit word, and sent holds the
   packets handed to the controller.
   */
  datatype Control = Control(mps: MaxPacket, data: seq<byte>, offset: nat, size: Word, remain: Word, stage: Stage,
                             sent: seq<seq<byte>>)

  type MaxPacket = n: nat | 0 < n <= 0xffff witness 64

  /** Unsigned subtraction. */
  function Minus(a: Word, b: Word): Word {
    if a >= b then a - b else a - b + U32
  }

  function Piece(data: seq<byte>, at: nat, n: nat): seq<byte> {
    if at + n <= |data| then data[at..at + n] else []
  }

  /** usbd_ep0_write */
  function Ep0Write(c: Control, data: seq<byte>): Control
    requires |data| < U32
  {
    var n := if |data| >= c.mps then c.mps else |data|;
    c.(data := data, offset := 0, size := |data|, remain := |data|, stage := DataIn,
       sent := c.sent + [Piece(data, 0, n)])
  }

  /** usbd_ep0_in_handler, called when the host has taken a packet. */
  function Ep0Taken(c: Control): Control {
    if c.stage != DataIn then c
    else
      var word := Minus(c.remain, c.mps);
      var remain := Signed(word);
      if remain > 0 then
        c.(remain := word, offset := c.offset + c.mps,
           sent := c.sent + [Piece(c.data, c.offset + c.mps, if remain >= c.mps then c.mps else remain)])
      else if remain == 0 && c.size > 0 then c.(remain := word, size := 0, sent := c.sent + [[]])
      else c.(remain := word, stage := StatusOut)
  }

  function TakenTimes(c: Control, n: nat): Control
    decreases n
  {
    if n == 0 then c else TakenTimes(Ep0Taken(c), n - 1)
  }

  /**
   A transfer cut as section 5.5.3 of USB 2.0 wants it: full packets, and a last one that is shorter, perhaps empty.
   */
  function Cut(data: seq<byte>, mps: nat): (ps: seq<seq<byte>>)
    requires mps > 0
    ensures ps != []
    decreases |data|
  {
    if |data| < mps then [data] else [data[..mps]] + Cut(data[mps..], mps)
  }

  lemma {:induction false} CutIs(data: seq<byte>, mps: nat)
    requires mps > 0
    ensures var ps := Cut(data, mps);
            && Concat(ps) == data && |ps| == |data| / mps + 1
            && (forall i :: 0 <= i < |ps| - 1 ==> |ps[i]| == mps)
            && |ps[|ps| - 1]| == |data| % mps < mps
    decreases |data|
  {
    var ps := Cut(data, mps);
    CutCount(data, mps);
    if |data| < mps {
      assert Concat([data]) == data + Concat([]);
    } else {
      CutIs(data[mps..], mps);
      assert ps[1..] == Cut(data[mps..], mps);
      DivStep(|data|, mps);
    }
  }

  lemma {:induction false} CutCount(data: seq<byte>, mps: nat)
    requires mps > 0
    ensures |Cut(data, mps)| == |data| / mps + 1
    decreases |data|
  {
    if |data| >= mps {
      CutCount(data[mps..], mps);
      DivStep(|data|, mps);
    }
  }

  lemma DivStep(n: nat, m: nat)
    requires 0 < m <= n
    ensures n / m == (n - m) / m + 1 && n % m == (n - m) % m
  {
    var q, r := (n - m) / m, (n - m) % m;
    assert n == (q + 1) * m + r;
    DivUnique(n, m, q + 1, r);
  }

  lemma DivUnique(n: nat, m: nat, q: nat, r: nat)
    requires m > 0 && r < m && n == q * m + r
    ensures n / m == q && n % m == r
  {
    var d := n / m - q;
    assert n == (n / m) * m + n % m;
    assert d * m == r - n % m;
    Multiples(d, m);
  }

  lemma Multiples(d: int, m: nat)
    ensures d >= 1 ==> d * m >= m
    ensures d <= -1 ==> d * m + m <= 0
  {}

  // ---------- the data stage

  /** A packet from the front of the rest is with the controller; the bookkeeping has not moved past it yet. */
  ghost predicate Sending(c: Control, rest: seq<byte>) {
    && c.stage == DataIn && c.offset + c.remain == |c.data| && rest == c.data[c.offset..]
    && (|rest| > 0 ==> c.size > 0) && |rest| < 0x8000_0000 + c.mps
  }

  lemma LastPacket(c: Control)
    requires c.stage == DataIn && c.remain < c.mps
    ensures Ep0Taken(c) == c.(remain := c.remain - c.mps + U32, stage := StatusOut)
  {}

  lemma NextPacket(c: Control, rest: seq<byte>)
    requires Sending(c, rest) && |rest| > c.mps
    ensures Sending(Ep0Taken(c), rest[c.mps..])
    ensures Ep0Taken(c).mps == c.mps && Ep0Taken(c).sent == c.sent + [Cut(rest[c.mps..], c.mps)[0]]
  {
    var n := if |rest| - c.mps >= c.mps then c.mps else |rest| - c.mps;
    assert c.data[c.offset + c.mps..c.offset + c.mps + n] == rest[c.mps..][..n];
    assert Cut(rest[c.mps..], c.mps)[0] == rest[c.mps..][..n];
  }

  /** What follows the packet that is under way is the rest of the cut, and the stage ends after it. */
  lemma {:induction false} StageEnds(c: Control, rest: seq<byte>)
    requires Sending(c, rest)
    ensures TakenTimes(c, |Cut(rest, c.mps)|).stage == StatusOut
    ensures TakenTimes(c, |Cut(rest, c.mps)|).sent == c.sent + Cut(rest, c.mps)[1..]
    decreases |rest|
  {
    var d := Ep0Taken(c);
    if |rest| < c.mps {
      LastPacket(c);
      assert TakenTimes(c, 1) == TakenTimes(d, 0);
    } else if |rest| == c.mps {
      assert rest[c.mps..] == [] && Cut([], c.mps) == [[]];
      assert Cut(rest, c.mps)[1..] == [[]];
      LastPacket(d);
      assert TakenTimes(c, 2) == TakenTimes(d, 1) == TakenTimes(Ep0Taken(d), 0);
    } else {
      NextPacket(c, rest);
      StageEnds(d, rest[c.mps..]);
      var ps := Cut(rest[c.mps..], c.mps);
      assert TakenTimes(c, |ps| + 1) == TakenTimes(d, |ps|);
      assert [ps[0]] + ps[1..] == ps;
    }
  }

  lemma {:induction false} StageLasts(c: Control, rest: seq<byte>, n: nat)
    requires Sending(c, rest) && n < |Cut(rest, c.mps)|
    ensures TakenTimes(c, n).stage == DataIn
    decreases |rest|
  {
    if n > 0 {
      var d := Ep0Taken(c);
      if |rest| == c.mps {
        assert rest[c.mps..] == [];
        assert TakenTimes(c, 1) == TakenTimes(d, 0);
      } else {
        NextPacket(c, rest);
        StageLasts(d, rest[c.mps..], n - 1);
      }
    }
  }

  /**
   For every size and packet size the packets of the data stage are the cut of the buffer, |data| / mps + 1 of them, and
   the status stage follows the last one: as long as the signed word of the handler can hold what is left.
   */
  lemma DataStage(c: Control, data: seq<byte>)
    requires |data| < 0x8000_0000 + c.mps
    ensures var started, ps := Ep0Write(c, data), Cut(data, c.mps);
            && TakenTimes(started, |ps|).stage == StatusOut && TakenTimes(started, |ps|).sent == c.sent + ps
            && forall n :: 0 <= n < |ps| ==> TakenTimes(started, n).stage == DataIn
  {
    var started, ps := Ep0Write(c, data), Cut(data, c.mps);
    StageEnds(started, data);
    assert ps[0] == Piece(data, 0, if |data| >= c.mps then c.mps else |data|);
    assert [ps[0]] + ps[1..] == ps;
    forall n | 0 <= n < |ps| ensures TakenTimes(started, n).stage == DataIn {
      StageLasts(started, data, n);
    }
  }

  /** A longer buffer looks negative to the handler: the stage ends after the first packet. */
  lemma DataStageTooLong(c: Control, data: seq<byte>, n: nat)
    requires 0x8000_0000 + c.mps <= |data| < U32 && n > 0
    ensures var t := TakenTimes(Ep0Write(c, data), n); t.stage == StatusOut && t.sent == c.sent + [data[..c.mps]]
  {
    var started := Ep0Write(c, data);
    AfterStatus(Ep0Taken(started), n - 1);
  }

  /** Outside the data stage, nothing happens. */
  lemma {:induction false} AfterStatus(c: Control, n: nat)
    requires c.stage != DataIn
    ensures TakenTimes(c, n) == c
    decreases n
  {
    if n > 0 {
      AfterStatus(c, n - 1);
    }
  }

  /** The status stage has come, and the packets sent make up the buffer. */
  predicate Delivered(c: Control, data: seq<byte>) {
    c.stage == StatusOut && Concat(c.sent) == data
  }

  /** Exactly when the host gets the whole buffer before the status stage, for any 32-bit size. */
  lemma DataStageIff(c: Control, data: seq<byte>)
    requires |data| < U32 && c.sent == []
    ensures (exists n: nat :: Delivered(TakenTimes(Ep0Write(c, data), n), data)) <==> |data| < 0x8000_0000 + c.mps
  {
    if |data| < 0x8000_0000 + c.mps {
      DataStage(c, data);
      CutIs(data, c.mps);
      assert [] + Cut(data, c.mps) == Cut(data, c.mps);
    } else {
      forall n: nat ensures !Delivered(TakenTimes(Ep0Write(c, data), n), data) {
        if n > 0 {
          DataStageTooLong(c, data, n);
          assert [] + [data[..c.mps]] == [data[..c.mps]];
          assert Concat([data[..c.mps]]) == data[..c.mps] + Concat([]);
        }
      }
    }
  }

  // ---------- the other endpoints, towards the host

  /**
   An endpoint and its request: what is left of the buffer begins at offset. For the way in, sent holds the packets
   handed to the controller; for the way out, prepared is the room that was announced to it. handled holds the sizes
   with which the handler of the endpoint was called.
   */
  datatype Endpoint = Endpoint(mps: MaxPacket, readBest: bool, buffer: seq<byte>, offset: nat, size: Word, remain: Word,
                               sent: seq<seq<byte>>, prepared: nat, handled: seq<nat>)

  /** dcd_ep_write of the next n bytes. */
  function Send(e: Endpoint, n: nat): Endpoint {
    e.(sent := e.sent + [Piece(e.buffer, e.offset, n)])
  }

  /** usbd_io_request for a write, with usbd_ep_write. */
  function IoWrite(e: Endpoint, data: seq<byte>): Endpoint
    requires |data| < U32
  {
    var r := e.(buffer := data, offset := 0, size := |data|, remain := |data|);
    if r.remain >= r.mps then Send(r, r.mps).(remain := r.remain - r.mps, offset := r.mps)
    else Send(r, r.remain).(remain := 0)
  }

  /** _data_notify for an endpoint towards the host: the packet of that size has been taken. */
  function NotifyIn(e: Endpoint, size: nat): Endpoint {
    if e.remain >= e.mps then Send(e, e.mps).(remain := e.remain - e.mps, offset := e.offset + e.mps)
    else if e.remain > 0 then Send(e, e.remain).(remain := 0)
    else e.(handled := e.handled + [size])
  }

  function NotifyInAll(e: Endpoint, sizes: seq<nat>): Endpoint
    decreases |sizes|
  {
    if sizes == [] then e else NotifyInAll(NotifyIn(e, sizes[0]), sizes[1..])
  }

  /** The packets that an endpoint owes for the rest of a buffer: full ones, and a shorter one if something is left. */
  function Owed(rest: seq<byte>, mps: MaxPacket): seq<seq<byte>>
    decreases |rest|
  {
    if rest == [] then [] else if |rest| < mps then [rest] else [rest[..mps]] + Owed(rest[mps..], mps)
  }

  /** The packets of a write: one at least. */
  function Packets(data: seq<byte>, mps: MaxPacket): (ps: seq<seq<byte>>)
    ensures ps != []
  {
    if data == [] then [[]] else Owed(data, mps)
  }

  lemma {:induction false} OwedIs(rest: seq<byte>, mps: MaxPacket)
    ensures Concat(Owed(rest, mps)) == rest
    ensures forall i :: 0 <= i < |Owed(rest, mps)| ==> 0 < |Owed(rest, mps)[i]| <= mps
    ensures forall i :: 0 <= i < |Owed(rest, mps)| - 1 ==> |Owed(rest, mps)[i]| == mps
    decreases |rest|
  {
    if rest != [] {
      if |rest| < mps {
        assert Concat([rest]) == rest + Concat([]);
      } else {
        OwedIs(rest[mps..], mps);
        assert Owed(rest, mps)[1..] == Owed(rest[mps..], mps);
      }
    }
  }

  /** The packets of a write make up the buffer, none is above the limit, and all but the last are full. */
  lemma PacketsAre(data: seq<byte>, mps: MaxPacket)
    ensures var ps := Packets(data, mps);
            && Concat(ps) == data && (forall i :: 0 <= i < |ps| ==> |ps[i]| <= mps)
            && forall i :: 0 <= i < |ps| - 1 ==> |ps[i]| == mps
  {
    OwedIs(data, mps);
    ConcatSnoc<byte>([], []);
  }

  /** The bytes that have not been handed to the controller. */
  ghost predicate Rest(e: Endpoint, rest: seq<byte>) {
    e.remain == |rest| && (rest != [] ==> e.offset + e.remain == |e.buffer| && rest == e.buffer[e.offset..])
  }

  /** The size of the next packet. */
  function Next(rest: seq<byte>, mps: MaxPacket): (n: nat)
    ensures n <= |rest|
  {
    if |rest| < mps then |rest| else mps
  }

  lemma OwedStep(rest: seq<byte>, mps: MaxPacket)
    requires rest != []
    ensures Owed(rest, mps) == [rest[..Next(rest, mps)]] + Owed(rest[Next(rest, mps)..], mps)
  {
    if |rest| < mps {
      assert rest[..|rest|] == rest && rest[|rest|..] == [];
    }
  }

  lemma NotifyOne(e: Endpoint, rest: seq<byte>, size: nat)
    requires Rest(e, rest) && rest != []
    ensures Rest(NotifyIn(e, size), rest[Next(rest, e.mps)..])
    ensures NotifyIn(e, size).sent == e.sent + [rest[..Next(rest, e.mps)]]
    ensures NotifyIn(e, size).handled == e.handled && NotifyIn(e, size).mps == e.mps
  {
    PieceIs(e, rest, Next(rest, e.mps));
  }

  lemma PieceIs(e: Endpoint, rest: seq<byte>, n: nat)
    requires Rest(e, rest) && 0 < n <= |rest|
    ensures Piece(e.buffer, e.offset, n) == rest[..n]
    ensures Rest(e.(remain := e.remain - n, offset := e.offset + n), rest[n..])
    ensures n == |rest| ==> Rest(e.(remain := 0), rest[n..])
  {}

  /** While packets are owed, each notification sends one, and the handler is not called; all later ones call it. */
  lemma {:induction false} NotifyOwed(e: Endpoint, rest: seq<byte>, sizes: seq<nat>)
    requires Rest(e, rest)
    ensures var r, owed := NotifyInAll(e, sizes), Owed(rest, e.mps);
            if |sizes| <= |owed| then r.sent == e.sent + owed[..|sizes|] && r.handled == e.handled
            else r.sent == e.sent + owed && r.handled == e.handled + sizes[|owed|..]
    decreases |sizes|
  {
    if sizes != [] {
      if rest == [] {
        NotifyOwed(NotifyIn(e, sizes[0]), rest, sizes[1..]);
      } else {
        NotifyOne(e, rest, sizes[0]);
        OwedStep(rest, e.mps);
        NotifyOwed(NotifyIn(e, sizes[0]), rest[Next(rest, e.mps)..], sizes[1..]);
      }
    }
  }

  /**
   A write request of any size: after each of the first notifications but the last, the packets so far are the first
   ones of the request and the handler has not run; it runs when the last packet has been taken, with the size notified.
   */
  lemma WriteRequest(e: Endpoint, data: seq<byte>, sizes: seq<nat>)
    requires |data| < U32
    ensures var r, ps := NotifyInAll(IoWrite(e, data), sizes), Packets(data, e.mps);
            if |sizes| < |ps| then r.sent == e.sent + ps[..|sizes| + 1] && r.handled == e.handled
            else r.sent == e.sent + ps && r.handled == e.handled + sizes[|ps| - 1..]
  {
    var n := Next(data, e.mps);
    var owed := Owed(data[n..], e.mps);
    FirstPacket(e, data);
    NotifyOwed(IoWrite(e, data), data[n..], sizes);
    if |sizes| <= |owed| {
      Prefixes(e.sent, data[..n], owed, |sizes|);
    } else {
      Prefixes(e.sent, data[..n], owed, |owed|);
    }
  }

  lemma Prefixes(sent: seq<seq<byte>>, first: seq<byte>, owed: seq<seq<byte>>, n: nat)
    requires n <= |owed|
    ensures (sent + [first]) + owed[..n] == sent + ([first] + owed)[..n + 1]
    ensures n == |owed| ==> owed[..n] == owed && ([first] + owed)[..n + 1] == [first] + owed
  {}

  lemma FirstPacket(e: Endpoint, data: seq<byte>)
    requires |data| < U32
    ensures var w, n := IoWrite(e, data), Next(data, e.mps);
            && Rest(w, data[n..]) && w.sent == e.sent + [data[..n]] && w.handled == e.handled && w.mps == e.mps
            && Packets(data, e.mps) == [data[..n]] + Owed(data[n..], e.mps)
  {
    if data != [] {
      OwedStep(data, e.mps);
      PieceIs(e.(buffer := data, offset := 0, size := |data|, remain := |data|), data, Next(data, e.mps));
    }
  }

  // ---------- the other endpoints, from the host

  function Announce(n: nat, mps: MaxPacket): (r: nat)
    ensures r <= n
  {
    if n > mps then mps else n
  }

  /** usbd_io_request for a read, with usbd_ep_read_prepare. */
  function IoRead(e: Endpoint, buffer: seq<byte>, size: Word): Endpoint {
    e.(buffer := buffer, offset := 0, size := size, remain := size, prepared := Announce(size, e.mps))
  }

  /**
   While there is something left to read, the controller only takes packets that it was told to expect, and there is
   room for them. After that, whatever comes is ignored.
   */
  predicate Expected(e: Endpoint, p: seq<byte>) {
    e.remain > 0 ==> |p| <= e.prepared <= e.remain && e.offset + e.prepared <= |e.buffer|
  }

  /** _data_notify for an endpoint from the host: the packet has been stored where the buffer pointer was. */
  function NotifyOut(e: Endpoint, p: seq<byte>): Endpoint
    requires Expected(e, p)
  {
    if e.remain == 0 then e
    else
      var r := e.(buffer := Overwrite(e.buffer, e.offset, p), remain := e.remain - |p|, offset := e.offset + |p|,
                  prepared := 0);
      if r.readBest then r.(handled := r.handled + [|p|])
      else if r.remain == 0 then r.(handled := r.handled + [r.size])
      else r.(prepared := Announce(r.remain, r.mps))
  }

  predicate AllExpected(e: Endpoint, ps: seq<seq<byte>>)
    decreases |ps|
  {
    ps != [] ==> Expected(e, ps[0]) && AllExpected(NotifyOut(e, ps[0]), ps[1..])
  }

  function NotifyOutAll(e: Endpoint, ps: seq<seq<byte>>): Endpoint
    requires AllExpected(e, ps)
    decreases |ps|
  {
    if ps == [] then e else NotifyOutAll(NotifyOut(e, ps[0]), ps[1..])
  }

  /** A full read in the middle: what was announced is the next packet, or nothing once all has come. */
  ghost predicate Reading(e: Endpoint) {
    !e.readBest && e.prepared == Announce(e.remain, e.mps) && e.offset + e.remain <= |e.buffer|
  }

  lemma {:induction false} ReadsOn(e: Endpoint, ps: seq<seq<byte>>)
    requires Reading(e) && AllExpected(e, ps)
    ensures |Concat(Wanted(ps, e.remain))| <= e.remain
    ensures var r, data := NotifyOutAll(e, ps), Concat(Wanted(ps, e.remain));
            && r.buffer == Overwrite(e.buffer, e.offset, data)
            && r.handled == e.handled + (if e.remain > 0 && |data| == e.remain then [e.size] else [])
            && r.remain == e.remain - |data| && r.prepared == if r.remain > e.mps then e.mps else r.remain
    decreases |ps|
  {
    assert Overwrite(e.buffer, e.offset, []) == e.buffer;
    if e.remain == 0 {
      LateIgnored(e, ps);
    } else if ps != [] {
      var d := NotifyOut(e, ps[0]);
      FullOne(e, ps[0]);
      ReadsOn(d, ps[1..]);
      var taken := Wanted(ps[1..], d.remain);
      StoredBehind(e.buffer, e.offset, ps[0], Concat(taken));
      FirstOf(ps[0], taken);
      assert Wanted(ps, e.remain) == [ps[0]] + taken;
    }
  }

  lemma FullOne(e: Endpoint, p: seq<byte>)
    requires Reading(e) && e.remain > 0 && Expected(e, p)
    ensures var d := NotifyOut(e, p);
            && Reading(d) && d.buffer == Overwrite(e.buffer, e.offset, p) && d.offset == e.offset + |p|
            && d.remain == e.remain - |p| && d.mps == e.mps && d.size == e.size
            && d.handled == e.handled + if d.remain == 0 then [e.size] else []
  {}

  /** The packets that a read of n bytes takes: those up to the one that completes it. */
  function Wanted(ps: seq<seq<byte>>, n: nat): seq<seq<byte>> {
    if ps == [] || n == 0 then []
    else [ps[0]] + Wanted(ps[1..], if |ps[0]| <= n then n - |ps[0]| else 0)
  }

  /** They are the first ones: all of them, or the shortest front that has n bytes. */
  lemma {:induction false} WantedIs(ps: seq<seq<byte>>, n: nat)
    ensures |Wanted(ps, n)| <= |ps| && Wanted(ps, n) == ps[..|Wanted(ps, n)|]
    ensures forall k :: 0 <= k < |Wanted(ps, n)| ==> |Concat(ps[..k])| < n
    ensures |Wanted(ps, n)| < |ps| ==> |Concat(Wanted(ps, n))| >= n
  {
    if ps != [] && n > 0 {
      var m := if |ps[0]| <= n then n - |ps[0]| else 0;
      var w := Wanted(ps[1..], m);
      WantedIs(ps[1..], m);
      assert ps[..|w| + 1] == [ps[0]] + ps[1..][..|w|];
      assert Concat([ps[0]] + w) == ps[0] + Concat(w);
      forall k | 0 <= k < |w| + 1 ensures |Concat(ps[..k])| < n {
        if k > 0 {
          assert |Concat(ps[1..][..k - 1])| < m;
          assert ps[..k] == [ps[0]] + ps[1..][..k - 1];
          assert Concat(ps[..k]) == ps[0] + Concat(ps[1..][..k - 1]);
        }
      }
    }
  }

  /** Once a read has ended, packets change nothing. */
  lemma {:induction false} LateIgnored(e: Endpoint, ps: seq<seq<byte>>)
    requires e.remain == 0 && AllExpected(e, ps)
    ensures NotifyOutAll(e, ps) == e
    decreases |ps|
  {
    if ps != [] {
      LateIgnored(e, ps[1..]);
    }
  }

  lemma StoredBehind(mem: seq<byte>, at: nat, a: seq<byte>, b: seq<byte>)
    requires at + |a| + |b| <= |mem|
    ensures Overwrite(Overwrite(mem, at, a), at + |a|, b) == Overwrite(mem, at, a + b)
  {}

  /**
   A full read of any size, fed packets no longer than announced, stores those up to the last byte one behind the other
   at the start of the buffer and touches nothing else, whatever comes later; the handler is called once, when the last
   byte has come. A read of no bytes never calls it.
   */
  lemma ReadFull(e: Endpoint, buffer: seq<byte>, size: Word, ps: seq<seq<byte>>)
    requires !e.readBest && size <= |buffer| && AllExpected(IoRead(e, buffer, size), ps)
    ensures |Concat(Wanted(ps, size))| <= size
    ensures var r, data := NotifyOutAll(IoRead(e, buffer, size), ps), Concat(Wanted(ps, size));
            && r.buffer == Overwrite(buffer, 0, data)
            && r.handled == e.handled + (if |data| == size && size > 0 then [size] else [])
            && r.remain == size - |data| && r.prepared == if r.remain > e.mps then e.mps else r.remain
  {
    ReadsOn(IoRead(e, buffer, size), ps);
  }

  function Sizes(ps: seq<seq<byte>>): (s: seq<nat>)
    ensures |s| == |ps|
  {
    if ps == [] then [] else [|ps[0]|] + Sizes(ps[1..])
  }

  lemma {:induction false} BestOn(e: Endpoint, ps: seq<seq<byte>>)
    requires e.readBest && e.offset + e.remain <= |e.buffer| && AllExpected(e, ps)
    ensures |Concat(Wanted(ps, e.remain))| <= e.remain
    ensures var r, taken := NotifyOutAll(e, ps), Wanted(ps, e.remain);
            && r.buffer == Overwrite(e.buffer, e.offset, Concat(taken)) && r.remain == e.remain - |Concat(taken)|
            && r.handled == e.handled + Sizes(taken) && r.prepared == if taken == [] then e.prepared else 0
    decreases |ps|
  {
    assert Overwrite(e.buffer, e.offset, []) == e.buffer;
    if e.remain == 0 {
      LateIgnored(e, ps);
    } else if ps != [] {
      var d := NotifyOut(e, ps[0]);
      BestOne(e, ps[0]);
      BestOn(d, ps[1..]);
      var taken := Wanted(ps[1..], d.remain);
      StoredBehind(e.buffer, e.offset, ps[0], Concat(taken));
      FirstOf(ps[0], taken);
      assert Wanted(ps, e.remain) == [ps[0]] + taken;
      assert e.handled + [|ps[0]|] + Sizes(taken) == e.handled + ([|ps[0]|] + Sizes(taken));
    }
  }

  lemma FirstOf(p: seq<byte>, taken: seq<seq<byte>>)
    ensures Concat([p] + taken) == p + Concat(taken) && Sizes([p] + taken) == [|p|] + Sizes(taken)
  {
    assert ([p] + taken)[1..] == taken;
  }

  lemma BestOne(e: Endpoint, p: seq<byte>)
    requires e.readBest && e.remain > 0 && e.offset + e.remain <= |e.buffer| && Expected(e, p)
    ensures var d := NotifyOut(e, p);
            && d.readBest && d.buffer == Overwrite(e.buffer, e.offset, p) && d.offset == e.offset + |p|
            && d.remain == e.remain - |p| && d.handled == e.handled + [|p|] && d.prepared == 0
  {}

  /**
   A read of what there is: each packet is stored behind the one before it, the handler runs for each with its size, and
   after the first one nothing more is announced.
   */
  lemma ReadBest(e: Endpoint, buffer: seq<byte>, size: Word, ps: seq<seq<byte>>)
    requires e.readBest && 0 < size <= |buffer| && ps != [] && AllExpected(IoRead(e, buffer, size), ps)
    ensures |Concat(Wanted(ps, size))| <= size
    ensures IoRead(e, buffer, size).prepared == if size > e.mps then e.mps else size
    ensures var r, taken := NotifyOutAll(IoRead(e, buffer, size), ps), Wanted(ps, size);
            && r.buffer == Overwrite(buffer, 0, Concat(taken)) && r.remain == size - |Concat(taken)|
            && r.handled == e.handled + Sizes(taken) && r.prepared == 0
  {
    BestOn(IoRead(e, buffer, size), ps);
  }

  /** An endpoint that asks for the same room again after each packet. */
  function ReadAgain(e: Endpoint, room: seq<byte>, size: Word, ps: seq<seq<byte>>): Endpoint
    requires forall i :: 0 <= i < |ps| ==> |ps[i]| <= size && |ps[i]| <= e.mps && size <= |room|
    decreases |ps|
  {
    if ps == [] then e
    else ReadAgain(NotifyOut(IoRead(e, room, size), ps[0]), room, size, ps[1..])
  }

  /** It hands each packet to its handler: with its own size, and at the start of the room. */
  lemma {:induction false} ReadsEach(e: Endpoint, room: seq<byte>, size: Word, ps: seq<seq<byte>>)
    requires e.readBest && 0 < size <= |room| && forall i :: 0 <= i < |ps| ==> |ps[i]| <= size && |ps[i]| <= e.mps
    ensures var r := ReadAgain(e, room, size, ps);
            && r.handled == e.handled + Sizes(ps) && r.readBest
            && (ps != [] ==> r.buffer == Overwrite(room, 0, ps[|ps| - 1]) && r.prepared == 0)
    decreases |ps|
  {
    if ps != [] {
      var d := NotifyOut(IoRead(e, room, size), ps[0]);
      BestOne(IoRead(e, room, size), ps[0]);
      ReadsEach(d, room, size, ps[1..]);
      assert e.handled + [|ps[0]|] + Sizes(ps[1..]) == e.handled + ([|ps[0]|] + Sizes(ps[1..]));
      assert |ps| > 1 ==> ps[1..][|ps| - 2] == ps[|ps| - 1];
    }
  }

  // ---------- in place

  class ControlEp {
    const mps: MaxPacket
    var buffer: seq<byte>
    var offset: nat
    var size: Word
    var remainSize: Word
    var stage: Stage
    ghost var sent: seq<seq<byte>>

    ghost function Abs(): Control
      reads this
    {
      Control(mps, buffer, offset, size, remainSize, stage, sent)
    }

    constructor (mps: MaxPacket)
      ensures Abs() == Control(mps, [], 0, 0, 0, Other, [])
    {
      this.mps, buffer, offset, size, remainSize, stage, sent := mps, [], 0, 0, 0, Other, [];
    }

    /** dcd_ep_write of n bytes from the buffer pointer. */
    method DcdWrite(n: nat)
      modifies this`sent
      ensures sent == old(sent) + [Piece(buffer, offset, n)]
    {
      sent := sent + [Piece(buffer, offset, n)];
    }

    method UsbdEp0Write(data: seq<byte>) returns (sentSize: nat)
      requires |data| < U32
      modifies this
      ensures Abs() == Ep0Write(old(Abs()), data) && sentSize == if |data| >= mps then mps else |data|
    {
      size, buffer, offset, remainSize := |data|, data, 0, |data|;
      sentSize := if size >= mps then mps else size;
      stage := DataIn;
      DcdWrite(sentSize);
    }

    method UsbdEp0InHandler()
      modifies this
      ensures Abs() == Ep0Taken(old(Abs()))
    {
      if stage != DataIn {
        return;
      }
      remainSize := Minus(remainSize, mps);
      var remain := Signed(remainSize);
      if remain > 0 {
        if remain >= mps {
          remain := mps;
        }
        offset := offset + mps;
        DcdWrite(remain);
      } else if remain == 0 && size > 0 {
        size := 0;
        sent := sent + [[]];
      } else {
        stage := StatusOut;
      }
    }
  }

  class DataEp {
    const mps: MaxPacket
    var readBest: bool
    var buffer: seq<byte>
    var offset: nat
    var size: Word
    var remainSize: Word
    var prepared: nat
    ghost var sent: seq<seq<byte>>
    ghost var handled: seq<nat>

    ghost function Abs(): Endpoint
      reads this
    {
      Endpoint(mps, readBest, buffer, offset, size, remainSize, sent, prepared, handled)
    }

    constructor (mps: MaxPacket)
      ensures Abs() == Endpoint(mps, false, [], 0, 0, 0, [], 0, [])
    {
      this.mps, readBest, buffer, offset, size, remainSize, prepared := mps, false, [], 0, 0, 0, 0;
      sent, handled := [], [];
    }

    method DcdWrite(n: nat)
      modifies this`sent
      ensures sent == old(sent) + [Piece(buffer, offset, n)]
    {
      sent := sent + [Piece(buffer, offset, n)];
    }

    /** usbd_io_request for UIO_REQUEST_WRITE */
    method RequestWrite(data: seq<byte>)
      requires |data| < U32
      modifies this
      ensures Abs() == IoWrite(old(Abs()), data)
    {
      buffer, offset, size, remainSize := data, 0, |data|, |data|;
      if remainSize >= mps {
        DcdWrite(mps);
        remainSize := remainSize - mps;
        offset := offset + mps;
      } else {
        DcdWrite(remainSize);
        remainSize := 0;
      }
    }

    /** usbd_io_request for the two kinds of read */
    method RequestRead(room: seq<byte>, n: Word, best: bool)
      modifies this
      ensures Abs() == IoRead(old(Abs()).(readBest := best), room, n)
    {
      buffer, offset, size, remainSize, readBest := room, 0, n, n, best;
      prepared := if n > mps then mps else n;
    }

    /** _data_notify for an endpoint towards the host */
    method DataTaken(configured: bool, n: nat) returns (rc: int)
      modifies this
      ensures Abs() == (if configured then NotifyIn(old(Abs()), n) else old(Abs()))
              && rc == if configured then 0 else -1
    {
      if !configured {
        return -1;
      }
      if remainSize >= mps {
        DcdWrite(mps);
        remainSize := remainSize - mps;
        offset := offset + mps;
      } else if remainSize > 0 {
        DcdWrite(remainSize);
        remainSize := 0;
      } else {
        handled := handled + [n];
      }
      return 0;
    }

    /** _data_notify for an endpoint from the host, with the bytes that the controller has put at the buffer pointer */
    method DataCame(configured: bool, packet: seq<byte>) returns (rc: int)
      requires configured ==> Expected(Abs(), packet)
      modifies this
      ensures Abs() == (if configured then NotifyOut(old(Abs()), packet) else old(Abs()))
              && rc == if configured then 0 else -1
    {
      if !configured {
        return -1;
      }
      if remainSize == 0 {
        return 0;
      }
      buffer := Overwrite(buffer, offset, packet);
      remainSize := remainSize - |packet|;
      offset := offset + |packet|;
      prepared := 0;
      if readBest {
        handled := handled + [|packet|];
      } else if remainSize == 0 {
        handled := handled + [size];
      } else {
        prepared := if remainSize > mps then mps else remainSize;
      }
      return 0;
    }
  }
}
