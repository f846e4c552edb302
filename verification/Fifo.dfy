/** lib/fifo_buf.c and its client kernel/printk/log.c: a ring of bytes that is a bounded queue. */
module Fifo {
  import opened Bytes

  // ---------- the queue that the ring stands for

  /** A queue of at most size bytes. */
  datatype Queue = Queue(size: nat, contents: seq<byte>)

  function Free(q: Queue): int {
    q.size - |q.contents|
  }

  /** All of the bytes go in, or none. */
  function Put(q: Queue, bytes: seq<byte>): Queue {
    if |bytes| > Free(q) then q else q.(contents := q.contents + bytes)
  }

  /** All of the bytes asked for come out, or none. */
  function Take(q: Queue, n: nat): Queue {
    if n > |q.contents| then q else q.(contents := q.contents[n..])
  }

  /** What read_log asks for. */
  function Available(q: Queue, n: nat): nat {
    if |q.contents| >= n then n else |q.contents|
  }

  datatype Call = Write(bytes: seq<byte>) | Read(n: nat) | Peek(n: nat) | ReadLog(n: nat)

  function Apply(q: Queue, c: Call): Queue {
    match c
    case Write(bytes) => Put(q, bytes)
    case Read(n) => Take(q, n)
    case Peek(_) => q
    case ReadLog(n) => Take(q, Available(q, n))
  }

  function Run(q: Queue, cs: seq<Call>): Queue
    decreases |cs|
  {
    if cs == [] then q else Run(Apply(q, cs[0]), cs[1..])
  }

  /** A call of read_log returns all there is, if there is less than asked for. */
  lemma ReadLogTakes(q: Queue, n: nat)
    ensures Out(q, ReadLog(n)) == if n < |q.contents| then n else |q.contents|
    ensures Apply(q, ReadLog(n)) == q.(contents := q.contents[Out(q, ReadLog(n))..])
    ensures n >= |q.contents| ==> Apply(q, ReadLog(n)).contents == []
  {}

  /** The bytes of the writes that fit. */
  function Stored(q: Queue, cs: seq<Call>): seq<byte>
    decreases |cs|
  {
    if cs == [] then [] else In(q, cs[0]) + Stored(Apply(q, cs[0]), cs[1..])
  }

  /** The bytes that the reads returned. */
  function Returned(q: Queue, cs: seq<Call>): seq<byte>
    decreases |cs|
  {
    if cs == [] then [] else q.contents[..Out(q, cs[0])] + Returned(Apply(q, cs[0]), cs[1..])
  }

  /** Over any interleaving, what was read and what is left make up what was stored, in order. */
  lemma {:induction false} ReadsArePrefix(q: Queue, cs: seq<Call>)
    ensures Returned(q, cs) + Run(q, cs).contents == q.contents + Stored(q, cs)
    ensures |q.contents| <= q.size ==> |Run(q, cs).contents| <= q.size
    decreases |cs|
  {
    if cs != [] {
      var r := Apply(q, cs[0]);
      ReadsArePrefix(r, cs[1..]);
      OneCall(q, cs[0], Returned(r, cs[1..]), Run(r, cs[1..]).contents, Stored(r, cs[1..]));
    }
  }

  /** The bytes that one call returns, and those that it stores. */
  function Out(q: Queue, c: Call): (n: nat)
    ensures n <= |q.contents|
  {
    match c
    case Read(n) => if n <= |q.contents| then n else 0
    case ReadLog(n) => Available(q, n)
    case _ => 0
  }

  function In(q: Queue, c: Call): seq<byte> {
    if c.Write? && |c.bytes| <= Free(q) then c.bytes else []
  }

  lemma OneCall(q: Queue, c: Call, returned: seq<byte>, left: seq<byte>, stored: seq<byte>)
    requires returned + left == Apply(q, c).contents + stored
    ensures (q.contents[..Out(q, c)] + returned) + left == q.contents + (In(q, c) + stored)
  {
    assert Apply(q, c).contents == q.contents[Out(q, c)..] + In(q, c);
    assert (q.contents[Out(q, c)..] + In(q, c)) + stored == q.contents[Out(q, c)..] + (In(q, c) + stored);
    Split(q.contents, Out(q, c), returned, left, In(q, c) + stored);
  }

  lemma Split(s: seq<byte>, n: nat, a: seq<byte>, b: seq<byte>, c: seq<byte>)
    requires n <= |s| && a + b == s[n..] + c
    ensures (s[..n] + a) + b == s + c
  {
    assert (s[..n] + a) + b == s[..n] + (a + b);
    assert s[..n] + (s[n..] + c) == s + c;
  }

  // ---------- the ring

  /** The byte at offset i of the ring, which starts over at its end. */
  function Around(cells: seq<byte>, i: nat): byte
    requires i < 2 * |cells|
  {
    if i < |cells| then cells[i] else cells[i - |cells|]
  }

  /** The used bytes of a ring, from the read offset on. */
  function Used(cells: seq<byte>, read: nat, used: nat): (r: seq<byte>)
    requires read < |cells| && used <= |cells|
    ensures |r| == used
  {
    seq(used, k requires 0 <= k < used => Around(cells, read + k))
  }

  /** The ring in one piece, or in two. */
  lemma UsedPieces(cells: seq<byte>, read: nat, n: nat)
    requires read < |cells| && n <= |cells|
    ensures Used(cells, read, n) ==
            if read + n <= |cells| then cells[read..read + n] else cells[read..] + cells[..read + n - |cells|]
  {
    var used := Used(cells, read, n);
    var pieces := if read + n <= |cells| then cells[read..read + n] else cells[read..] + cells[..read + n - |cells|];
    assert |pieces| == n;
    forall k | 0 <= k < n ensures used[k] == pieces[k] {
      assert used[k] == Around(cells, read + k);
    }
  }

  lemma UsedSplits(cells: seq<byte>, read: nat, used: nat, n: nat, next: nat)
    requires read < |cells| && used <= |cells| && n <= used
    requires next == if read + n < |cells| then read + n else read + n - |cells|
    ensures next < |cells|
    ensures Used(cells, read, n) == Used(cells, read, used)[..n]
    ensures Used(cells, next, used - n) == Used(cells, read, used)[n..]
  {
    forall k | 0 <= k < used - n ensures Around(cells, next + k) == Used(cells, read, used)[n..][k] {
      assert Used(cells, read, used)[n..][k] == Around(cells, read + (n + k));
    }
  }

  lemma Overwritten(cells: seq<byte>, at: nat, bytes: seq<byte>, i: nat)
    requires at + |bytes| <= |cells| && i < |cells|
    ensures Overwrite(cells, at, bytes)[i] == if at <= i < at + |bytes| then bytes[i - at] else cells[i]
  {}

  /** Storing behind the used bytes, in one piece. */
  lemma StoreOne(cells: seq<byte>, read: nat, used: nat, at: nat, bytes: seq<byte>)
    requires read < |cells| && used + |bytes| <= |cells| && at + |bytes| <= |cells|
    requires at == if read + used < |cells| then read + used else read + used - |cells|
    ensures Used(Overwrite(cells, at, bytes), read, used + |bytes|) == Used(cells, read, used) + bytes
  {
    var after, n := Overwrite(cells, at, bytes), |cells|;
    var was, now := Used(cells, read, used), Used(after, read, used + |bytes|);
    forall k | 0 <= k < used + |bytes| ensures now[k] == (was + bytes)[k] {
      assert now[k] == Around(after, read + k) && (k < used ==> was[k] == Around(cells, read + k));
      Overwritten(cells, at, bytes, if read + k < n then read + k else read + k - n);
    }
  }

  /** Storing behind the used bytes, in two pieces, the second at the start of the ring. */
  lemma StoreTwo(cells: seq<byte>, read: nat, used: nat, at: nat, first: seq<byte>, second: seq<byte>)
    requires read + used == at < |cells| && used + |first| + |second| <= |cells| && at + |first| == |cells|
    ensures Used(Overwrite(Overwrite(cells, at, first), 0, second), read, used + (|first| + |second|)) ==
            Used(cells, read, used) + (first + second)
  {
    StoreOne(cells, read, used, at, first);
    StoreOne(Overwrite(cells, at, first), read, used + |first|, 0, second);
    assert Used(cells, read, used) + first + second == Used(cells, read, used) + (first + second);
  }

  // ---------- struct fifo_buf_t

  /** An offset that has reached the end of the buffer goes back to its start. */
  function StartOver(at: nat, end: nat): nat {
    if at >= end then 0 else at
  }

  /** Its offsets are counted from buf_start; data.Length is buf_size. */
  class FifoBuf {
    const data: array<byte>
    var read: nat
    var write: nat
    var freeSize: nat

    ghost predicate Valid()
      reads this
    {
      && read < data.Length && freeSize <= data.Length
      && write == if read + UsedSize() < data.Length then read + UsedSize() else read + UsedSize() - data.Length
    }

    ghost function UsedSize(): int
      reads this
    {
      data.Length - freeSize
    }

    ghost function Contents(): (c: seq<byte>)
      requires Valid()
      reads this, data
      ensures |c| == UsedSize()
    {
      Used(data[..], read, UsedSize())
    }

    ghost function Abs(): Queue
      requires Valid()
      reads this, data
    {
      Queue(data.Length, Contents())
    }

    constructor (size: nat)
      requires size > 0
      ensures Valid() && fresh(data) && Abs() == Queue(size, [])
    {
      data := new byte[size](_ => 0);
      read, write, freeSize := 0, 0, size;
    }

    /** memcpy into the buffer. */
    method CopyIn(at: nat, bytes: seq<byte>)
      requires at + |bytes| <= data.Length
      modifies data
      ensures data[..] == Overwrite(old(data[..]), at, bytes)
    {
      forall i | at <= i < at + |bytes| {
        data[i] := bytes[i - at];
      }
    }

    /** __read_fifo_buf_size: test tells it to leave the bytes in the ring. */
    method ReadSize(len: nat, test: bool) returns (size: nat, buf: seq<byte>)
      requires Valid()
      modifies this`read, this`freeSize
      ensures Valid() && Abs() == if test then old(Abs()) else Take(old(Abs()), len)
      ensures if len <= |old(Contents())| then size == len && buf == old(Contents())[..len] else size == 0 && buf == []
    {
      if len > data.Length - freeSize {
        return 0, [];
      }
      buf := CopyOut(len);
      if !test {
        Advance(len);
      }
      return len, buf;
    }

    /** memcpy from the ring, in one piece or two. */
    method CopyOut(len: nat) returns (buf: seq<byte>)
      requires Valid() && len <= UsedSize()
      ensures Valid() && buf == Contents()[..len]
    {
      if read >= write && len > data.Length - read {
        buf := data[read..] + data[..len + read - data.Length];
      } else {
        buf := data[read..read + len];
      }
      UsedPieces(data[..], read, len);
      ghost var next := if read + len < data.Length then read + len else read + len - data.Length;
      UsedSplits(data[..], read, UsedSize(), len, next);
    }

    method Advance(len: nat)
      requires Valid() && len <= UsedSize()
      modifies this`read, this`freeSize
      ensures Valid() && Contents() == old(Contents())[len..]
    {
      ghost var next := if read + len < data.Length then read + len else read + len - data.Length;
      UsedSplits(data[..], read, UsedSize(), len, next);
      if read >= write && len > data.Length - read {
        read := StartOver(len + read - data.Length, data.Length);
      } else {
        read := StartOver(read + len, data.Length);
      }
      freeSize := freeSize + len;
    }

    /** __write_fifo_buf_size */
    method WriteSize(buf: seq<byte>) returns (size: nat)
      requires Valid()
      modifies this`write, this`freeSize, data
      ensures Valid() && Abs() == Put(old(Abs()), buf)
      ensures size == if |buf| <= old(freeSize) then |buf| else 0
    {
      if |buf| > freeSize {
        return 0;
      }
      if write >= read && data.Length - write < |buf| {
        WriteTwo(buf, data.Length - write);
      } else {
        WriteOne(buf);
      }
      return |buf|;
    }

    method WriteTwo(buf: seq<byte>, first: nat)
      requires Valid() && |buf| <= freeSize && write >= read && first == data.Length - write < |buf|
      modifies this`write, this`freeSize, data
      ensures Valid() && Contents() == old(Contents()) + buf
    {
      StoreTwo(data[..], read, UsedSize(), write, buf[..first], buf[first..]);
      assert buf[..first] + buf[first..] == buf;
      CopyIn(write, buf[..first]);
      CopyIn(0, buf[first..]);
      write := StartOver(|buf| + write - data.Length, data.Length);
      freeSize := freeSize - |buf|;
    }

    method WriteOne(buf: seq<byte>)
      requires Valid() && |buf| <= freeSize && !(write >= read && data.Length - write < |buf|)
      modifies this`write, this`freeSize, data
      ensures Valid() && Contents() == old(Contents()) + buf
    {
      StoreOne(data[..], read, UsedSize(), write, buf);
      CopyIn(write, buf);
      write := StartOver(write + |buf|, data.Length);
      freeSize := freeSize - |buf|;
    }
  }

  /** The log server; status tells that log_server_init has run. */
  class LogServer {
    const logBuf: FifoBuf
    var status: bool

    constructor (size: nat)
      requires size > 0
      ensures !status && fresh(logBuf) && fresh(logBuf.data) && logBuf.Valid() && logBuf.Abs() == Queue(size, [])
    {
      logBuf := new FifoBuf(size);
      status := false;
    }

    method WriteLog(buf: seq<byte>) returns (size: nat)
      requires logBuf.Valid()
      modifies logBuf`write, logBuf`freeSize, logBuf.data
      ensures logBuf.Valid() && logBuf.Abs() == if status then Put(old(logBuf.Abs()), buf) else old(logBuf.Abs())
      ensures size == if status && |buf| <= old(logBuf.freeSize) then |buf| else 0
    {
      if !status {
        return 0;
      }
      size := logBuf.WriteSize(buf);
    }

    /** read_log takes what is there, up to what the caller has room for. */
    method ReadLog(free: nat) returns (len: nat, buf: seq<byte>)
      requires logBuf.Valid()
      modifies logBuf`read, logBuf`freeSize
      ensures logBuf.Valid()
      ensures !status ==> len == 0
      ensures status ==> len == if free < |old(logBuf.Contents())| then free else |old(logBuf.Contents())|
      ensures buf == old(logBuf.Contents())[..len] && logBuf.Contents() == old(logBuf.Contents())[len..]
      ensures logBuf.Abs() == if status then Apply(old(logBuf.Abs()), Call.ReadLog(free)) else old(logBuf.Abs())
    {
      if !status {
        return 0, [];
      }
      if logBuf.data.Length - logBuf.freeSize >= free {
        len, buf := logBuf.ReadSize(free, false);
      } else {
        len, buf := logBuf.ReadSize(logBuf.data.Length - logBuf.freeSize, false);
      }
    }
  }
}
