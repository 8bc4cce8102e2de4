/** The `info_connect` ring of 3_sem/Select: a buffer with a cursor where the next byte read
    is stored and a cursor where the next byte to write is taken. `full` and `empty` count
    only the contiguous bytes from the write cursor and from the read cursor. */
module Ring {
  import opened Utils

  type Byte = bv8

  datatype Ring = Ring(buf: seq<Byte>, curRead: int, curWrite: int, full: int, empty: int)

  const BUFF_SIZE := 4096

  function Pow3(k: nat): (r: nat)
    ensures r >= 1
  {
    if k == 0 then 1 else 3 * Pow3(k - 1)
  }

  // MIN (pow (3, num_proc - i_prnt + 4), 128000)
  function SizeBuf(numProc: nat, i: nat): nat
    requires i < numProc
  {
    var p := Pow3(numProc - i + 4);
    if p < 128000 then p else 128000
  }

  lemma Pow3Monotone(a: nat, b: nat)
    requires a <= b
    ensures Pow3(a) <= Pow3(b)
  {
  }

  lemma SizeBounds(numProc: nat, i: nat)
    requires i < numProc
    ensures 243 <= SizeBuf(numProc, i) <= 128000
    ensures i + 1 < numProc ==> SizeBuf(numProc, i) >= 729
  {
    assert Pow3(5) == 243 && Pow3(6) == 729;
    Pow3Monotone(5, numProc - i + 4);
    if i + 1 < numProc { Pow3Monotone(6, numProc - i + 4); }
  }

  // The last ring is the smallest, and each one before it is three times as large, up to the limit.
  lemma SizesTriple(numProc: nat, i: nat)
    requires i < numProc
    ensures SizeBuf(numProc, numProc - 1) == 243
    ensures i + 1 < numProc ==> SizeBuf(numProc, i) == Min(128000, 3 * SizeBuf(numProc, i + 1))
  {
    assert Pow3(5) == 243;
  }

  function New(size: nat): Ring {
    Ring(seq(size, _ => 0), 0, 0, 0, size)
  }

  // ------------------------------------------------------------------ the code's updates

  // After `read` returned ret > 0.
  function ReadCursors(r: Ring, ret: int): Ring {
    var full := if r.curRead >= r.curWrite then r.full + ret else r.full;
    if r.curRead + ret == |r.buf| then r.(curRead := 0, full := full, empty := r.curWrite)
    else r.(curRead := r.curRead + ret, full := full, empty := r.empty - ret)
  }

  // After `write` returned ret; the EAGAIN case reaches this code with ret == -1.
  function WriteCursors(r: Ring, ret: int): Ring {
    var empty := if r.curWrite >= r.curRead then r.empty + ret else r.empty;
    if r.curWrite + ret == |r.buf| then r.(curWrite := 0, empty := empty, full := r.curRead)
    else r.(curWrite := r.curWrite + ret, empty := empty, full := r.full - ret)
  }

  // The kernel stores the data at the read cursor.
  function Stored(r: Ring, data: seq<Byte>): Ring
    requires 0 <= r.curRead && r.curRead + |data| <= |r.buf|
  {
    r.(buf := r.buf[..r.curRead] + data + r.buf[r.curRead + |data|..])
  }

  function ReadStep(r: Ring, data: seq<Byte>): Ring
    requires 0 <= r.curRead && r.curRead + |data| <= |r.buf|
  {
    ReadCursors(Stored(r, data), |data|)
  }

  // The bytes a `write` of k takes from the buffer.
  function Emitted(r: Ring, k: nat): seq<Byte>
    requires 0 <= r.curWrite && r.curWrite + k <= |r.buf|
  {
    r.buf[r.curWrite..r.curWrite + k]
  }

  // ------------------------------------------------------------------ invariant

  predicate Valid(r: Ring) {
    && 0 <= r.curRead < |r.buf| && 0 <= r.curWrite < |r.buf|
    && (r.curRead > r.curWrite ==> r.full == r.curRead - r.curWrite && r.empty == |r.buf| - r.curRead)
    && (r.curRead < r.curWrite ==> r.full == |r.buf| - r.curWrite && r.empty == r.curWrite - r.curRead)
    && (r.curRead == r.curWrite ==>
          || (r.full == 0 && r.empty == |r.buf| - r.curRead)    // completely empty
          || (r.full == |r.buf| - r.curWrite && r.empty == 0))  // completely full
  }

  // The queued bytes, oldest first.
  function Contents(r: Ring): seq<Byte>
    requires Valid(r)
  {
    if r.curRead > r.curWrite then r.buf[r.curWrite..r.curRead]
    else if r.curRead == r.curWrite && r.full == 0 then []
    else r.buf[r.curWrite..] + r.buf[..r.curRead]
  }

  // ------------------------------------------------------------------ results

  lemma NewIsEmpty(size: nat)
    requires size > 0
    ensures Valid(New(size)) && Contents(New(size)) == []
  {
  }

  /** `full` is exactly the contiguous run of queued bytes from the write cursor to the end
      of the buffer, and `empty` the contiguous free run from the read cursor. */
  lemma CountsAreContiguousRuns(r: Ring)
    requires Valid(r)
    ensures r.full == Min(|Contents(r)|, |r.buf| - r.curWrite)
    ensures r.empty == Min(|r.buf| - |Contents(r)|, |r.buf| - r.curRead)
    ensures var e := r.curWrite + |Contents(r)|;
            r.curRead == if e < |r.buf| then e else e - |r.buf|
  {
  }

  // Reading appends to the queue, whichever way the buffer wraps.
  lemma ReadAppends(r: Ring, data: seq<Byte>)
    requires Valid(r) && 0 < |data| <= r.empty
    ensures Valid(ReadStep(r, data))
    ensures Contents(ReadStep(r, data)) == Contents(r) + data
  {
    var s := ReadStep(r, data);
    var e := r.curRead + |data|;
    assert s.buf[r.curRead..e] == data;
    assert s.buf[..r.curRead] == r.buf[..r.curRead];
    assert s.buf[e..] == r.buf[e..];
    if r.curRead >= r.curWrite {
      assert s.buf[r.curWrite..e] == r.buf[r.curWrite..r.curRead] + data;
      assert e == |r.buf| ==> s.buf[r.curWrite..] + s.buf[..0] == s.buf[r.curWrite..e];
    } else {
      assert s.buf[r.curWrite..] == s.buf[e..][r.curWrite - e..];
      assert r.buf[r.curWrite..] == r.buf[e..][r.curWrite - e..];
      assert s.buf[..e] == r.buf[..r.curRead] + data;
    }
  }

  // Writing keeps the cursors and the counts in order.
  lemma WriteKeeps(r: Ring, k: nat)
    requires Valid(r) && 0 < k <= r.full
    ensures Valid(WriteCursors(r, k))
  {
  }

  lemma TailSplits(b: seq<Byte>, from: nat, mid: nat)
    requires from <= mid <= |b|
    ensures b[from..] == b[from..mid] + b[mid..]
  {
  }

  lemma Regroup(a: seq<Byte>, b: seq<Byte>, c: seq<Byte>)
    ensures (a + b) + c == a + (b + c)
  {
  }

  // The queued bytes run past the end of the buffer.
  lemma WrappedWriteTakes(r: Ring, k: nat)
    requires Valid(r) && 0 < k <= r.full && r.curRead <= r.curWrite
    requires Valid(WriteCursors(r, k))
    ensures Contents(r) == Emitted(r, k) + Contents(WriteCursors(r, k))
  {
    var e, s := r.curWrite + k, WriteCursors(r, k);
    var front := r.buf[..r.curRead];
    TailSplits(r.buf, r.curWrite, e);
    if e == |r.buf| {
      assert r.buf[e..] == [];
      assert Contents(s) == front;
    } else {
      assert Contents(s) == r.buf[e..] + front;
    }
    Regroup(r.buf[r.curWrite..e], r.buf[e..], front);
  }

  lemma SliceSplits(b: seq<Byte>, from: nat, mid: nat, to: nat)
    requires from <= mid <= to <= |b|
    ensures b[from..to] == b[from..mid] + b[mid..to]
  {
  }

  // Writing takes the oldest bytes.
  lemma WriteTakes(r: Ring, k: nat)
    requires Valid(r) && 0 < k <= r.full
    ensures Valid(WriteCursors(r, k))
    ensures Contents(r) == Emitted(r, k) + Contents(WriteCursors(r, k))
  {
    WriteKeeps(r, k);
    if r.curRead > r.curWrite {
      SliceSplits(r.buf, r.curWrite, r.curWrite + k, r.curRead);
    } else {
      WrappedWriteTakes(r, k);
    }
  }

  lemma Halves(a: seq<Byte>, b: seq<Byte>)
    ensures (a + b)[..|a|] == a && (a + b)[|a|..] == b
  {
  }

  // The same, seen from the queue.
  lemma WriteTakesFront(r: Ring, k: nat)
    requires Valid(r) && 0 < k <= r.full
    ensures Valid(WriteCursors(r, k)) && k <= |Contents(r)|
    ensures Emitted(r, k) == Contents(r)[..k] && Contents(WriteCursors(r, k)) == Contents(r)[k..]
  {
    WriteTakes(r, k);
    Halves(Emitted(r, k), Contents(WriteCursors(r, k)));
  }

  /** The code asks `write` for `empty` bytes where `full` are there. What it can get back: 0
      for an empty request (the code then closes the descriptor), otherwise 1..empty. A negative
      `empty`, which only a broken ring has, is a huge unsigned count. */
  predicate MayReturn(r: Ring, ret: int) {
    if r.empty < 0 then ret > 0 else 0 <= ret <= r.empty && (ret == 0 ==> r.empty == 0)
  }

  // The bytes such a write takes; a long request reads on into the memory behind the buffer.
  function Sent(r: Ring, ret: nat, behind: seq<Byte>): seq<Byte>
    requires 0 <= r.curWrite && r.curWrite + ret <= |r.buf| + |behind|
  {
    (r.buf + behind)[r.curWrite..r.curWrite + ret]
  }

  lemma SentBytes(r: Ring, ret: nat, behind: seq<Byte>, j: nat)
    requires 0 <= r.curWrite && r.curWrite + ret <= |r.buf| + |behind| && j < ret
    ensures |Sent(r, ret, behind)| == ret
    ensures r.curWrite + j < |r.buf| ==> Sent(r, ret, behind)[j] == r.buf[r.curWrite + j]
    ensures r.curWrite + j >= |r.buf| ==> Sent(r, ret, behind)[j] == behind[r.curWrite + j - |r.buf|]
  {
  }

  // The descriptor stays open, the cursors still describe a ring, and what was sent is the
  // front of the queue.
  predicate Survives(r: Ring, ret: int, behind: seq<Byte>)
    requires Valid(r) && MayReturn(r, ret) && r.empty <= |behind|
  {
    && ret != 0
    && Valid(WriteCursors(r, ret))
    && Contents(r) == Sent(r, ret, behind) + Contents(WriteCursors(r, ret))
  }

  // A write of no more than is queued sends bytes of the ring only.
  lemma SentIsEmitted(r: Ring, ret: nat, behind: seq<Byte>)
    requires Valid(r) && 0 < ret <= r.full
    ensures Sent(r, ret, behind) == Emitted(r, ret)
    ensures ret <= r.empty <= |behind| ==> Survives(r, ret, behind)
  {
    assert (r.buf + behind)[r.curWrite..r.curWrite + ret] == r.buf[r.curWrite..r.curWrite + ret];
    WriteTakes(r, ret);
  }

  /** The write the code makes is sound, whatever `write` returns, exactly when the free run is
      not empty and not longer than the queued run. */
  lemma RequestSafeIff(r: Ring, behind: seq<Byte>)
    requires Valid(r) && r.full > 0 && r.empty <= |behind|
    ensures (forall ret :: MayReturn(r, ret) ==> Survives(r, ret, behind)) <==> 0 < r.empty <= r.full
  {
    if 0 < r.empty <= r.full {
      forall ret | MayReturn(r, ret) ensures Survives(r, ret, behind) { SentIsEmitted(r, ret, behind); }
    } else {
      assert MayReturn(r, r.empty) && !Survives(r, r.empty, behind);
    }
  }

  // A write of ret bytes out of the requested `empty` keeps the ring exactly when ret <= full.
  lemma WriteKeepsIff(r: Ring, ret: int)
    requires Valid(r) && r.full > 0 && 0 < ret <= r.empty
    ensures Valid(WriteCursors(r, ret)) <==> ret <= r.full
  {
    if ret <= r.full { WriteKeeps(r, ret); }
  }

  // Every ring the parent uses, fresh and with one byte queued: its first write may go wrong.
  lemma RequestUnsafeExample(numProc: nat, i: nat, b: Byte)
    requires i + 1 < numProc
    ensures var size := SizeBuf(numProc, i);
            var r := ReadStep(New(size), [b]);
            && Valid(r) && Contents(r) == [b]
            && MayReturn(r, size - 1) && !Valid(WriteCursors(r, size - 1))
  {
    SizeBounds(numProc, i);
    NewIsEmpty(SizeBuf(numProc, i));
    ReadAppends(New(SizeBuf(numProc, i)), [b]);
  }

  // What the updates do to any ring, sound or not, and to any count that does not reach the end of
  // the buffer: the free run still ends where it ended, and so does the queued run.
  lemma RunsEndWhereTheyDid(r: Ring, ret: int)
    ensures var t := ReadCursors(r, ret);
            && t.buf == r.buf && t.curWrite == r.curWrite
            && (r.curRead + ret != |r.buf| ==>
                  t.curRead - r.curRead == ret && t.curRead + t.empty == r.curRead + r.empty)
            && (r.curRead + ret == |r.buf| ==> t.curRead == 0 && t.empty == t.curWrite)
            && t.full - r.full == (if r.curRead >= r.curWrite then ret else 0)
    ensures var t := WriteCursors(r, ret);
            && t.buf == r.buf && t.curRead == r.curRead
            && (r.curWrite + ret != |r.buf| ==>
                  t.curWrite - r.curWrite == ret && t.curWrite + t.full == r.curWrite + r.full)
            && (r.curWrite + ret == |r.buf| ==> t.curWrite == 0 && t.full == t.curRead)
            && t.empty - r.empty == (if r.curWrite >= r.curRead then ret else 0)
  {
  }

  /** Exactly when the ring is still valid after EAGAIN: the write cursor is not at the start of
      the buffer, and the ring is not completely full. */
  lemma EagainKeepsIff(r: Ring)
    requires Valid(r) && r.full > 0
    ensures Valid(WriteCursors(r, -1)) <==> r.curWrite > 0 && r.curRead != r.curWrite
  {
  }

  // What is queued after EAGAIN in a ring that stays valid.
  lemma QueuedAgain(r: Ring)
    requires Valid(r) && r.full > 0 && r.curWrite > 0 && r.curRead != r.curWrite
    requires Valid(WriteCursors(r, -1))
    ensures Contents(WriteCursors(r, -1)) == [r.buf[r.curWrite - 1]] + Contents(r)
  {
    var s := WriteCursors(r, -1);
    var again := [r.buf[r.curWrite - 1]];
    if r.curRead > r.curWrite {
      SliceSplits(r.buf, s.curWrite, r.curWrite, r.curRead);
    } else {
      TailSplits(r.buf, s.curWrite, r.curWrite);
      Regroup(again, r.buf[r.curWrite..], r.buf[..r.curRead]);
    }
  }

  /** If `write` fails with EAGAIN the code goes on with ret == -1, which is never harmless: the
      cursor state is broken at the start of the buffer and in a completely full ring, and in
      every other ring the byte before the write cursor is queued again. */
  lemma EagainIsHarmful(r: Ring)
    requires Valid(r) && r.full > 0
    ensures var s := WriteCursors(r, -1);
            if r.curWrite > 0 && r.curRead != r.curWrite
            then Valid(s) && Contents(s) == [r.buf[r.curWrite - 1]] + Contents(r)
            else !Valid(s)
  {
    hide Contents, WriteCursors;
    EagainKeepsIff(r);
    if r.curWrite > 0 && r.curRead != r.curWrite { QueuedAgain(r); }
  }

  // Reads that fit, one after the other, and the ring after them.
  ghost predicate CanRead(r: Ring, datas: seq<seq<Byte>>)
    decreases |datas|
  {
    datas == [] || (Valid(r) && 0 < |datas[0]| <= r.empty && CanRead(ReadStep(r, datas[0]), datas[1..]))
  }

  ghost function AfterReads(r: Ring, datas: seq<seq<Byte>>): Ring
    requires CanRead(r, datas)
    decreases |datas|
  {
    if datas == [] then r else AfterReads(ReadStep(r, datas[0]), datas[1..])
  }

  // b is the byte before the write cursor, as long as the ring is not completely full.
  predicate LastSent(r: Ring, b: Byte)
    requires Valid(r)
  {
    r.curWrite == 0 || r.buf[r.curWrite - 1] == b || (r.curRead == r.curWrite && r.full > 0)
  }

  lemma ReadKeepsLast(r: Ring, data: seq<Byte>, b: Byte)
    requires Valid(r) && LastSent(r, b) && 0 < |data| <= r.empty
    ensures Valid(ReadStep(r, data)) && LastSent(ReadStep(r, data), b)
  {
    ReadAppends(r, data);
  }

  lemma {:induction false} ReadsKeepLast(r: Ring, datas: seq<seq<Byte>>, b: Byte)
    requires Valid(r) && LastSent(r, b) && CanRead(r, datas)
    ensures Valid(AfterReads(r, datas)) && LastSent(AfterReads(r, datas), b)
    decreases |datas|
  {
    hide LastSent;
    if datas != [] {
      ReadKeepsLast(r, datas[0], b);
      ReadsKeepLast(ReadStep(r, datas[0]), datas[1..], b);
    }
  }

  // After a write of k bytes and any reads, the byte queued again is the last one of those k.
  lemma EagainSendsTwice(r: Ring, k: nat, datas: seq<seq<Byte>>)
    requires Valid(r) && 0 < k <= r.full && CanRead(WriteCursors(r, k), datas)
    requires AfterReads(WriteCursors(r, k), datas).full > 0
    ensures var s := AfterReads(WriteCursors(r, k), datas);
            var t := WriteCursors(s, -1);
            && Valid(s)
            && (if s.curWrite > 0 && s.curRead != s.curWrite
                then Valid(t) && Contents(t) == [Emitted(r, k)[k - 1]] + Contents(s)
                else !Valid(t))
  {
    WriteKeeps(r, k);
    var s := AfterReads(WriteCursors(r, k), datas);
    ReadsKeepLast(WriteCursors(r, k), datas, Emitted(r, k)[k - 1]);
    EagainIsHarmful(s);
  }

  // ------------------------------------------------------------------ the record

  class InfoConnect {
    const buf: array<Byte>
    var curRead: int
    var curWrite: int
    var full: int
    var empty: int

    function Model(): Ring
      reads this, buf
    {
      Ring.Ring(buf[..], curRead, curWrite, full, empty)
    }

    constructor (numProc: nat, i: nat)
      requires i < numProc
      ensures Model() == New(SizeBuf(numProc, i)) && fresh(buf)
      ensures Valid(Model()) && Contents(Model()) == []
    {
      var size := SizeBuf(numProc, i);
      buf := new Byte[size](_ => 0);
      curRead, curWrite, full, empty := 0, 0, 0, size;
      new;
      SizeBounds(numProc, i);
      assert buf[..] == seq(size, _ => 0 as Byte);
    }

    // The kernel's copy into the buffer at the read cursor.
    method Store(data: seq<Byte>)
      requires 0 <= curRead && curRead + |data| <= buf.Length
      modifies buf
      ensures Model() == Stored(old(Model()), data)
    {
      ghost var was := buf[..];
      var k := 0;
      while k < |data|
        invariant 0 <= k <= |data|
        invariant forall j :: 0 <= j < buf.Length ==>
                    buf[j] == if curRead <= j < curRead + k then data[j - curRead] else was[j]
      {
        buf[curRead + k] := data[k];
        k := k + 1;
      }
      assert buf[..] == was[..curRead] + data + was[curRead + |data|..];
    }

    // `read (fd_rd, cur_read, empty)` delivered `data`; then the cursor update.
    method Fill(data: seq<Byte>)
      requires Valid(Model()) && 0 < |data| <= empty
      modifies this, buf
      ensures Model() == ReadStep(old(Model()), data)
      ensures Valid(Model()) && Contents(Model()) == old(Contents(Model())) + data
    {
      ReadAppends(Model(), data);
      Store(data);
      if curRead >= curWrite {
        full := full + |data|;
      }
      if curRead + |data| == buf.Length {
        curRead := 0;
        empty := curWrite - curRead;
      } else {
        curRead := curRead + |data|;
        empty := empty - |data|;
      }
    }

    /** `write (fd_wr, cur_write, empty)` returned `ret`, which is -1 for EAGAIN; `behind` is
        the memory after the buffer, and `sent` what went out. The cursors move without a look
        at `full`; with ret == 0 the descriptor is closed instead. */
    method Drain(ret: int, behind: seq<Byte>) returns (sent: seq<Byte>, open: bool)
      requires Valid(Model()) && full > 0 && |behind| >= empty
      requires ret == -1 || MayReturn(Model(), ret)
      modifies this`curWrite, this`full, this`empty
      ensures open <==> ret != 0
      ensures Model() == if open then WriteCursors(old(Model()), ret) else old(Model())
      ensures sent == if ret == -1 then [] else Sent(old(Model()), ret, behind)
      ensures 0 < ret <= old(full) ==> Valid(Model()) && old(Contents(Model())) == sent + Contents(Model())
      ensures ret > old(full) ==> !Valid(Model())
      ensures ret == -1 ==>
                if old(curWrite) > 0 && curRead != old(curWrite)
                then Valid(Model()) && Contents(Model()) == [buf[old(curWrite) - 1]] + old(Contents(Model()))
                else !Valid(Model())
    {
      ghost var r := Model();
      if ret == -1 { EagainIsHarmful(r); }
      if ret > 0 {
        WriteKeepsIff(r, ret);
        if ret <= full { SentIsEmitted(r, ret, behind); }
      }
      sent := if ret <= 0 then [] else (buf[..] + behind)[curWrite..curWrite + ret];
      open := ret != 0;
      if open {
        if curWrite >= curRead {
          empty := empty + ret;
        }
        if curWrite + ret == buf.Length {
          curWrite := 0;
          full := curRead - curWrite;
        } else {
          curWrite := curWrite + ret;
          full := full - ret;
        }
      }
    }
  }
}
