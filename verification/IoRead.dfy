/** Accelerated read, pread, readv and preadv: a software pipeline of `slots` chunks. */
module IoRead {
  import opened Bytes
  import opened Iovec
  import opened IoSpec
  import opened IoMachine
  import opened IoCursor
  import opened SlotWindow
  import opened IoSlots
  import opened ResourceList

  /** The local variables of one call of the read functions.  The flat functions use `buf`, the
      vectored ones `next` and `done`; everything else is the same code. */
  class ReadJob {
    const m: Machine
    const vectored: bool
    const iov: seq<Iovec>
    const total: nat
    const posted: array<int>
    const sizes: array<int>
    var ofs: int
    var exitResult: int
    var errnoBak: int
    var dataErr: bool
    var buf: nat
    var next: nat
    var done: nat
    /** What the call started with. */
    ghost const ofs0: int
    ghost const errno0: int
    ghost const mem0: seq<byte>
    /** The plain loop on the same system. */
    ghost const plain: ReadRun
    /** The chunks answered so far; `a..b` are in flight, the first `taken` are in user memory. */
    ghost var chunks: seq<seq<byte>>
    ghost var a: nat
    ghost var b: nat
    ghost var taken: nat

    ghost predicate Static() {
      && posted.Length == sizes.Length == m.slots && posted != sizes
      && Total(iov) == total && (!vectored ==> |iov| == 1)
      && Within(iov, m.mem.Length) && |mem0| == m.mem.Length
    }

    /** The place of the next byte of user memory. */
    ghost predicate Cursor(p: nat)
      requires Static()
      reads this`buf, this`next, this`done
    {
      if vectored then CursorAt(iov, next, done, p) else buf == iov[0].base + p
    }

    /** These slots carry the chunks `a` to `b - 1`. */
    ghost predicate Carrying(cargo: seq<Option<Cargo>>, sz: seq<int>, cs: seq<seq<byte>>, a: nat, b: nat)
      requires Static()
    {
      && Window(Serials(cargo), m.slots, a, b)
      && Carried(cargo, sz, cs, m.slots, a, b, true)
      && (forall c :: 0 <= c < |cs| ==> 0 < |cs[c]| <= m.chunk)
      && |Flatten(cs)| <= total
    }

    ghost predicate InSlots()
      requires Static()
      reads this`chunks, this`a, this`b, m`cargo, m`log, sizes
    {
      Carrying(m.cargo, sizes[..], chunks, a, b)
    }

    /** User memory holds the chunks taken, and nothing else of it has changed. */
    ghost predicate Delivered()
      requires Static()
      reads this`chunks, this`taken, m.mem
    {
      && taken <= |chunks|
      && |Flatten(chunks[..taken])| <= total
      && m.mem[..] == Scatter(mem0, iov, 0, Flatten(chunks[..taken]))
    }

    ghost predicate Flow()
      reads this, m`cargo, m`log, m`moved, m.ve, m.vh, m.mem, sizes
    {
      && Static() && m.Valid() && InSlots() && Delivered()
      && taken <= a
      && (!dataErr ==> taken == a && Cursor(|Flatten(chunks[..taken])|))
    }

    /** What has gone wrong so far, and what will be returned. */
    ghost predicate Account()
      reads this`chunks, this`a, this`b, this`taken, this`dataErr, this`exitResult, this`errnoBak, m`calls
    {
      && taken <= |chunks| && b <= |chunks| <= b + 1
      && Granted(m, b)
      && if dataErr then Spoiled() else
           && |chunks| == b && Clear(m, a)
           && (a < b ==> exitResult == |Flatten(chunks[..taken])| && errnoBak == 0)
    }

    /** Data has been lost: the call will report an I/O error. */
    ghost predicate Spoiled()
      reads this`taken, this`exitResult, this`errnoBak, m`calls
    {
      ReadLost(m, plain, |m.calls|, taken) && exitResult == -1 && errnoBak == EIO
    }

    /** As many calls have been made as must be before chunk `a` is waited for. */
    ghost predicate Timely()
      reads this`chunks, this`a, this`b, this`dataErr, m`calls
    {
      && m.calls <= plain.calls && chunks <= plain.chunks
      && (!dataErr ==> |m.calls| == Min(|plain.calls|, a + m.slots) && Min(|plain.chunks|, a + m.slots) <= b)
    }

    constructor (m: Machine, vectored: bool, iov: seq<Iovec>, total: nat, ofs: int)
      requires m.Valid() && m.calls == [] && m.posts == 0
      requires forall j :: 0 <= j < m.slots ==> m.cargo[j].None?
      requires Total(iov) == total && (!vectored ==> |iov| == 1) && Within(iov, m.mem.Length)
      ensures this.m == m && this.vectored == vectored && this.iov == iov && this.total == total
      ensures ofs0 == ofs && errno0 == m.errno && mem0 == m.mem[..]
      ensures plain == Read(m.reader, total, m.chunk, ofs)
      ensures fresh(posted) && fresh(sizes) && Going() && b == 0
    {
      this.m, this.vectored, this.iov, this.total, this.ofs := m, vectored, iov, total, ofs;
      posted, sizes := new int[m.slots](_ => NONE), new int[m.slots](_ => 0);
      exitResult, errnoBak, dataErr, next, done := 0, 0, false, 0, 0;
      buf := if |iov| > 0 then iov[0].base else 0;
      ofs0, errno0, mem0 := ofs, m.errno, m.mem[..];
      plain := Read(m.reader, total, m.chunk, ofs);
      chunks, a, b, taken := [], 0, 0, 0;
      new;
      Empty(Serials(m.cargo), m.slots, 0);
      assert posted[..] == Serials(m.cargo);
      assert chunks[..0] == [];
    }

    /** At the head of the main loop, about to handle chunk `b`: all went well so far, and the
        plain loop on the same system has done the same calls. */
    ghost predicate Going()
      reads this, m`cargo, m`log, m`moved, m`calls, m`posts, m`errno, m.ve, m.vh, m.mem, posted, sizes
    {
      && Flow() && Account() && OnTrack() && m.errno == errno0
      && exitResult == |Flatten(chunks[..taken])| && errnoBak == 0
      && posted[..] == Serials(m.cargo)
      && a == if b < m.slots then 0 else b - m.slots
    }

    /** The plain loop comes by chunk `k` with these calls and this data behind it. */
    ghost predicate Passes(k: nat, at: int, calls: seq<Call>, data: seq<seq<byte>>)
      requires m.chunk > 0
    {
      && plain == SeqRead(m.reader, total, m.chunk, k, at, calls, data)
      && (k < Chunks(total, m.chunk) ==> |Flatten(data)| == Offset(m.chunk, k))
    }

    ghost predicate OnTrack()
      requires Static() && m.chunk > 0
      reads this, m`calls, m`posts
    {
      && !dataErr && |chunks| == b == |m.calls| == m.posts
      && Passes(b, ofs, m.calls, chunks)
    }

    /** After the main loop: what is in flight is to be drained. */
    ghost predicate Stopped()
      reads this, m`cargo, m`log, m`moved, m`calls, m`posts, m`errno, m.ve, m.vh, m.mem, posted, sizes
    {
      Flow() && Account() && Window(posted[..], m.slots, a, b) && Ended()
    }

    ghost predicate Ended()
      requires Static() && taken <= |chunks|
      reads this, m`calls, m`errno
    {
      if dataErr then m.calls <= plain.calls && chunks <= plain.chunks
      else
        && m.calls == plain.calls && chunks == plain.chunks && |m.calls| <= a + m.slots
        && (if errnoBak != 0 then errnoBak else m.errno) == ErrnoAfter(plain.error, |m.calls|, errno0)
        && exitResult == if plain.error.Some? && |m.calls| == 1 then -1 else |Flatten(chunks[..taken])|
    }

    /** Copy the first `len` bytes of part `j` of the VE buffer to the user. */
    method Deliver(j: nat, len: nat, ghost p: nat)
      requires Static() && m.Valid() && j < m.slots && m.cargo[j].None? && 0 < len <= m.chunk
      requires Cursor(p) && p + len <= total
      modifies this`buf, this`next, this`done, m`moved, m.ve, m.vh, m.mem
      ensures m.Valid() && Cursor(p + len)
      ensures m.mem[..] == Scatter(old(m.mem[..]), iov, p, old(m.VePart(j))[..len])
    {
      if vectored {
        next, done := ScatterPart(m, iov, j, len, next, done, p);
      } else {
        assert Prefix(iov, 1) == Prefix(iov, 0) + iov[0].len;
        ScatterRun(m.mem[..], iov, 0, p, m.VePart(j)[..len]);
        m.CopyOut(j, 0, len, buf);
        buf := buf + len;
      }
    }

    /** One more chunk laid over user memory. */
    lemma {:induction false} OneMore(k: nat)
      requires Static() && k < |chunks| && |Flatten(chunks)| <= total
      ensures |Flatten(chunks[..k])| + |chunks[k]| == |Flatten(chunks[..k + 1])| <= total
      ensures Scatter(Scatter(mem0, iov, 0, Flatten(chunks[..k])), iov, |Flatten(chunks[..k])|, chunks[k])
              == Scatter(mem0, iov, 0, Flatten(chunks[..k + 1]))
    {
      FlattenUpTo(chunks, k);
      ScatterAppend(mem0, iov, 0, Flatten(chunks[..k]), chunks[k]);
    }

    /** Wait for the oldest chunk in flight. */
    method Await(j: nat) returns (dmaRet: nat)
      requires Static() && m.Valid() && InSlots() && a < b && j == Slot(a, m.slots)
      modifies this`a, m`cargo, m`log, m`moved, m.ve, m.vh
      ensures m.Valid() && InSlots() && a == old(a) + 1 && m.cargo[j].None?
      ensures Serials(m.cargo) == old(Serials(m.cargo))[j := NONE]
      ensures dmaRet == m.exc(old(a))
      ensures dmaRet == 0 ==> sizes[j] == |chunks[old(a)]| && m.VePart(j)[..sizes[j]] == chunks[old(a)]
    {
      assert Brings(m.cargo, sizes[..], chunks, m.slots, a, true);
      Pop(Serials(m.cargo), m.slots, a, b);
      CarriedPop(m.cargo, sizes[..], chunks, m.slots, a, b, true);
      SerialsUpdate(m.cargo, j, None);
      ghost var x := m.cargo[j].value;
      assert Serials(m.cargo)[j] == x.serial == a;
      dmaRet := m.Wait(j);
      a := a + 1;
      if dmaRet == 0 {
        assert m.VePart(j)[..sizes[j]] == m.VePart(j)[..|x.sent|][..sizes[j]];
      }
    }

    /** Copy the next chunk to the user and count it. */
    method Take(j: nat)
      requires Static() && m.Valid() && InSlots() && Delivered() && taken < |chunks|
      requires j < m.slots && m.cargo[j].None?
      requires sizes[j] == |chunks[taken]| && m.VePart(j)[..sizes[j]] == chunks[taken]
      requires Cursor(|Flatten(chunks[..taken])|)
      modifies this`exitResult, this`buf, this`next, this`done, this`taken, m`moved, m.ve, m.vh, m.mem
      ensures m.Valid() && InSlots() && Delivered() && taken == old(taken) + 1
      ensures Cursor(|Flatten(chunks[..taken])|)
      ensures exitResult - |Flatten(chunks[..taken])| == old(exitResult - |Flatten(chunks[..taken])|)
    {
      OneMore(taken);
      Deliver(j, sizes[j], |Flatten(chunks[..taken])|);
      exitResult := exitResult + sizes[j];
      taken := taken + 1;
    }

    /** The oldest chunk in flight has arrived, and the user has everything before it. */
    ghost predicate Arrived(j: nat)
      reads this, m`cargo, m`log, m`moved, m`calls, m.ve, m.vh, m.mem, sizes
    {
      && Static() && m.Valid() && InSlots() && Delivered() && !dataErr
      && a == taken + 1 && |chunks| == b && Clear(m, a) && Granted(m, b)
      && j < m.slots && m.cargo[j].None? && taken < |chunks|
      && sizes[j] == |chunks[taken]| && m.VePart(j)[..sizes[j]] == chunks[taken]
      && Cursor(|Flatten(chunks[..taken])|)
      && exitResult == |Flatten(chunks[..taken])| && errnoBak == 0
    }

    /** The same, as a step of a call that has gone well so far. */
    method TakeClear(j: nat)
      requires Arrived(j)
      modifies this`exitResult, this`buf, this`next, this`done, this`taken, m`moved, m.ve, m.vh, m.mem
      ensures Flow() && Account() && !dataErr && exitResult == |Flatten(chunks[..taken])| && errnoBak == 0
    {
      Take(j);
    }

    /** A request has failed, and that is still to be entered. */
    ghost predicate Broken()
      reads this, m`cargo, m`log, m`moved, m`calls, m.ve, m.vh, m.mem, sizes
    {
      && Static() && m.Valid() && InSlots() && Delivered() && taken <= a
      && b <= |chunks| <= b + 1 && Granted(m, b) && ReadLost(m, plain, |m.calls|, taken)
    }

    /** The error path of a failed request. */
    method Spoil()
      requires Broken()
      modifies this`exitResult, this`errnoBak, this`dataErr
      ensures dataErr && Flow() && Account()
    {
      exitResult := -1;
      errnoBak := EIO;
      dataErr := true;
    }

    /** An exception of the oldest chunk in flight is the first failure, if none was noticed before. */
    lemma {:induction false} LostByException()
      requires Account() && Timely() && a < b && (!dataErr ==> taken == a)
      ensures m.exc(a) >= 1 ==> ReadLost(m, plain, |m.calls|, taken)
      ensures m.exc(a) == 0 && !dataErr ==> Clear(m, a + 1)
    {
      if m.exc(a) >= 1 && !dataErr { assert ReadStops(m, plain, a, |m.calls|, taken); }
    }

    /** Wait for the oldest chunk in flight: it is lost, or late after an earlier failure, or there. */
    method Receive(j: nat) returns (dmaRet: nat)
      requires Flow() && Account() && Timely() && a < b && j == Slot(a, m.slots)
      modifies this`a, m`cargo, m`log, m`moved, m.ve, m.vh
      ensures a == old(a) + 1 && Serials(m.cargo) == old(Serials(m.cargo))[j := NONE] && m.cargo[j].None?
      ensures (dmaRet >= 1 && Broken()) || (dmaRet == 0 && dataErr && Flow() && Account())
              || (dmaRet == 0 && Arrived(j))
    {
      LostByException();
      dmaRet := Await(j);
    }

    /** Wait for the oldest chunk in flight; an exception spoils the call. */
    method Fetch(j: nat)
      requires Flow() && Account() && Timely() && a < b && j == Slot(a, m.slots)
      modifies this`exitResult, this`errnoBak, this`dataErr, this`a, m`cargo, m`log, m`moved, m.ve, m.vh
      ensures a == old(a) + 1 && Serials(m.cargo) == old(Serials(m.cargo))[j := NONE] && m.cargo[j].None?
      ensures (dataErr && Flow() && Account()) || (!old(dataErr) && Arrived(j))
    {
      var dmaRet := Receive(j);
      if dmaRet >= 1 {
        Spoil();
      }
    }

    /** Wait for the oldest chunk in flight and, unless data has been lost, copy it to the user. */
    method Collect(j: nat)
      requires Flow() && Account() && Timely() && a < b && j == Slot(a, m.slots)
      modifies this`exitResult, this`errnoBak, this`dataErr, this`buf, this`next, this`done, this`a, this`taken
      modifies m`cargo, m`log, m`moved, m.ve, m.vh, m.mem
      ensures a == old(a) + 1 && Serials(m.cargo) == old(Serials(m.cargo))[j := NONE]
      ensures Flow() && Account() && m.cargo[j].None? && (old(dataErr) ==> dataErr)
      ensures !dataErr ==> exitResult == |Flatten(chunks[..taken])| && errnoBak == 0
    {
      Fetch(j);
      if !dataErr {
        TakeClear(j);
      }
    }

    /** Slot `j` is free for chunk `b`, and all has gone well so far. */
    ghost predicate Ready(j: nat)
      reads this, m`cargo, m`log, m`moved, m`calls, m`posts, m`errno, m.ve, m.vh, m.mem, posted, sizes
    {
      && Flow() && Account() && OnTrack() && m.errno == errno0
      && exitResult == |Flatten(chunks[..taken])| && errnoBak == 0
      && b < Chunks(total, m.chunk) && j == Slot(b, m.slots) && j < m.slots
      && a == (if b < m.slots then 0 else b - m.slots + 1)
      && posted[..][j := NONE] == Serials(m.cargo)
    }

    /** The system call of chunk `b`. */
    method Query(j: nat, transfer: nat) returns (r: int)
      requires Ready(j) && transfer == ChunkSize(total, m.chunk, b)
      modifies sizes, m`moved, m`calls, m`errno, m.ve, m.vh
      ensures m.Valid() && InSlots() && sizes[j] == r
      ensures m.calls == old(m.calls) + [Call(transfer, ofs, r)]
      ensures match Clip(m.reader(b), transfer)
              case Fail(e) => r == -1 && m.errno == e
              case Got(d) => r == |d| <= transfer && m.VhPart(j)[..r] == d && m.errno == errno0
    {
      Push(Serials(m.cargo), m.slots, a, b);
      assert m.cargo[j].None?;
      r := m.SysRead(j, transfer, ofs);
      ghost var before := sizes[..];
      sizes[j] := r;
      CarriedElsewhere(m.cargo, before, chunks, m.slots, a, b, j, r, true);
      assert sizes[..] == before[j := r];
    }

    /** What the slots hold if the engine takes chunk `b`, as the cargo `x`, and if it does not. */
    lemma {:induction false} Posting(cargo: seq<Option<Cargo>>, cargo': seq<Option<Cargo>>,
                                     j: nat, d: seq<byte>, x: Cargo, ok: bool)
      requires Static() && Carrying(cargo, sizes[..], chunks, a, b)
      requires b == |chunks| && j == Slot(b, m.slots) && j < m.slots == |cargo|
      requires a <= b < a + m.slots && sizes[j] == |d| && 0 < |d| <= m.chunk && |Flatten(chunks)| + |d| <= total
      requires x.serial == b && x.toVe && |d| <= |x.sent| && x.sent[..|d|] == d
      requires cargo' == if ok then cargo[j := Some(x)] else cargo
      ensures Serials(cargo') == if ok then Serials(cargo)[j := b] else Serials(cargo)
      ensures Carrying(cargo', sizes[..], chunks + [d], a, if ok then b + 1 else b)
    {
      Push(Serials(cargo), m.slots, a, b);
      FlattenSnoc(chunks, d);
      if ok {
        assert sizes[..][j := |d|] == sizes[..];
        CarriedPush(cargo, sizes[..], chunks, m.slots, a, b, d, x, true);
        SerialsUpdate(cargo, j, Some(x));
      } else {
        CarriedMore(cargo, sizes[..], chunks, m.slots, a, b, d, true);
      }
    }

    /** The plain loop has done the same calls, and the data `cs`, the last chunk `r` of `transfer` bytes. */
    ghost predicate Agrees(at: int, calls: seq<Call>, cs: seq<seq<byte>>, transfer: nat, r: nat)
      requires m.chunk > 0
    {
      && calls <= plain.calls && cs <= plain.chunks && |calls| == |cs|
      && (r < transfer ==> plain == ReadRun(calls, cs, None))
      && (r == transfer ==> Passes(|cs|, at + r, calls, cs))
    }

    /** The plain loop does the same call as chunk `b` does here. */
    lemma {:induction false} PlainStep(transfer: nat)
      requires Static() && m.chunk > 0 && OnTrack()
      requires b < Chunks(total, m.chunk) && transfer == ChunkSize(total, m.chunk, b)
      ensures match Clip(m.reader(b), transfer)
              case Fail(e) => plain == ReadRun(m.calls + [Call(transfer, ofs, -1)], chunks, Some(e))
              case Got(d) =>
                var calls' := m.calls + [Call(transfer, ofs, |d|)];
                && |Flatten(chunks)| + |d| <= total
                && if d == [] then plain == ReadRun(calls', chunks, None)
                   else Agrees(ofs, calls', chunks + [d], transfer, |d|)
    {
      var r := Clip(m.reader(b), transfer);
      if r.Got? {
        FlattenSnoc(chunks, r.data);
        if |r.data| == transfer {
          ReadGrows(m.reader, total, m.chunk, b + 1, ofs + |r.data|,
                    m.calls + [Call(transfer, ofs, |r.data|)], chunks + [r.data]);
        }
      }
    }

    /** Nothing has been lost, and the result is what the user has got. */
    ghost predicate Smooth()
      reads this`chunks, this`taken, this`dataErr, this`exitResult, this`errnoBak
    {
      !dataErr && taken <= |chunks| && exitResult == |Flatten(chunks[..taken])| && errnoBak == 0
    }

    /** The system call for slot `j` answered `r` and brought no data. */
    ghost predicate NoData(j: nat, r: int)
      reads this, m`cargo, m`log, m`moved, m`calls, m`posts, m`errno, m.ve, m.vh, m.mem, posted, sizes
    {
      && Flow() && Account() && Smooth() && j < m.slots && a <= b < a + m.slots
      && posted[..][j := NONE] == Serials(m.cargo)
      && |m.calls| == b + 1 && m.calls == plain.calls && chunks == plain.chunks
      && if r == -1 then plain.error == Some(m.errno)
         else r == 0 && plain.error == None && m.errno == errno0
    }

    /** Chunk `i` got no data: the system call failed, or found the end of the file. */
    method GiveUp(i: nat, j: nat, r: int)
      requires NoData(j, r) && i == b
      modifies this`exitResult, this`errnoBak, m`errno, posted
      ensures Stopped()
    {
      if r == -1 {
        if 0 == i {
          errnoBak := m.errno;
          exitResult := r;
        }
        m.errno := 0;
      }
      posted[j] := NONE;
      assert posted[..] == Serials(m.cargo);
    }

    /** The system call for slot `j` has brought the data `d` to its part of the VH buffer. */
    ghost predicate Answered(j: nat, d: seq<byte>)
      reads this`chunks, this`a, this`b, m`posts, m.vh, sizes
    {
      && Static() && m.Sized()
      && b == |chunks| == m.posts && j == Slot(b, m.slots) && j < m.slots
      && a <= b < a + m.slots && a == (if b < m.slots then 0 else b - m.slots + 1)
      && sizes[j] == |d| && 0 < |d| <= m.chunk
      && m.VhPart(j)[..|d|] == d && |Flatten(chunks)| + |d| <= total
    }

    /** The system call of chunk `b`, and what the plain loop makes of the answer. */
    method Ask(j: nat, transfer: nat) returns (r: int, ghost d: seq<byte>)
      requires Ready(j) && transfer == ChunkSize(total, m.chunk, b)
      modifies sizes, m`moved, m`calls, m`errno, m.ve, m.vh
      ensures r <= 0 ==> NoData(j, r)
      ensures r > 0 ==>
        && Flow() && Account() && Smooth() && Answered(j, d) && |d| == r <= transfer && m.errno == errno0
        && posted[..][j := NONE] == Serials(m.cargo)
        && Agrees(ofs, m.calls, chunks + [d], transfer, r)
    {
      PlainStep(transfer);
      ghost var answer := Clip(m.reader(b), transfer);
      d := if answer.Got? then answer.data else [];
      r := Query(j, transfer);
    }

    /** The system call and the post of chunk `i`; `go` tells whether the main loop goes on. */
    method Issue(i: nat, j: nat, transfer: nat) returns (go: bool)
      requires Ready(j) && i == b && transfer == ChunkSize(total, m.chunk, b)
      modifies this`chunks, this`b, this`ofs, this`exitResult, this`errnoBak, this`dataErr, posted, sizes
      modifies m`cargo, m`log, m`moved, m`posts, m`calls, m`errno, m.ve, m.vh
      ensures (go && Going() && b == i + 1) || (!go && Stopped())
    {
      var r; ghost var d;
      r, d := Ask(j, transfer);
      if r == -1 || r == 0 {
        GiveUp(i, j, r);
        return false;
      }
      go := Enqueue(i, j, transfer, r, d);
    }

    /** The post of part `j` of the VH buffer, which holds the data `d`. */
    method PostPart(j: nat, r: nat, ghost d: seq<byte>) returns (ok: bool, ghost x: Cargo)
      requires Static() && m.Valid() && j < m.slots && m.cargo[j].None?
      requires 0 < r == |d| <= m.chunk && m.VhPart(j)[..r] == d
      modifies m`cargo, m`log, m`moved, m`posts, m.ve, m.vh
      ensures m.Valid() && ok == m.postOk(old(m.posts)) && m.posts == old(m.posts) + 1
      ensures x.serial == old(m.posts) && x.toVe && |d| <= |x.sent| && x.sent[..|d|] == d
      ensures m.cargo == if ok then old(m.cargo)[j := Some(x)] else old(m.cargo)
    {
      DmaSizeStaysInside(r, m.chunk);
      x := Cargo(m.posts, true, m.VhPart(j)[..DmaSize(r)]);
      assert x.sent[..r] == d;
      ok := m.Post(j, true, DmaSize(r));
    }

    /** The slot of the next chunk is empty. */
    lemma {:induction false} SlotFree(j: nat)
      requires Static() && InSlots() && j == Slot(b, m.slots) && j < m.slots == |m.cargo| && a <= b < a + m.slots
      ensures m.cargo[j].None?
    {
      Push(Serials(m.cargo), m.slots, a, b);
    }

    /** The post of chunk `b`, whose data `d` is in the VH buffer. */
    method Send(i: nat, j: nat, r: nat, ghost d: seq<byte>) returns (ok: bool)
      requires Static() && m.Valid() && InSlots() && Answered(j, d) && i == b && r == |d|
      modifies m`cargo, m`log, m`moved, m`posts, m.ve, m.vh
      ensures m.Valid() && ok == m.postOk(i) && m.posts == i + 1
      ensures Carrying(m.cargo, sizes[..], chunks + [d], a, if ok then i + 1 else i)
      ensures Serials(m.cargo) == if ok then old(Serials(m.cargo))[j := i] else old(Serials(m.cargo))
    {
      SlotFree(j);
      ghost var cargo0 := m.cargo;
      ghost var x;
      ok, x := PostPart(j, r, d);
      Posting(cargo0, m.cargo, j, d, x, ok);
    }

    /** The same, with the chunk entered as answered and, if the engine took it, as in flight. */
    method Dispatch(i: nat, j: nat, r: nat, ghost d: seq<byte>) returns (ok: bool)
      requires Static() && m.Valid() && InSlots() && Answered(j, d) && i == b && r == |d|
      modifies this`chunks, this`b, m`cargo, m`log, m`moved, m`posts, m.ve, m.vh
      ensures chunks == old(chunks) + [d] && ok == m.postOk(i) && m.posts == i + 1
      ensures m.Valid() && InSlots() && b == if ok then i + 1 else i
      ensures Serials(m.cargo) == if ok then old(Serials(m.cargo))[j := i] else old(Serials(m.cargo))
    {
      ok := Send(i, j, r, d);
      chunks := chunks + [d];
      if ok { b := b + 1; }
    }

    /** The engine has taken chunk `i`, and slot `j` has yet to be marked. */
    ghost predicate UnderWay(i: nat, j: nat)
      reads this, m`cargo, m`log, m`moved, m`calls, m`posts, m.ve, m.vh, m.mem, posted, sizes
    {
      && Flow() && Smooth() && i + 1 == b == |chunks| == |m.calls| == m.posts && j < posted.Length
      && a == (if b <= m.slots then 0 else b - m.slots) && Clear(m, a) && Granted(m, b)
      && posted[..][j := i] == Serials(m.cargo)
    }

    /** The engine has not taken chunk `i`. */
    ghost predicate Missed(i: nat, j: nat)
      reads this, m`cargo, m`log, m`moved, m`calls, m.ve, m.vh, m.mem, posted, sizes
    {
      && Broken() && i == b < |chunks| && j < posted.Length && posted[..][j := NONE] == Serials(m.cargo)
    }

    /** The user has got what the chunks `cs` before `a` brought, and the call has gone well so far. */
    ghost predicate Enjoys(cs: seq<seq<byte>>)
      requires Static()
      reads this`taken, this`a, this`buf, this`next, this`done, this`exitResult, this`errnoBak, this`dataErr, m.mem
    {
      && !dataErr && taken == a <= |cs| && |Flatten(cs[..taken])| <= total
      && m.mem[..] == Scatter(mem0, iov, 0, Flatten(cs[..taken])) && Cursor(|Flatten(cs[..taken])|)
      && exitResult == |Flatten(cs[..taken])| && errnoBak == 0
    }

    /** Where the call is after the post of chunk `i`. */
    lemma {:induction false} Land(i: nat, j: nat, ok: bool, before: seq<seq<byte>>, d: seq<byte>)
      requires Static() && m.Valid() && InSlots() && Enjoys(before) && chunks == before + [d]
      requires i + 1 == |chunks| == |m.calls| == m.posts && b == (if ok then i + 1 else i) && ok == m.postOk(i)
      requires a == Collected(i, m.slots) && Clear(m, a) && Granted(m, i) && j < posted.Length
      requires posted[..][j := if ok then i else NONE] == Serials(m.cargo)
      requires m.calls <= plain.calls && chunks <= plain.chunks
      ensures if ok then UnderWay(i, j) else Missed(i, j)
    {
      assert chunks[..taken] == before[..taken];
      LostByRefusal(i);
    }

    /** The post again, for a call that has gone well so far. */
    method Ship(i: nat, j: nat, r: nat, ghost d: seq<byte>) returns (ok: bool)
      requires Flow() && Account() && Smooth() && Answered(j, d) && i == b && r == |d|
      requires posted[..][j := NONE] == Serials(m.cargo) && |m.calls| == i + 1
      requires m.calls <= plain.calls && chunks + [d] <= plain.chunks
      modifies this`chunks, this`b, m`cargo, m`log, m`moved, m`posts, m.ve, m.vh
      ensures (ok && UnderWay(i, j)) || (!ok && Missed(i, j))
      ensures chunks == old(chunks) + [d]
    {
      ghost var chunks0 := chunks;
      assert posted[..][j := NONE][j := i] == posted[..][j := i];
      ok := Dispatch(i, j, r, d);
      Land(i, j, ok, chunks0, d);
    }

    /** A refused post is the first failure, if none was noticed before. */
    lemma {:induction false} LostByRefusal(i: nat)
      requires m.slots > 0 && i < |plain.chunks| && |m.calls| == i + 1 && Granted(m, i)
      requires taken == Collected(i, m.slots) && Clear(m, taken)
      ensures if m.postOk(i) then Granted(m, i + 1) else ReadLost(m, plain, |m.calls|, taken)
    {
      if !m.postOk(i) { assert ReadStops(m, plain, i, |m.calls|, taken); }
    }

    /** The ring had no room for chunk `i`. */
    method PostRefused(i: nat, j: nat, transfer: nat)
      requires Missed(i, j) && m.calls <= plain.calls && chunks <= plain.chunks
      modifies this`ofs, this`exitResult, this`errnoBak, this`dataErr, posted
      ensures Stopped() && dataErr
    {
      Spoil();
      ofs := ofs + transfer;
      posted[j] := NONE;
      assert posted[..] == Serials(m.cargo);
    }

    /** Chunk `i`, with `r` of its `transfer` bytes, is on its way. */
    method Posted(i: nat, j: nat, transfer: nat, r: nat) returns (go: bool)
      requires UnderWay(i, j) && m.errno == errno0
      requires Agrees(ofs, m.calls, chunks, transfer, r) && r <= transfer
      modifies this`ofs, posted
      ensures (go && Going() && b == i + 1) || (!go && Stopped())
    {
      ofs := ofs + r;
      posted[j] := i;
      assert posted[..] == Serials(m.cargo);
      go := transfer <= r;
    }

    /** The post of chunk `i`, which got `r` of its `transfer` bytes. */
    method Enqueue(i: nat, j: nat, transfer: nat, r: nat, ghost d: seq<byte>) returns (go: bool)
      requires Flow() && Account() && Smooth() && Answered(j, d) && i == b && r == |d| <= transfer
      requires posted[..][j := NONE] == Serials(m.cargo) && m.errno == errno0
      requires Agrees(ofs, m.calls, chunks + [d], transfer, r)
      modifies this`chunks, this`b, this`ofs, this`exitResult, this`errnoBak, this`dataErr, posted
      modifies m`cargo, m`log, m`moved, m`posts, m.ve, m.vh
      ensures (go && Going() && b == i + 1) || (!go && Stopped())
    {
      var ok := Ship(i, j, r, d);
      if ok {
        go := Posted(i, j, transfer, r);
      } else {
        PostRefused(i, j, transfer);
        go := false;
      }
    }

    /** One turn of the main loop. */
    method Turn(i: nat) returns (go: bool)
      requires Going() && i == b < Chunks(total, m.chunk)
      modifies this, posted, sizes, m`cargo, m`log, m`moved, m`posts, m`calls, m`errno, m.ve, m.vh, m.mem
      ensures (go && Going() && b == i + 1) || (!go && Stopped())
    {
      var transfer := ChunkSize(total, m.chunk, i);
      var j := Slot(i, m.slots);
      if i >= m.slots {
        go := Reuse(i, j);
        if !go { return; }
      } else {
        Push(Serials(m.cargo), m.slots, a, b);
        assert posted[..][j := NONE] == Serials(m.cargo);
      }
      go := Issue(i, j, transfer);
    }

    /** The slot of chunk `i` is taken: collect what it brings first. */
    method Reuse(i: nat, j: nat) returns (go: bool)
      requires Going() && i == b < Chunks(total, m.chunk) && i >= m.slots && j == Slot(i, m.slots)
      modifies this`exitResult, this`errnoBak, this`dataErr, this`buf, this`next, this`done, this`a, this`taken
      modifies posted, m`cargo, m`log, m`moved, m.ve, m.vh, m.mem
      ensures (go && Ready(j)) || (!go && Stopped())
    {
      NextSlot(a, m.slots);
      ReadGrows(m.reader, total, m.chunk, b, ofs, m.calls, chunks);
      Collect(j);
      if dataErr {
        posted[j] := NONE;
        assert posted[..] == Serials(m.cargo);
        return false;
      }
      return true;
    }

    /** The main loop over the chunks. */
    method MainLoop()
      requires Going() && b == 0
      modifies this, posted, sizes, m`cargo, m`log, m`moved, m`posts, m`calls, m`errno, m.ve, m.vh, m.mem
      ensures Stopped()
    {
      var readNum := Chunks(total, m.chunk);
      var i := 0;
      while i < readNum
        invariant i <= readNum && Going() && b == i
      {
        var go := Turn(i);
        if !go { return; }
        i := i + 1;
      }
    }

    /** What the drain has before it at its `k`-th slot. */
    ghost predicate Draining(a0: nat, k: nat)
      reads this, m`cargo, m`log, m`moved, m`calls, m`errno, m.ve, m.vh, m.mem, posted, sizes
    {
      && Flow() && Account() && Ended() && Window(posted[..], m.slots, a0, b)
      && a == if a0 + k <= b then a0 + k else b
    }

    /** Collect the oldest chunk in flight when no more calls are made. */
    method CollectLate(j: nat)
      requires Flow() && Account() && Ended() && a < b && j == Slot(a, m.slots)
      modifies this`exitResult, this`errnoBak, this`dataErr, this`buf, this`next, this`done, this`a, this`taken
      modifies m`cargo, m`log, m`moved, m.ve, m.vh, m.mem
      ensures Flow() && Account() && Ended() && a == old(a) + 1
    {
      Collect(j);
    }

    /** The `k`-th slot of the drain. */
    method DrainSlot(minK: nat, k: nat, ghost a0: nat)
      requires Draining(a0, k) && k < m.slots && minK < m.slots && (a0 < b ==> minK == Slot(a0, m.slots))
      modifies this`exitResult, this`errnoBak, this`dataErr, this`buf, this`next, this`done, this`a, this`taken
      modifies m`cargo, m`log, m`moved, m.ve, m.vh, m.mem
      ensures Draining(a0, k + 1)
    {
      DrainOrder(posted[..], m.slots, a0, b, minK, k);
      assert posted[Slot(minK + k, m.slots)] == posted[..][Slot(minK + k, m.slots)];
      var i := posted[Slot(minK + k, m.slots)];
      if i == NONE { return; }
      var j := Slot(i, m.slots);
      CollectLate(j);
    }

    /** The drain: whatever is still in flight is waited for, oldest first. */
    method Drain()
      requires Stopped()
      modifies this`exitResult, this`errnoBak, this`dataErr, this`buf, this`next, this`done, this`a, this`taken
      modifies m`cargo, m`log, m`moved, m.ve, m.vh, m.mem
      ensures Flow() && Account() && Ended() && a == b
    {
      ghost var a0 := a;
      var minK := FindMinPosted(posted, a, b);
      var k := 0;
      while k < m.slots
        invariant k <= m.slots && Draining(a0, k)
      {
        DrainSlot(minK, k, a0);
        k := k + 1;
      }
    }

    /** The whole call, once the request has been prepared. */
    method Execute() returns (result: int)
      requires Going() && b == 0 && plain == Read(m.reader, total, m.chunk, ofs0)
      modifies this, posted, sizes, m`cargo, m`log, m`moved, m`posts, m`calls, m`errno, m.ve, m.vh, m.mem
      ensures m.Valid() && forall j :: 0 <= j < m.slots ==> m.cargo[j].None?
      ensures ReadPromise(m, iov, total, ofs0, mem0, errno0, m.mem[..], m.errno, m.calls, result)
    {
      MainLoop();
      Drain();
      NothingInFlight(m.cargo, m.slots, a);
      Settle();
      if 0 != errnoBak {
        m.errno := errnoBak;
      }
      result := exitResult;
    }

    /** The promise, but for `errno`, which is about to be restored. */
    lemma {:induction false} Settle()
      requires Flow() && Account() && Ended() && a == b
      requires plain == Read(m.reader, total, m.chunk, ofs0)
      ensures ReadPromise(m, iov, total, ofs0, mem0, errno0, m.mem[..],
                          if errnoBak != 0 then errnoBak else m.errno, m.calls, exitResult)
    {
      ReadBound(m.reader, total, m.chunk, 0, ofs0, [], []);
      if dataErr {
        assert chunks[..taken] == plain.chunks[..taken];
        FlattenTake(plain.chunks, taken);
        SomeFirstFault(m, |plain.chunks|);
        assert Laid(iov, mem0, m.mem[..], plain.chunks, taken);
      } else {
        assert chunks[..taken] == chunks;
        assert !Faulty(m, |plain.chunks|);
      }
    }
  }

  /** Memory is what it was, with the first `k` chunks laid over the user's buffers. */
  ghost predicate Laid(iov: seq<Iovec>, mem0: seq<byte>, mem: seq<byte>, chunks: seq<seq<byte>>, k: nat) {
    && k <= |chunks| && Within(iov, |mem0|) && |Flatten(chunks[..k])| <= Total(iov)
    && mem == Scatter(mem0, iov, 0, Flatten(chunks[..k]))
  }

  /** With `f` the first failure: an exception is met when the slot is needed again, or at the end,
      and all chunks before it have been delivered; a refused post ends the call at once, with those
      chunks delivered that had to be collected before. */
  ghost predicate ReadStops(m: Machine, plain: ReadRun, f: nat, made: nat, k: nat) {
    && FirstFault(m, |plain.chunks|, f)
    && made == (if m.postOk(f) then Min(|plain.calls|, f + m.slots) else f + 1)
    && k == (if m.postOk(f) then f else Collected(f, m.slots))
  }

  /** A failure ends the read after `made` calls, with `k` chunks delivered. */
  ghost predicate ReadLost(m: Machine, plain: ReadRun, made: nat, k: nat) {
    exists f :: ReadStops(m, plain, f, made, k)
  }

  /** What a read promises: unless the DMA engine fails one of the chunks the plain loop would
      read, the calls made, the bytes delivered, the value returned and `errno` are those of the
      plain loop; if it does, the call reports EIO, and the first failure alone determines how many
      of the plain loop's calls have been made and how many of its chunks delivered. */
  ghost predicate ReadPromise(m: Machine, iov: seq<Iovec>, total: nat, ofs: int, mem0: seq<byte>, errno0: int,
                              mem: seq<byte>, errno: int, calls: seq<Call>, result: int)
    requires m.chunk > 0
  {
    var plain := Read(m.reader, total, m.chunk, ofs);
    if Faulty(m, |plain.chunks|) then
      && result == -1 && errno == EIO && calls <= plain.calls
      && exists k :: Laid(iov, mem0, mem, plain.chunks, k) && ReadLost(m, plain, |calls|, k)
    else
      && calls == plain.calls && result == ReadResult(plain)
      && errno == ErrnoAfter(plain.error, |calls|, errno0)
      && Laid(iov, mem0, mem, plain.chunks, |plain.chunks|)
  }

  /** A request that has been prepared, from its first system call to its last wait. */
  method Transfer(m: Machine, vectored: bool, iov: seq<Iovec>, total: nat, ofs: int) returns (result: int)
    requires m.Valid() && m.calls == [] && m.posts == 0 && forall j :: 0 <= j < m.slots ==> m.cargo[j].None?
    requires Total(iov) == total && (!vectored ==> |iov| == 1) && Within(iov, m.mem.Length)
    modifies m`cargo, m`log, m`moved, m`posts, m`calls, m`errno, m.ve, m.vh, m.mem
    ensures m.Valid() && forall j :: 0 <= j < m.slots ==> m.cargo[j].None?
    ensures ReadPromise(m, iov, total, ofs, old(m.mem[..]), old(m.errno), m.mem[..], m.errno, m.calls, result)
  {
    var job := new ReadJob(m, vectored, iov, total, ofs);
    result := job.Execute();
  }

  /** The same into one buffer. */
  method TransferFlat(m: Machine, base: nat, count: nat, ofs: int) returns (result: int)
    requires m.Valid() && m.calls == [] && m.posts == 0 && forall j :: 0 <= j < m.slots ==> m.cargo[j].None?
    requires base + count <= m.mem.Length
    modifies m`cargo, m`log, m`moved, m`posts, m`calls, m`errno, m.ve, m.vh, m.mem
    ensures m.Valid() && forall j :: 0 <= j < m.slots ==> m.cargo[j].None?
    ensures ReadPromise(m, [Iovec(base, count)], count, ofs, old(m.mem[..]), old(m.errno),
                        m.mem[..], m.errno, m.calls, result)
  {
    var iov := [Iovec(base, count)];
    assert Total(iov) == Prefix(iov, 0) + count;
    result := Transfer(m, false, iov, count, ofs);
  }

  /** `ve_accelerated_io_read_pread`.  `direct` is what the ordinary system call would return. */
  method ReadPread(th: Thread, list: Registry, plain: bool, setup: Setup,
                   m: Machine, buf: Option<nat>, count: nat, ofs: int, direct: int)
    returns (result: int, unhook: bool)
    requires list.Valid() && th.Linked(list)
    requires m.Valid() && m.calls == [] && m.posts == 0 && forall j :: 0 <= j < m.slots ==> m.cargo[j].None?
    requires buf.Some? ==> buf.value + count <= m.mem.Length
    modifies th, list`ledger, list.Spine()
    modifies m`cargo, m`log, m`moved, m`posts, m`calls, m`errno, m.ve, m.vh, m.mem
    ensures m.Valid() && forall j :: 0 <= j < m.slots ==> m.cargo[j].None?
    ensures list.Valid() && th.Linked(list) && th.using == old(th.using)
    ensures unhook <==> count != 0 && buf.Some? && old(th.Verdict(plain, setup)) == Disabled
    ensures count == 0 || (buf.Some? && old(th.Verdict(plain, setup)) != Prepared) ==>
              result == direct && m.mem[..] == old(m.mem[..]) && m.calls == [] && m.errno == old(m.errno)
    ensures count != 0 && buf.None? ==>
              result == -1 && m.errno == EFAULT == 14 && m.mem[..] == old(m.mem[..]) && m.calls == []
    ensures count != 0 && buf.Some? && old(th.Verdict(plain, setup)) == Prepared ==>
              ReadPromise(m, [Iovec(buf.value, count)], count, ofs, old(m.mem[..]), old(m.errno),
                          m.mem[..], m.errno, m.calls, result)
  {
    unhook := false;
    if 0 == count {
      return direct, false;
    }
    if buf.None? {
      m.errno := EFAULT;
      return -1, false;
    }
    var pre := th.Prepare(list, plain, setup);
    if pre != Prepared {
      return direct, pre == Disabled;
    }
    result := TransferFlat(m, buf.value, count, ofs);
    th.Finish();
  }

  /** `ve_accelerated_io_readv_preadv`. */
  method ReadvPreadv(th: Thread, list: Registry, plain: bool, setup: Setup,
                   m: Machine, iov: Option<seq<Iovec>>, count: nat, ofs: int, direct: int)
    returns (result: int, unhook: bool)
    requires list.Valid() && th.Linked(list)
    requires m.Valid() && m.calls == [] && m.posts == 0 && forall j :: 0 <= j < m.slots ==> m.cargo[j].None?
    requires iov.Some? ==> |iov.value| == count && Within(iov.value, m.mem.Length)
    modifies th, list`ledger, list.Spine()
    modifies m`cargo, m`log, m`moved, m`posts, m`calls, m`errno, m.ve, m.vh, m.mem
    ensures m.Valid() && forall j :: 0 <= j < m.slots ==> m.cargo[j].None?
    ensures list.Valid() && th.Linked(list) && th.using == old(th.using)
    ensures unhook <==> count != 0 && iov.Some? && old(th.Verdict(plain, setup)) == Disabled
    ensures count == 0 || (iov.Some? && old(th.Verdict(plain, setup)) != Prepared) ==>
              result == direct && m.mem[..] == old(m.mem[..]) && m.calls == [] && m.errno == old(m.errno)
    ensures count != 0 && iov.None? ==>
              result == -1 && m.errno == EFAULT == 14 && m.mem[..] == old(m.mem[..]) && m.calls == []
    ensures count != 0 && iov.Some? && old(th.Verdict(plain, setup)) == Prepared ==>
              ReadPromise(m, iov.value, Total(iov.value), ofs, old(m.mem[..]), old(m.errno),
                          m.mem[..], m.errno, m.calls, result)
  {
    unhook := false;
    if 0 == count {
      return direct, false;
    }
    if iov.None? {
      m.errno := EFAULT;
      return -1, false;
    }
    var pre := th.Prepare(list, plain, setup);
    if pre != Prepared {
      return direct, pre == Disabled;
    }
    var total := TotalSize(iov.value);
    result := Transfer(m, true, iov.value, total, ofs);
    th.Finish();
  }

  /** Buffers that add up to nothing cause no system call: the call returns 0 and changes nothing. */
  lemma {:induction false} NothingToRead(m: Machine, iov: seq<Iovec>, ofs: int, mem0: seq<byte>, errno0: int,
                      mem: seq<byte>, errno: int, calls: seq<Call>, result: int)
    requires m.chunk > 0 && Total(iov) == 0
    requires ReadPromise(m, iov, 0, ofs, mem0, errno0, mem, errno, calls, result)
    ensures result == 0 && calls == [] && mem == mem0 && errno == errno0
  {
  }

  /** A result that is not -1 is the number of bytes the calls obtained, and exactly these bytes lie
      at the front of the user's buffers; the calls follow one another through the file. */
  lemma {:induction false} ResultIsDelivered(m: Machine, iov: seq<Iovec>, ofs: int, mem0: seq<byte>, errno0: int,
                          mem: seq<byte>, errno: int, calls: seq<Call>, result: int)
    requires m.chunk > 0
    requires ReadPromise(m, iov, Total(iov), ofs, mem0, errno0, mem, errno, calls, result)
    ensures Contiguous(calls, ofs) && -1 <= result <= Total(iov)
    ensures result >= 0 ==>
              && result == Moved(calls) && Within(iov, |mem0|)
              && var data := Flatten(Read(m.reader, Total(iov), m.chunk, ofs).chunks);
                 |data| == result && mem == Scatter(mem0, iov, 0, data)
  {
    var plain := Read(m.reader, Total(iov), m.chunk, ofs);
    ReadContiguous(m.reader, Total(iov), m.chunk, ofs, 0, ofs, [], []);
    ContiguousPrefix(calls, plain.calls, ofs);
    ReadBound(m.reader, Total(iov), m.chunk, 0, ofs, [], []);
    ReadMoved(m.reader, Total(iov), m.chunk, 0, ofs, [], []);
    assert plain.chunks[..|plain.chunks|] == plain.chunks;
  }

  /** For read and pread: the bytes obtained are at the front of the buffer, and no other byte of
      memory has changed, even if the call failed. */
  lemma {:induction false} FlatRead(m: Machine, base: nat, count: nat, ofs: int, mem0: seq<byte>, errno0: int,
                 mem: seq<byte>, errno: int, calls: seq<Call>, result: int)
    requires m.chunk > 0 && base + count <= |mem0|
    requires ReadPromise(m, [Iovec(base, count)], count, ofs, mem0, errno0, mem, errno, calls, result)
    ensures exists data: seq<byte> ::
              && data <= Flatten(Read(m.reader, count, m.chunk, ofs).chunks) && |data| <= count
              && (result >= 0 ==> data == Flatten(Read(m.reader, count, m.chunk, ofs).chunks) && |data| == result)
              && mem == Blit(mem0, base, data)
  {
    var iov := [Iovec(base, count)];
    ghost var chunks := Read(m.reader, count, m.chunk, ofs).chunks;
    assert Total(iov) == Prefix(iov, 0) + count;
    assert chunks[..|chunks|] == chunks;
    var k := LaidAtAll(m, iov, ofs, mem0, errno0, mem, errno, calls, result);
    FlattenTake(chunks, k);
    ScatterOne(mem0, base, count, Flatten(chunks[..k]));
  }

  /** Whatever happens, whole chunks from the front of the data have been delivered. */
  lemma {:induction false} LaidAtAll(m: Machine, iov: seq<Iovec>, ofs: int, mem0: seq<byte>, errno0: int,
                  mem: seq<byte>, errno: int, calls: seq<Call>, result: int) returns (k: nat)
    requires m.chunk > 0
    requires ReadPromise(m, iov, Total(iov), ofs, mem0, errno0, mem, errno, calls, result)
    ensures var chunks := Read(m.reader, Total(iov), m.chunk, ofs).chunks;
            Laid(iov, mem0, mem, chunks, k) && (result >= 0 ==> k == |chunks|)
  {
    var chunks := Read(m.reader, Total(iov), m.chunk, ofs).chunks;
    if Faulty(m, |chunks|) {
      k :| Laid(iov, mem0, mem, chunks, k);
    } else {
      k := |chunks|;
    }
  }

  /** What a caller is told when the engine fails nothing: -1 exactly if the very first system call
      failed, with that call's error code and memory untouched; else a count, with `errno` cleared
      if a later call failed, and as it was if none did.  Every call is answered by the system. */
  lemma {:induction false} TellsTheCaller(m: Machine, iov: seq<Iovec>, ofs: int, mem0: seq<byte>, errno0: int,
                          mem: seq<byte>, errno: int, calls: seq<Call>, result: int)
    requires m.chunk > 0 && Total(iov) > 0
    requires ReadPromise(m, iov, Total(iov), ofs, mem0, errno0, mem, errno, calls, result)
    requires !Faulty(m, |Read(m.reader, Total(iov), m.chunk, ofs).chunks|)
    ensures calls != [] && (result == -1 <==> m.reader(0).Fail?)
    ensures m.reader(0).Fail? ==> result == -1 && errno == m.reader(0).errno && |calls| == 1 && mem == mem0
    ensures m.reader(0).Got? ==> result >= 0 && errno == if calls[|calls| - 1].ret == -1 then 0 else errno0
    ensures forall k :: 0 <= k < |calls| ==> ReadCall(m.reader, Total(iov), m.chunk, calls, k)
  {
    var plain := Read(m.reader, Total(iov), m.chunk, ofs);
    ReadAnswers(m.reader, Total(iov), m.chunk, 0, ofs, [], []);
    assert ReadCall(m.reader, Total(iov), m.chunk, calls, 0);
    assert plain.chunks[..|plain.chunks|] == plain.chunks;
  }

  /** A read whose engine fails: what it returns, the calls it has made and the chunks it has
      delivered follow from the first failure. */
  lemma {:induction false} FirstFaultDecides(m: Machine, iov: seq<Iovec>, ofs: int, mem0: seq<byte>, errno0: int,
                          mem: seq<byte>, errno: int, calls: seq<Call>, result: int, f: nat)
    requires m.chunk > 0 && m.slots > 0
    requires ReadPromise(m, iov, Total(iov), ofs, mem0, errno0, mem, errno, calls, result)
    requires FirstFault(m, |Read(m.reader, Total(iov), m.chunk, ofs).chunks|, f)
    ensures var plain := Read(m.reader, Total(iov), m.chunk, ofs);
            && result == -1 && errno == EIO == 5 && calls <= plain.calls
            && |calls| == (if m.postOk(f) then Min(|plain.calls|, f + m.slots) else f + 1)
            && Laid(iov, mem0, mem, plain.chunks, if m.postOk(f) then f else Collected(f, m.slots))
  {
    var plain := Read(m.reader, Total(iov), m.chunk, ofs);
    SomeFirstFault(m, |plain.chunks|);
    var k :| Laid(iov, mem0, mem, plain.chunks, k) && ReadLost(m, plain, |calls|, k);
    var g :| ReadStops(m, plain, g, |calls|, k);
    OneFirstFault(m, |plain.chunks|, f, g);
  }

  /** However the DMAs and the waits are interleaved, the outcome of a read is the same: it depends on
      the answers of the system and of the engine alone. */
  lemma {:induction false} ScheduleDoesNotMatter(m: Machine, iov: seq<Iovec>, ofs: int, mem0: seq<byte>, errno0: int,
                          mem: seq<byte>, errno: int, calls: seq<Call>, result: int,
                          mem': seq<byte>, errno': int, calls': seq<Call>, result': int)
    requires m.chunk > 0 && m.slots > 0
    requires ReadPromise(m, iov, Total(iov), ofs, mem0, errno0, mem, errno, calls, result)
    requires ReadPromise(m, iov, Total(iov), ofs, mem0, errno0, mem', errno', calls', result')
    ensures mem == mem' && errno == errno' && calls == calls' && result == result'
  {
    var plain := Read(m.reader, Total(iov), m.chunk, ofs);
    SomeFirstFault(m, |plain.chunks|);
    if Faulty(m, |plain.chunks|) {
      var f :| FirstFault(m, |plain.chunks|, f);
      FirstFaultDecides(m, iov, ofs, mem0, errno0, mem, errno, calls, result, f);
      FirstFaultDecides(m, iov, ofs, mem0, errno0, mem', errno', calls', result', f);
      assert calls == plain.calls[..|calls|] == calls';
    }
  }

  /** The plain loop gets two chunks at least. */
  lemma {:induction false} TwoChunks(kernel: nat -> Reply, total: nat, chunk: nat, ofs: int,
                                     first: seq<byte>, second: seq<byte>)
    requires 0 < chunk < total && kernel(0) == Got(first) && |first| == chunk
    requires kernel(1) == Got(second) && second != []
    ensures var plain := Read(kernel, total, chunk, ofs); |plain.chunks| >= 2 && plain.chunks[0] == first
  {
    assert Chunks(total, chunk) >= 2 && ChunkSize(total, chunk, 0) == chunk;
    var calls := [Call(chunk, ofs, chunk)];
    assert Read(kernel, total, chunk, ofs) == SeqRead(kernel, total, chunk, 1, ofs + chunk, [] + calls, [] + [first]);
    var size := ChunkSize(total, chunk, 1);
    var d := Clip(kernel(1), size).data;
    var chunks := [first] + [d];
    ReadGrows(kernel, total, chunk, 2, ofs + chunk + |d|, calls + [Call(size, ofs + chunk, |d|)], chunks);
    assert chunks[0] == first && |chunks| == 2;
    assert [] + calls == calls && [] + [first] == [first];
  }

  /** A read that returns -1 may have delivered data: an exception of the second chunk leaves the
      first one in the user's buffers. */
  lemma {:induction false} FailureAfterDelivery(m: Machine, iov: seq<Iovec>, ofs: int, mem0: seq<byte>, errno0: int,
                          mem: seq<byte>, errno: int, calls: seq<Call>, result: int,
                          first: seq<byte>, second: seq<byte>)
    requires m.chunk > 0 && m.slots > 0 && Total(iov) > m.chunk
    requires ReadPromise(m, iov, Total(iov), ofs, mem0, errno0, mem, errno, calls, result)
    requires m.reader(0) == Got(first) && |first| == m.chunk && m.reader(1) == Got(second) && second != []
    requires (forall c :: m.postOk(c)) && m.exc(0) == 0 && m.exc(1) == 1
    ensures result == -1 && errno == EIO && Within(iov, |mem0|) && mem == Scatter(mem0, iov, 0, first)
  {
    var plain := Read(m.reader, Total(iov), m.chunk, ofs);
    TwoChunks(m.reader, Total(iov), m.chunk, ofs, first, second);
    assert FirstFault(m, |plain.chunks|, 1);
    FirstFaultDecides(m, iov, ofs, mem0, errno0, mem, errno, calls, result, 1);
    assert plain.chunks[..1] == [first];
    assert Flatten([first]) == first by { FlattenSnoc([], first); }
  }

  /** Reading a regular file without DMA failures delivers exactly the requested range of it. */
  lemma {:induction false} ReadsTheFile(m: Machine, file: seq<byte>, iov: seq<Iovec>, ofs: nat, mem0: seq<byte>,
                                        errno0: int, mem: seq<byte>, errno: int, calls: seq<Call>, result: int)
    requires m.chunk > 0 && m.reader == FileKernel(file, ofs, m.chunk)
    requires forall c :: m.postOk(c) && m.exc(c) == 0
    requires ReadPromise(m, iov, Total(iov), ofs, mem0, errno0, mem, errno, calls, result)
    ensures var data := FileRange(file, ofs, Total(iov));
            && result == |data| <= Total(iov) && Within(iov, |mem0|)
            && mem == Scatter(mem0, iov, 0, data)
            && (forall q :: 0 <= q < result ==> ofs + q < |file| && data[q] == file[ofs + q])
            && (result < Total(iov) ==> ofs + result >= |file|)
  {
    var plain := Read(m.reader, Total(iov), m.chunk, ofs);
    ReadOfFile(file, ofs, Total(iov), m.chunk);
    assert plain.chunks[..|plain.chunks|] == plain.chunks;
  }
}
