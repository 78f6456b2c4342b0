/** Accelerated write, pwrite, writev and pwritev: the same pipeline the other way round. */
module IoWrite {
  import opened Bytes
  import opened Iovec
  import opened IoSpec
  import opened IoMachine
  import opened IoCursor
  import opened SlotWindow
  import opened IoSlots
  import opened ResourceList

  /** The requests a write posts if none fails: the chunks it writes, and what the slots hold
      behind the first chunk that is not written whole. */
  function Attempts(run: WriteRun, total: nat, chunk: nat, slots: nat): nat
    requires chunk > 0
  {
    Min(Chunks(total, chunk), run.full + slots)
  }

  /** The local variables of one call of the write functions. */
  class WriteJob {
    const m: Machine
    const vectored: bool
    const iov: seq<Iovec>
    const total: nat
    const posted: array<int>
    const sizes: array<int>
    var ofs: int
    var exitResult: int
    var errnoBak: int
    var dataErr: bool
    var buf: nat
    var next: nat
    var done: nat
    ghost const ofs0: int
    ghost const errno0: int
    /** The user's data, and the plain loop on the same system. */
    ghost const stream: seq<byte>
    ghost const plain: WriteRun
    /** The chunks handed to the engine so far; `a..b` are in flight.  `faulted`: it failed one. */
    ghost var pieces: seq<seq<byte>>
    ghost var a: nat
    ghost var b: nat
    ghost var faulted: bool

    ghost predicate Static() {
      && posted.Length == sizes.Length == m.slots && posted != sizes && m.chunk > 0
      && Total(iov) == total && (!vectored ==> |iov| == 1)
      && Within(iov, m.mem.Length) && |stream| == total
    }

    ghost predicate Cursor(p: nat)
      requires Static()
      reads this`buf, this`next, this`done
    {
      if vectored then CursorAt(iov, next, done, p) else buf == iov[0].base + p
    }

    ghost predicate UserData()
      requires Static()
      reads m.mem
    {
      stream == Gather(m.mem[..], iov, |iov|)
    }

    /** These slots carry the pieces `a` to `b - 1` of the user's data. */
    ghost predicate Carrying(cargo: seq<Option<Cargo>>, sz: seq<int>, ps: seq<seq<byte>>, a: nat, b: nat)
      requires Static()
    {
      && Window(Serials(cargo), m.slots, a, b)
      && Carried(cargo, sz, ps, m.slots, a, b, false)
      && |ps| <= Chunks(total, m.chunk)
      && (forall c :: 0 <= c < |ps| ==> |ps[c]| == ChunkSize(total, m.chunk, c))
      && Flatten(ps) <= stream
    }

    ghost predicate InSlots()
      requires Static()
      reads this`pieces, this`a, this`b, m`cargo, m`log, sizes
    {
      Carrying(m.cargo, sizes[..], pieces, a, b)
    }

    /** The file has taken a prefix of the user's data, as long as the calls say. */
    ghost predicate FilePrefix()
      reads m`file, m`calls
    {
      m.file <= stream && |m.file| == Moved(m.calls)
    }

    ghost predicate Flow()
      reads this`pieces, this`a, this`b, m`cargo, m`log, m`moved, m`file, m`calls, m.ve, m.vh, m.mem, sizes
    {
      Static() && m.Valid() && InSlots() && UserData() && FilePrefix()
    }

    /** What the engine has done to the requests so far. */
    ghost predicate Account()
      requires Static()
      reads this`pieces, this`a, this`b, this`faulted, this`dataErr, this`exitResult, this`errnoBak, m`calls
    {
      && b <= |pieces| <= b + 1 && |pieces| <= Attempts(plain, total, m.chunk, m.slots)
      && Granted(m, b)
      && if faulted then Spoiled() else |pieces| == b && Clear(m, a)
    }

    /** An I/O error will be reported. */
    ghost predicate Spoiled()
      requires m.chunk > 0
      reads this`dataErr, this`exitResult, this`errnoBak, m`calls
    {
      dataErr && exitResult == -1 && errnoBak == EIO && m.calls <= plain.calls && Lost()
    }

    /** A failure has ended the calls. */
    ghost predicate Lost()
      requires m.chunk > 0
      reads m`calls
    {
      WriteLost(m, plain, Attempts(plain, total, m.chunk, m.slots), |m.calls|)
    }

    /** The plain loop comes by chunk `k` where this call is. */
    ghost predicate Passes(k: nat)
      requires m.chunk > 0
      reads this`ofs, m`calls, m`file
    {
      && k <= Chunks(total, m.chunk) && |m.calls| == k
      && plain == SeqWrite(m.writer, total, m.chunk, k, ofs, m.calls, |m.file|)
    }

    /** The first `k` chunks have been written, all of them whole, with nothing gone wrong. */
    ghost predicate OnTrack(k: nat)
      requires m.chunk > 0
      reads this`ofs, this`pieces, this`exitResult, this`errnoBak, m`calls, m`file, m`errno
    {
      && k <= |pieces| && Passes(k) && m.file == Flatten(pieces[..k])
      && exitResult == |m.file| && errnoBak == 0 && m.errno == errno0
    }

    /** The call has done what the plain loop does. */
    ghost predicate Ended()
      reads this`exitResult, this`errnoBak, m`calls, m`file, m`errno
    {
      && m.calls == plain.calls && |m.file| == plain.accepted && exitResult == WriteResult(plain)
      && (if errnoBak != 0 then errnoBak else m.errno) == ErrnoAfter(plain.error, |m.calls|, errno0)
    }

    ghost predicate Progress()
      requires m.chunk > 0
      reads this`ofs, this`pieces, this`a, this`exitResult, this`errnoBak, this`dataErr, this`faulted
      reads m`calls, m`file, m`errno
    {
      !faulted ==> if dataErr then Ended() && |m.calls| <= a else OnTrack(a)
    }

    ghost predicate Running()
      reads this, m`cargo, m`log, m`moved, m`file, m`calls, m`posts, m`errno, m.ve, m.vh, m.mem, posted, sizes
    {
      && Flow() && Account() && !faulted && !dataErr && OnTrack(a)
      && |pieces| == b == m.posts
      && Cursor(|Flatten(pieces)|)
      && (b < Chunks(total, m.chunk) ==> |Flatten(pieces)| == Offset(m.chunk, b))
    }

    /** At the head of the main loop, about to handle chunk `b`. */
    ghost predicate Going()
      reads this, m`cargo, m`log, m`moved, m`file, m`calls, m`posts, m`errno, m.ve, m.vh, m.mem, posted, sizes
    {
      && Running() && posted[..] == Serials(m.cargo)
      && a == if b < m.slots then 0 else b - m.slots
    }

    /** Slot `j` is free for chunk `b`. */
    ghost predicate Ready(j: nat)
      reads this, m`cargo, m`log, m`moved, m`file, m`calls, m`posts, m`errno, m.ve, m.vh, m.mem, posted, sizes
    {
      && Running() && b < Chunks(total, m.chunk) && j == Slot(b, m.slots) && j < m.slots
      && a == (if b < m.slots then 0 else b - m.slots + 1)
      && posted[..][j := NONE] == Serials(m.cargo)
    }

    /** After the main loop. */
    ghost predicate Stopped()
      reads this, m`cargo, m`log, m`moved, m`file, m`calls, m`errno, m.ve, m.vh, m.mem, posted, sizes
    {
      && Flow() && Account() && Progress() && Window(posted[..], m.slots, a, b)
      && (!faulted ==> b == Attempts(plain, total, m.chunk, m.slots))
    }

    constructor (m: Machine, vectored: bool, iov: seq<Iovec>, total: nat, ofs: int)
      requires m.Valid() && m.calls == [] && m.posts == 0 && m.file == []
      requires forall j :: 0 <= j < m.slots ==> m.cargo[j].None?
      requires Total(iov) == total && (!vectored ==> |iov| == 1) && Within(iov, m.mem.Length)
      ensures this.m == m && this.vectored == vectored && this.iov == iov && this.total == total
      ensures ofs0 == ofs && errno0 == m.errno && stream == Gather(m.mem[..], iov, |iov|)
      ensures plain == Write(m.writer, total, m.chunk, ofs)
      ensures fresh(posted) && fresh(sizes) && Going() && b == 0
    {
      this.m, this.vectored, this.iov, this.total, this.ofs := m, vectored, iov, total, ofs;
      posted, sizes := new int[m.slots](_ => NONE), new int[m.slots](_ => 0);
      exitResult, errnoBak, dataErr, next, done := 0, 0, false, 0, 0;
      buf := if |iov| > 0 then iov[0].base else 0;
      ofs0, errno0 := ofs, m.errno;
      stream, plain := Gather(m.mem[..], iov, |iov|), Write(m.writer, total, m.chunk, ofs);
      pieces, a, b, faulted := [], 0, 0, false;
      new;
      Empty(Serials(m.cargo), m.slots, 0);
      assert posted[..] == Serials(m.cargo);
      assert pieces[..0] == [];
    }

    // ---- one chunk out of its slot ---------------------------------------------------------

    /** A request has failed, and that is still to be entered. */
    ghost predicate Broken()
      requires m.chunk > 0
      reads this`pieces, this`b, m`calls
    {
      && b <= |pieces| <= b + 1 && |pieces| <= Attempts(plain, total, m.chunk, m.slots) && Granted(m, b)
      && m.calls <= plain.calls && Lost()
    }

    /** The error path of a failed request. */
    method Spoil()
      requires Static() && Broken()
      modifies this`exitResult, this`errnoBak, this`dataErr, this`faulted
      ensures faulted && dataErr && Account() && Progress()
    {
      exitResult := -1;
      errnoBak := EIO;
      dataErr := true;
      faulted := true;
    }

    /** Wait for the oldest chunk in flight. */
    method Await(j: nat) returns (dmaRet: nat)
      requires Static() && m.Valid() && InSlots() && a < b && j == Slot(a, m.slots)
      modifies this`a, m`cargo, m`log, m`moved, m.ve, m.vh
      ensures m.Valid() && InSlots() && a == old(a) + 1 && m.cargo[j].None?
      ensures Serials(m.cargo) == old(Serials(m.cargo))[j := NONE]
      ensures dmaRet == m.exc(old(a)) && sizes[j] == |pieces[old(a)]| <= m.chunk
      ensures dmaRet == 0 ==> m.VhPart(j)[..sizes[j]] == pieces[old(a)]
    {
      assert Brings(m.cargo, sizes[..], pieces, m.slots, a, false);
      Pop(Serials(m.cargo), m.slots, a, b);
      CarriedPop(m.cargo, sizes[..], pieces, m.slots, a, b, false);
      SerialsUpdate(m.cargo, j, None);
      ghost var x := m.cargo[j].value;
      assert Serials(m.cargo)[j] == x.serial == a;
      dmaRet := m.Wait(j);
      a := a + 1;
      if dmaRet == 0 {
        assert m.VhPart(j)[..sizes[j]] == m.VhPart(j)[..|x.sent|][..sizes[j]];
      }
    }

    /** The plain loop does the same call for chunk `c` as this one. */
    lemma {:induction false} PlainStep(c: nat, r: int)
      requires Static() && Passes(c) && c < Chunks(total, m.chunk)
      requires match ClipCount(m.writer(c), ChunkSize(total, m.chunk, c))
               case Refuse(e) => r == -1
               case Accept(n) => r == n
      ensures var size := ChunkSize(total, m.chunk, c);
              var calls' := m.calls + [Call(size, ofs, r)];
              match ClipCount(m.writer(c), size)
              case Refuse(e) => plain == WriteRun(calls', |m.file|, c, Some(e))
              case Accept(n) =>
                if n < size then plain == WriteRun(calls', |m.file| + n, c, None)
                else plain == SeqWrite(m.writer, total, m.chunk, c + 1, ofs + n, calls', |m.file| + n)
    {
    }

    /** Writing part of chunk `c` extends the prefix of the user's data that the file has. */
    lemma {:induction false} FileGrows(c: nat, r: nat)
      requires Static() && InSlots() && c < |pieces| && m.file == Flatten(pieces[..c]) && r <= |pieces[c]|
      ensures m.file + pieces[c][..r] <= stream
      ensures r == |pieces[c]| ==> m.file + pieces[c][..r] == Flatten(pieces[..c + 1])
    {
      FlattenUpTo(pieces, c);
      FlattenTake(pieces, c + 1);
      var upto := Flatten(pieces[..c + 1]);
      assert m.file + pieces[c][..r] == upto[..|m.file| + r];
      assert pieces[c][..|pieces[c]|] == pieces[c];
    }

    /** The answer `r` to the write call of chunk `c`, made when the file had `before` bytes, leaves
        the file with a prefix of the user's data, and the plain loop where this call is. */
    ghost predicate Answered(c: nat, size: nat, before: nat, r: int)
      requires m.chunk > 0
      reads this`ofs, this`pieces, m`calls, m`file, m`errno
    {
      && FilePrefix() && |m.calls| == c + 1 && c < |pieces|
      && if r == -1 then
           |m.file| == before && plain.error == Some(m.errno) && plain == WriteRun(m.calls, before, c, plain.error)
         else
           && 0 <= r <= size && |m.file| == before + r
           && if r < size then plain == WriteRun(m.calls, |m.file|, c, None)
              else m.file == Flatten(pieces[..c + 1])
                   && plain == SeqWrite(m.writer, total, m.chunk, c + 1, ofs + r, m.calls, |m.file|)
    }

    /** Where the call will be after the write call of chunk `c`. */
    lemma {:induction false} Foreseen(c: nat, size: nat)
      requires Static() && InSlots() && FilePrefix() && Passes(c) && c < |pieces|
      requires m.file == Flatten(pieces[..c]) && size == |pieces[c]|
      ensures var v := ClipCount(m.writer(c), size);
              var calls' := m.calls + [Call(size, ofs, if v.Refuse? then -1 else v.count)];
              match v
              case Refuse(e) => Moved(calls') == |m.file| && plain == WriteRun(calls', |m.file|, c, Some(e))
              case Accept(n) =>
                var file' := m.file + pieces[c][..n];
                && n <= size && Moved(calls') == |file'| && file' <= stream
                && if n < size then plain == WriteRun(calls', |file'|, c, None)
                   else file' == Flatten(pieces[..c + 1])
                        && plain == SeqWrite(m.writer, total, m.chunk, c + 1, ofs + n, calls', |file'|)
    {
      var v := ClipCount(m.writer(c), size);
      var r := if v.Refuse? then -1 else v.count;
      PlainStep(c, r);
      MovedSnoc(m.calls, Call(size, ofs, r));
      if v.Accept? { FileGrows(c, v.count); }
    }

    /** The write call of chunk `c`, which part `j` of the VH buffer holds. */
    method Hand(j: nat, c: nat, size: nat) returns (r: int)
      requires Static() && m.Valid() && InSlots() && FilePrefix() && Passes(c)
      requires j < m.slots && m.cargo[j].None? && c < |pieces| && m.file == Flatten(pieces[..c])
      requires size == |pieces[c]| && m.VhPart(j)[..size] == pieces[c]
      modifies m`moved, m`calls, m`errno, m`file, m.ve, m.vh
      ensures m.Valid() && -1 <= r <= size && (r >= 0 ==> m.errno == old(m.errno))
      ensures Answered(c, size, old(|m.file|), r)
    {
      Foreseen(c, size);
      ghost var v := ClipCount(m.writer(c), size);
      if v.Accept? {
        assert m.VhPart(j)[..v.count] == m.VhPart(j)[..size][..v.count];
      }
      r := m.SysWrite(j, size, ofs);
    }

    /** What follows from the answer `writeInSize` to the write call of chunk `c`. */
    method Digest(c: nat, size: nat, writeInSize: int)
      requires m.chunk > 0 && size > 0 && c < Chunks(total, m.chunk) && !dataErr && errnoBak == 0
      requires -1 <= writeInSize <= size && exitResult >= 0 && Answered(c, size, exitResult, writeInSize)
      requires writeInSize >= 0 ==> m.errno == errno0
      modifies this`ofs, this`exitResult, this`errnoBak, this`dataErr, m`errno
      ensures (dataErr && Ended() && plain.full == c) || (!dataErr && OnTrack(c + 1))
    {
      if -1 == writeInSize {
        if 0 == c {
          errnoBak := m.errno;
          exitResult := writeInSize;
        }
        m.errno := 0;
        dataErr := true;
      } else if 0 == writeInSize {
        dataErr := true;
      } else {
        exitResult := exitResult + writeInSize;
        ofs := ofs + writeInSize;
        if size > writeInSize {
          dataErr := true;
        }
      }
    }

    /** The write call of chunk `c` and what follows from its answer. */
    method Submit(j: nat, c: nat, size: nat)
      requires Static() && m.Valid() && InSlots() && FilePrefix() && !dataErr && OnTrack(c)
      requires j < m.slots && m.cargo[j].None? && c < |pieces|
      requires size == |pieces[c]| && m.VhPart(j)[..size] == pieces[c]
      modifies this`ofs, this`exitResult, this`errnoBak, this`dataErr
      modifies m`moved, m`calls, m`errno, m`file, m.ve, m.vh
      ensures m.Valid() && FilePrefix() && |m.calls| == c + 1
      ensures (dataErr && Ended() && plain.full == c) || (!dataErr && OnTrack(c + 1))
    {
      var writeInSize := Hand(j, c, size);
      Digest(c, size, writeInSize);
    }

    /** All requests before number `k` have been waited for, none has failed. */
    ghost predicate Sound(k: nat)
      requires m.chunk > 0
      reads this`pieces, this`b
    {
      && |pieces| == b <= Attempts(plain, total, m.chunk, m.slots) && Clear(m, k)
      && Granted(m, b)
    }

    /** Chunk `c` has arrived and is to be written. */
    ghost predicate Arrived(j: nat, c: nat, size: nat)
      reads this, m`cargo, m`log, m`moved, m`file, m`calls, m`errno, m.ve, m.vh, sizes
    {
      && Static() && m.Valid() && InSlots() && FilePrefix() && a == c + 1 <= b
      && Sound(a) && !faulted && !dataErr && OnTrack(c)
      && j < m.slots && m.cargo[j].None? && size == |pieces[c]| && m.VhPart(j)[..size] == pieces[c]
    }

    /** It is written, if all goes well. */
    method Pass(j: nat, c: nat, size: nat)
      requires Arrived(j, c, size)
      modifies this`ofs, this`exitResult, this`errnoBak, this`dataErr
      modifies m`moved, m`calls, m`errno, m`file, m.ve, m.vh
      ensures m.Valid() && FilePrefix() && Account() && Progress()
      ensures dataErr ==> plain.full == c
    {
      Submit(j, c, size);
    }

    /** Wait for the oldest chunk in flight: it is lost, or too late, or there. */
    method Receive(j: nat, c: nat, size: nat) returns (dmaRet: nat)
      requires Flow() && Account() && Progress() && a < b && j == Slot(a, m.slots) && c == a && size == sizes[j]
      requires !faulted ==> Min(Attempts(plain, total, m.chunk, m.slots), a + m.slots) <= b
      modifies this`a, m`cargo, m`log, m`moved, m.ve, m.vh
      ensures m.Valid() && InSlots() && a == c + 1 && m.cargo[j].None?
      ensures Serials(m.cargo) == old(Serials(m.cargo))[j := NONE]
      ensures (dmaRet >= 1 && Broken()) || (dmaRet == 0 && dataErr && Account() && Progress())
              || (dmaRet == 0 && Arrived(j, c, size))
    {
      CallsSoFar();
      LostByException();
      dmaRet := Await(j);
    }

    /** Wait for the oldest chunk in flight; an exception spoils the call. */
    method Fetch(j: nat, c: nat, size: nat)
      requires Flow() && Account() && Progress() && a < b && j == Slot(a, m.slots) && c == a && size == sizes[j]
      requires !faulted ==> Min(Attempts(plain, total, m.chunk, m.slots), a + m.slots) <= b
      modifies this`exitResult, this`errnoBak, this`dataErr, this`faulted, this`a
      modifies m`cargo, m`log, m`moved, m.ve, m.vh
      ensures m.Valid() && InSlots() && a == c + 1 && m.cargo[j].None?
      ensures Serials(m.cargo) == old(Serials(m.cargo))[j := NONE]
      ensures (old(faulted) ==> faulted) && (dataErr <==> old(dataErr) || faulted)
      ensures (dataErr && Account() && Progress()) || (!dataErr && Arrived(j, c, size))
    {
      var dmaRet := Receive(j, c, size);
      if dmaRet >= 1 {
        Spoil();
      }
    }

    /** Wait for the oldest chunk in flight and, unless it is too late, write it. */
    method Flush(j: nat, c: nat, size: nat)
      requires Flow() && Account() && Progress() && a < b && j == Slot(a, m.slots) && c == a && size == sizes[j]
      requires !faulted ==> Min(Attempts(plain, total, m.chunk, m.slots), a + m.slots) <= b
      modifies this`ofs, this`exitResult, this`errnoBak, this`dataErr, this`faulted, this`a
      modifies m`cargo, m`log, m`moved, m`calls, m`errno, m`file, m.ve, m.vh
      ensures m.Valid() && InSlots() && FilePrefix() && a == c + 1 && m.cargo[j].None?
      ensures Account() && Progress()
      ensures Serials(m.cargo) == old(Serials(m.cargo))[j := NONE]
      ensures old(faulted) ==> faulted
      ensures old(dataErr) ==> dataErr
      ensures dataErr && !faulted && !old(dataErr) ==> plain.full == c
    {
      Fetch(j, c, size);
      if !dataErr {
        Pass(j, c, size);
      }
    }

    /** An exception of the oldest chunk in flight is the first failure, if none was noticed before. */
    lemma {:induction false} LostByException()
      requires Static() && Account() && Progress() && a < b && m.calls <= plain.calls
      requires !faulted ==> Min(Attempts(plain, total, m.chunk, m.slots), a + m.slots) <= b
      ensures m.exc(a) >= 1 ==> Broken()
      ensures m.exc(a) == 0 && !faulted ==> Clear(m, a + 1)
    {
      if m.exc(a) >= 1 && !faulted {
        assert WriteStops(m, plain, Attempts(plain, total, m.chunk, m.slots), a, |m.calls|);
      }
    }

    /** The calls made are among those of the plain loop. */
    lemma {:induction false} CallsSoFar()
      requires Static() && Account() && Progress()
      ensures m.calls <= plain.calls
    {
      if !faulted && !dataErr {
        WriteGrows(m.writer, total, m.chunk, a, ofs, m.calls, |m.file|);
      }
    }

    // ---- one chunk into its slot -----------------------------------------------------------

    /** The copy from one buffer. */
    method LoadFlat(j: nat, transfer: nat, ghost p: nat)
      requires Static() && m.Valid() && UserData() && j < m.slots && m.cargo[j].None? && 0 < transfer <= m.chunk
      requires !vectored && Cursor(p) && p + transfer <= total
      modifies this`buf, m`moved, m.ve, m.vh
      ensures m.Valid() && Cursor(p + transfer) && m.VePart(j)[..transfer] == stream[p..p + transfer]
    {
      assert Prefix(iov, 1) == Prefix(iov, 0) + iov[0].len;
      GatherRun(m.mem[..], iov, 0, p, transfer);
      m.CopyIn(j, 0, transfer, buf);
      buf := buf + transfer;
    }

    /** Copy the next `transfer` bytes of the user's data to part `j` of the VE buffer. */
    method Load(j: nat, transfer: nat, ghost p: nat) returns (left: nat)
      requires Static() && m.Valid() && UserData() && j < m.slots && m.cargo[j].None? && 0 < transfer <= m.chunk
      requires Cursor(p) && p + transfer <= total
      modifies this`buf, this`next, this`done, m`moved, m.ve, m.vh
      ensures m.Valid() && left == 0 && Cursor(p + transfer)
      ensures m.VePart(j)[..transfer] == stream[p..p + transfer]
    {
      if vectored {
        next, done, left := GatherPart(m, iov, j, transfer, next, done, p);
      } else {
        LoadFlat(j, transfer, p);
        left := 0;
      }
    }

    /** The next piece of the user's data extends the pieces so far. */
    lemma {:induction false} NextPiece(transfer: nat) returns (d: seq<byte>)
      requires Static() && InSlots() && |pieces| < Chunks(total, m.chunk)
      requires transfer == ChunkSize(total, m.chunk, |pieces|) && |Flatten(pieces)| == Offset(m.chunk, |pieces|)
      ensures var p := |Flatten(pieces)|;
              && p + transfer <= total && d == stream[p..p + transfer]
              && Flatten(pieces + [d]) <= stream && |Flatten(pieces + [d])| == p + transfer
      ensures |pieces| + 1 < Chunks(total, m.chunk) ==> |Flatten(pieces + [d])| == Offset(m.chunk, |pieces| + 1)
    {
      var p := |Flatten(pieces)|;
      d := stream[p..p + transfer];
      FlattenSnoc(pieces, d);
      assert stream[..p] + stream[p..p + transfer] == stream[..p + transfer];
    }

    /** What the slots hold if the engine takes chunk `b`, as the cargo `x`, and if it does not. */
    lemma {:induction false} Posting(j: nat, d: seq<byte>, x: Cargo)
      requires Static() && InSlots() && b == |pieces| && j == Slot(b, m.slots) && j < m.slots == |m.cargo|
      requires a <= b < a + m.slots && b < Chunks(total, m.chunk) && |d| == ChunkSize(total, m.chunk, b)
      requires x.serial == b && !x.toVe && |d| <= |x.sent| && x.sent[..|d|] == d && Flatten(pieces + [d]) <= stream
      ensures m.cargo[j].None? && Serials(m.cargo[j := Some(x)]) == Serials(m.cargo)[j := b]
      ensures Carrying(m.cargo[j := Some(x)], sizes[..][j := |d|], pieces + [d], a, b + 1)
      ensures Carrying(m.cargo, sizes[..], pieces + [d], a, b)
    {
      Push(Serials(m.cargo), m.slots, a, b);
      CarriedPush(m.cargo, sizes[..], pieces, m.slots, a, b, d, x, false);
      CarriedMore(m.cargo, sizes[..], pieces, m.slots, a, b, d, false);
      SerialsUpdate(m.cargo, j, Some(x));
    }

    /** Chunk `i`, the bytes `d` of the user's data, is in part `j` of the VE buffer. */
    ghost predicate Stocked(i: nat, j: nat, transfer: nat, d: seq<byte>)
      reads this`pieces, this`a, this`b, m`posts, m.ve
    {
      && Static() && m.Sized() && i == b == |pieces| == m.posts && j == Slot(b, m.slots) && j < m.slots
      && a <= b < a + m.slots && b < Chunks(total, m.chunk) && transfer == ChunkSize(total, m.chunk, b) == |d|
      && m.VePart(j)[..transfer] == d && Flatten(pieces + [d]) <= stream
    }

    /** The post of chunk `i`. */
    method Send(i: nat, j: nat, transfer: nat, ghost d: seq<byte>) returns (ok: bool)
      requires Static() && m.Valid() && InSlots() && Stocked(i, j, transfer, d)
      modifies m`cargo, m`log, m`moved, m`posts, m.ve, m.vh, sizes
      ensures m.Valid() && ok == m.postOk(i) && m.posts == i + 1
      ensures Carrying(m.cargo, sizes[..], pieces + [d], a, if ok then i + 1 else i)
      ensures Serials(m.cargo) == if ok then old(Serials(m.cargo))[j := i] else old(Serials(m.cargo))
    {
      DmaSizeStaysInside(transfer, m.chunk);
      ghost var sent, sizes0 := m.VePart(j)[..DmaSize(transfer)], sizes[..];
      assert sent[..transfer] == d;
      Posting(j, d, Cargo(i, false, sent));
      ok := m.Post(j, false, DmaSize(transfer));
      if ok {
        sizes[j] := transfer;
        assert sizes[..] == sizes0[j := |d|];
      }
    }

    /** The same, with the chunk entered and, if the engine took it, as in flight. */
    method Dispatch(i: nat, j: nat, transfer: nat, ghost d: seq<byte>) returns (ok: bool)
      requires Static() && m.Valid() && InSlots() && Stocked(i, j, transfer, d)
      modifies this`pieces, this`b, m`cargo, m`log, m`moved, m`posts, m.ve, m.vh, sizes
      ensures pieces == old(pieces) + [d] && ok == m.postOk(i) && m.posts == i + 1
      ensures m.Valid() && InSlots() && b == if ok then i + 1 else i
      ensures Serials(m.cargo) == if ok then old(Serials(m.cargo))[j := i] else old(Serials(m.cargo))
    {
      ok := Send(i, j, transfer, d);
      pieces := pieces + [d];
      if ok { b := b + 1; }
    }

    /** Chunk `b` is one the call is bound to post. */
    lemma {:induction false} AttemptsCover()
      requires Static() && a <= b < a + m.slots && b < Chunks(total, m.chunk) && Passes(a)
      ensures b + 1 <= Attempts(plain, total, m.chunk, m.slots) && m.calls <= plain.calls
    {
      WriteGrows(m.writer, total, m.chunk, a, ofs, m.calls, |m.file|);
    }

    lemma {:induction false} SlotFree(j: nat)
      requires Ready(j)
      ensures j < |m.cargo| && m.cargo[j].None?
    {
      Push(Serials(m.cargo), m.slots, a, b);
    }

    /** All has gone well so far, and the file has all the chunks before `a`. */
    ghost predicate Steady()
      reads this`ofs, this`pieces, this`a, this`b, this`exitResult, this`errnoBak, this`dataErr, this`faulted
      reads m`cargo, m`log, m`moved, m`file, m`calls, m`errno, m.ve, m.vh, m.mem, sizes
    {
      Flow() && Sound(a) && !faulted && !dataErr && OnTrack(a)
    }

    /** Chunk `i`, which is to carry the bytes `d`, is the next one to be posted, from slot `j`. */
    ghost predicate Due(i: nat, j: nat, transfer: nat, d: seq<byte>)
      requires m.chunk > 0 && m.slots > 0
      reads this`pieces, this`a, this`b, m`cargo, m`calls, m`posts, posted
    {
      && i == b == |pieces| == m.posts && b < Chunks(total, m.chunk) && j == Slot(b, m.slots) && j < posted.Length
      && a == (if b < m.slots then 0 else b - m.slots + 1)
      && b + 1 <= Attempts(plain, total, m.chunk, m.slots) && m.calls <= plain.calls
      && posted[..][j := NONE] == Serials(m.cargo)
      && transfer == ChunkSize(total, m.chunk, b) == |d| && Flatten(pieces + [d]) <= stream
      && (b + 1 < Chunks(total, m.chunk) ==> |Flatten(pieces + [d])| == Offset(m.chunk, b + 1))
    }

    /** Chunk `i`, the bytes `d`, is in part `j` of the VE buffer and may be posted. */
    ghost predicate Loaded(i: nat, j: nat, transfer: nat, d: seq<byte>)
      reads this, m`cargo, m`log, m`moved, m`file, m`calls, m`posts, m`errno, m.ve, m.vh, m.mem, posted, sizes
    {
      && Steady() && Due(i, j, transfer, d)
      && m.VePart(j)[..transfer] == d && Cursor(|Flatten(pieces + [d])|)
    }

    /** Chunk `i` is to carry the user's bytes `d` from `p` on, and slot `j` is empty. */
    ghost predicate Chosen(i: nat, j: nat, transfer: nat, p: nat, d: seq<byte>)
      reads this, m`cargo, m`log, m`moved, m`file, m`calls, m`posts, m`errno, m.ve, m.vh, m.mem, posted, sizes
    {
      && Steady() && Due(i, j, transfer, d) && j < |m.cargo| && m.cargo[j].None?
      && Cursor(p) && p + transfer <= total && d == stream[p..p + transfer] && |Flatten(pieces + [d])| == p + transfer
    }

    /** A call on its track is to post the next piece. */
    lemma {:induction false} NowDue(j: nat, transfer: nat, d: seq<byte>)
      requires Ready(j) && transfer == ChunkSize(total, m.chunk, b) == |d| && Flatten(pieces + [d]) <= stream
      requires b + 1 < Chunks(total, m.chunk) ==> |Flatten(pieces + [d])| == Offset(m.chunk, b + 1)
      ensures Steady() && Due(b, j, transfer, d)
    {
      AttemptsCover();
    }

    /** What chunk `b` is to carry. */
    lemma {:induction false} Pick(j: nat, transfer: nat) returns (d: seq<byte>)
      requires Ready(j) && transfer == ChunkSize(total, m.chunk, b)
      ensures Chosen(b, j, transfer, |Flatten(pieces)|, d)
    {
      d := NextPiece(transfer);
      NowDue(j, transfer, d);
      SlotFree(j);
    }

    /** The copy of the next piece of the user's data. */
    method CopyPiece(i: nat, j: nat, transfer: nat, ghost p: nat, ghost d: seq<byte>)
      requires Chosen(i, j, transfer, p, d)
      modifies this`buf, this`next, this`done, m`moved, m.ve, m.vh
      ensures Loaded(i, j, transfer, d)
    {
      var left := Load(j, transfer, p);
    }

    /** The copy of chunk `i`. */
    method LoadNext(i: nat, j: nat, transfer: nat) returns (ghost d: seq<byte>)
      requires Ready(j) && i == b && transfer == ChunkSize(total, m.chunk, b)
      modifies this`buf, this`next, this`done, m`moved, m.ve, m.vh
      ensures Loaded(i, j, transfer, d)
    {
      d := Pick(j, transfer);
      CopyPiece(i, j, transfer, |Flatten(pieces)|, d);
    }

    /** The post of chunk `i`, for a call on its track. */
    method DispatchTracked(i: nat, j: nat, transfer: nat, ghost d: seq<byte>) returns (ok: bool)
      requires Static() && m.Valid() && InSlots() && Stocked(i, j, transfer, d)
      requires OnTrack(a) && posted[..][j := NONE] == Serials(m.cargo)
      modifies this`pieces, this`b, m`cargo, m`log, m`moved, m`posts, m.ve, m.vh, sizes
      ensures pieces == old(pieces) + [d] && ok == m.postOk(i) && m.posts == i + 1 && OnTrack(a)
      ensures m.Valid() && InSlots() && b == if ok then i + 1 else i
      ensures posted[..][j := if ok then i else NONE] == Serials(m.cargo)
    {
      ghost var pieces0 := pieces;
      assert posted[..][j := NONE][j := i] == posted[..][j := i];
      ok := Dispatch(i, j, transfer, d);
      assert pieces[..a] == pieces0[..a];
    }

    /** The engine has taken chunk `i`, and slot `j` has yet to be marked. */
    ghost predicate Taken(i: nat, j: nat)
      reads this, m`cargo, m`log, m`moved, m`file, m`calls, m`posts, m`errno, m.ve, m.vh, m.mem, posted, sizes
    {
      && Running() && b == i + 1 && j < posted.Length && posted[..][j := i] == Serials(m.cargo)
      && a == if b < m.slots then 0 else b - m.slots
    }

    /** The engine has not taken chunk `i`. */
    ghost predicate Missed(i: nat, j: nat)
      reads this, m`cargo, m`log, m`moved, m`file, m`calls, m`errno, m.ve, m.vh, m.mem, posted, sizes
    {
      && Flow() && Broken() && b == i < |pieces|
      && j < posted.Length && posted[..][j := NONE] == Serials(m.cargo)
    }

    /** A refused post is the first failure, if none was noticed before. */
    lemma {:induction false} LostByRefusal(i: nat)
      requires m.chunk > 0 && m.slots > 0 && i < Attempts(plain, total, m.chunk, m.slots)
      requires Granted(m, i) && |m.calls| == Collected(i, m.slots) && Clear(m, |m.calls|)
      ensures if m.postOk(i) then Granted(m, i + 1) else Lost()
    {
      if m.postOk(i) { return; }
      assert WriteStops(m, plain, Attempts(plain, total, m.chunk, m.slots), i, |m.calls|);
    }

    /** The post of chunk `i`, once its data `d` has been copied. */
    method Hoist(i: nat, j: nat, transfer: nat, ghost d: seq<byte>) returns (go: bool)
      requires Loaded(i, j, transfer, d)
      modifies this`pieces, this`b, sizes, m`cargo, m`log, m`moved, m`posts, m.ve, m.vh
      ensures (go && Taken(i, j)) || (!go && Missed(i, j))
    {
      ghost var plan := pieces + [d];
      go := DispatchTracked(i, j, transfer, d);
      assert pieces == plan;
      LostByRefusal(i);
    }

    /** The slot of a chunk that is on its way is marked. */
    method Record(i: nat, j: nat)
      requires Taken(i, j)
      modifies posted
      ensures Going() && b == i + 1
    {
      posted[j] := i;
      assert posted[..] == Serials(m.cargo);
    }

    /** The post of chunk `i` and what follows from its answer. */
    method Ship(i: nat, j: nat, transfer: nat, ghost d: seq<byte>) returns (go: bool)
      requires Loaded(i, j, transfer, d)
      modifies this`pieces, this`b, this`exitResult, this`errnoBak, this`dataErr, this`faulted
      modifies posted, sizes, m`cargo, m`log, m`moved, m`posts, m.ve, m.vh
      ensures (go && Going() && b == i + 1) || (!go && Stopped())
    {
      go := Hoist(i, j, transfer, d);
      if !go {
        Abandon(i, j);
      } else {
        Record(i, j);
      }
    }

    /** The error path of a failed post. */
    method Abandon(i: nat, j: nat)
      requires Missed(i, j)
      modifies this`exitResult, this`errnoBak, this`dataErr, this`faulted, posted
      ensures Stopped()
    {
      Spoil();
      posted[j] := NONE;
      assert posted[..] == Serials(m.cargo);
    }

    /** The copy and the post of chunk `i`; `go` tells whether the main loop goes on. */
    method Enqueue(i: nat, j: nat, transfer: nat) returns (go: bool)
      requires Ready(j) && i == b && transfer == ChunkSize(total, m.chunk, b)
      modifies this`pieces, this`b, this`exitResult, this`errnoBak, this`dataErr, this`faulted
      modifies this`buf, this`next, this`done, posted, sizes
      modifies m`cargo, m`log, m`moved, m`posts, m.ve, m.vh
      ensures (go && Going() && b == i + 1) || (!go && Stopped())
    {
      ghost var d := LoadNext(i, j, transfer);
      go := Ship(i, j, transfer, d);
    }

    // ---- the loops -------------------------------------------------------------------------

    /** The slot of chunk `i` is taken: write what it brings first, a whole chunk. */
    method Reuse(i: nat, j: nat) returns (go: bool)
      requires Going() && i == b < Chunks(total, m.chunk) && i >= m.slots && j == Slot(i, m.slots)
      modifies this`ofs, this`exitResult, this`errnoBak, this`dataErr, this`faulted, this`a
      modifies posted, m`cargo, m`log, m`moved, m`calls, m`errno, m`file, m.ve, m.vh
      ensures (go && Ready(j)) || (!go && Stopped())
    {
      NextSlot(a, m.slots);
      assert posted[..][j] == a by { assert Carries(posted[..], m.slots, a); }
      assert Brings(m.cargo, sizes[..], pieces, m.slots, a, false);
      assert posted[j] == posted[..][j];
      Flush(j, posted[j], m.chunk);
      if dataErr {
        posted[j] := NONE;
        assert posted[..] == Serials(m.cargo);
        return false;
      }
      return true;
    }

    /** One turn of the main loop. */
    method Turn(i: nat) returns (go: bool)
      requires Going() && i == b < Chunks(total, m.chunk)
      modifies this, posted, sizes, m`cargo, m`log, m`moved, m`posts, m`calls, m`errno, m`file, m.ve, m.vh
      ensures (go && Going() && b == i + 1) || (!go && Stopped())
    {
      var transfer := ChunkSize(total, m.chunk, i);
      var j := Slot(i, m.slots);
      if i >= m.slots {
        go := Reuse(i, j);
        if !go { return; }
      } else {
        Push(Serials(m.cargo), m.slots, a, b);
        assert posted[..][j := NONE] == Serials(m.cargo);
      }
      go := Enqueue(i, j, transfer);
    }

    method MainLoop()
      requires Going() && b == 0
      modifies this, posted, sizes, m`cargo, m`log, m`moved, m`posts, m`calls, m`errno, m`file, m.ve, m.vh
      ensures Stopped()
    {
      var writeNum := Chunks(total, m.chunk);
      var i := 0;
      while i < writeNum
        invariant i <= writeNum && Going() && b == i
      {
        var go := Turn(i);
        if !go { return; }
        i := i + 1;
      }
      AllPosted();
    }

    /** The main loop has posted every chunk. */
    lemma {:induction false} AllPosted()
      requires Going() && b == Chunks(total, m.chunk)
      ensures Stopped()
    {
      WriteGrows(m.writer, total, m.chunk, a, ofs, m.calls, |m.file|);
    }

    /** What the drain has before it at its `k`-th slot. */
    ghost predicate Draining(a0: nat, k: nat)
      reads this, m`cargo, m`log, m`moved, m`file, m`calls, m`errno, m.ve, m.vh, m.mem, posted, sizes
    {
      && Flow() && Account() && Progress() && Window(posted[..], m.slots, a0, b)
      && (!faulted ==> b == Attempts(plain, total, m.chunk, m.slots))
      && a == if a0 + k <= b then a0 + k else b
    }

    /** The `k`-th slot of the drain. */
    method DrainSlot(minK: nat, k: nat, ghost a0: nat)
      requires Draining(a0, k) && k < m.slots && minK < m.slots && (a0 < b ==> minK == Slot(a0, m.slots))
      modifies this`ofs, this`exitResult, this`errnoBak, this`dataErr, this`faulted, this`a
      modifies m`cargo, m`log, m`moved, m`calls, m`errno, m`file, m.ve, m.vh
      ensures Draining(a0, k + 1)
    {
      DrainOrder(posted[..], m.slots, a0, b, minK, k);
      assert posted[Slot(minK + k, m.slots)] == posted[..][Slot(minK + k, m.slots)];
      var i := posted[Slot(minK + k, m.slots)];
      if i == NONE { return; }
      var j := Slot(i, m.slots);
      assert Brings(m.cargo, sizes[..], pieces, m.slots, i, false);
      Flush(j, i, sizes[j]);
    }

    /** The drain: whatever is still in flight is waited for, and written unless it is too late. */
    method Drain()
      requires Stopped()
      modifies this`ofs, this`exitResult, this`errnoBak, this`dataErr, this`faulted, this`a
      modifies m`cargo, m`log, m`moved, m`calls, m`errno, m`file, m.ve, m.vh
      ensures Flow() && Account() && Progress() && a == b
      ensures !faulted ==> b == Attempts(plain, total, m.chunk, m.slots)
    {
      ghost var a0 := a;
      var minK := FindMinPosted(posted, a, b);
      var k := 0;
      while k < m.slots
        invariant k <= m.slots && Draining(a0, k)
      {
        DrainSlot(minK, k, a0);
        k := k + 1;
      }
    }

    /** The whole call, once the request has been prepared. */
    method Execute() returns (result: int)
      requires Going() && b == 0 && plain == Write(m.writer, total, m.chunk, ofs0)
      modifies this, posted, sizes, m`cargo, m`log, m`moved, m`posts, m`calls, m`errno, m`file, m.ve, m.vh
      ensures m.Valid() && forall j :: 0 <= j < m.slots ==> m.cargo[j].None?
      ensures WritePromise(m, stream, total, ofs0, errno0, m.errno, m.calls, m.file, result)
    {
      MainLoop();
      Drain();
      NothingInFlight(m.cargo, m.slots, a);
      Conclusion();
      if 0 != errnoBak {
        m.errno := errnoBak;
      }
      result := exitResult;
    }

    /** The promise, but for `errno`, which is about to be restored. */
    lemma {:induction false} Conclusion()
      requires Flow() && Account() && Progress() && a == b
      requires !faulted ==> b == Attempts(plain, total, m.chunk, m.slots)
      requires plain == Write(m.writer, total, m.chunk, ofs0)
      ensures WritePromise(m, stream, total, ofs0, errno0, if errnoBak != 0 then errnoBak else m.errno,
                           m.calls, m.file, exitResult)
    {
      if faulted {
        SomeFirstFault(m, Attempts(plain, total, m.chunk, m.slots));
      } else {
        assert !Faulty(m, b);
        if !dataErr { WroteAll(); }
      }
    }

    /** A call still on its track at the end has written every chunk. */
    lemma {:induction false} WroteAll()
      requires Static() && OnTrack(b) && b == Attempts(plain, total, m.chunk, m.slots) && 0 < m.slots
      ensures Ended()
    {
      WriteGrows(m.writer, total, m.chunk, b, ofs, m.calls, |m.file|);
    }
  }

  /** With `f` the first failure, of `n` requests: an exception keeps its chunk and all behind it from
      being written, a refused post all those that were still in flight. */
  ghost predicate WriteStops(m: Machine, plain: WriteRun, n: nat, f: nat, made: nat) {
    && FirstFault(m, n, f)
    && made == if m.postOk(f) then Min(|plain.calls|, f) else Collected(f, m.slots)
  }

  /** A failure ends the write after `made` calls. */
  ghost predicate WriteLost(m: Machine, plain: WriteRun, n: nat, made: nat) {
    exists f :: WriteStops(m, plain, n, f, made)
  }

  /** What a write promises.  The file has taken a prefix of the user's data, as many bytes as the
      calls moved.  Unless the DMA engine fails one of the requests the call is bound to post, the
      calls made, the bytes accepted, the value returned and `errno` are those of the plain loop;
      if it does, the call reports EIO, and the first failure alone determines how many of the plain
      loop's calls have been made. */
  ghost predicate WritePromise(m: Machine, stream: seq<byte>, total: nat, ofs: int, errno0: int,
                               errno: int, calls: seq<Call>, file: seq<byte>, result: int)
    requires m.chunk > 0
  {
    var plain := Write(m.writer, total, m.chunk, ofs);
    && file <= stream && |file| == Moved(calls)
    && if Faulty(m, Attempts(plain, total, m.chunk, m.slots)) then
         result == -1 && errno == EIO && calls <= plain.calls
         && WriteLost(m, plain, Attempts(plain, total, m.chunk, m.slots), |calls|)
       else
         && calls == plain.calls && |file| == plain.accepted && result == WriteResult(plain)
         && errno == ErrnoAfter(plain.error, |calls|, errno0)
  }

  /** A result that is not -1 is the number of bytes the file has accepted, from the front. */
  lemma {:induction false} ResultIsAccepted(m: Machine, stream: seq<byte>, total: nat, ofs: int, errno0: int,
                         errno: int, calls: seq<Call>, file: seq<byte>, result: int)
    requires m.chunk > 0 && WritePromise(m, stream, total, ofs, errno0, errno, calls, file, result)
    ensures -1 <= result && (result >= 0 ==> result <= |stream| && file == stream[..result])
    ensures Contiguous(calls, ofs)
  {
    var plain := Write(m.writer, total, m.chunk, ofs);
    WriteContiguous(m.writer, total, m.chunk, ofs, 0, ofs, [], 0);
    ContiguousPrefix(calls, plain.calls, ofs);
  }

  /** What a caller is told when the engine fails nothing: -1 exactly if the very first system call
      failed, with that call's error code and nothing in the file; else a count, with `errno` cleared
      if a later call failed, and as it was if none did.  Every call is answered by the system. */
  lemma {:induction false} TellsTheCaller(m: Machine, stream: seq<byte>, total: nat, ofs: int, errno0: int,
                         errno: int, calls: seq<Call>, file: seq<byte>, result: int)
    requires m.chunk > 0 && total > 0
    requires WritePromise(m, stream, total, ofs, errno0, errno, calls, file, result)
    requires !Faulty(m, Attempts(Write(m.writer, total, m.chunk, ofs), total, m.chunk, m.slots))
    ensures calls != [] && (result == -1 <==> m.writer(0).Refuse?)
    ensures m.writer(0).Refuse? ==> result == -1 && errno == m.writer(0).errno && |calls| == 1 && file == []
    ensures m.writer(0).Accept? ==>
              result == |file| == Moved(calls) && errno == if calls[|calls| - 1].ret == -1 then 0 else errno0
    ensures forall k :: 0 <= k < |calls| ==> WriteCall(m.writer, total, m.chunk, calls, k)
  {
    WriteAnswers(m.writer, total, m.chunk, 0, ofs, [], 0);
    assert WriteCall(m.writer, total, m.chunk, calls, 0);
  }

  /** A write whose engine fails: what it returns and the calls it has made, hence what the file has
      taken, follow from the first failure. */
  lemma {:induction false} FirstFaultDecides(m: Machine, stream: seq<byte>, total: nat, ofs: int, errno0: int,
                         errno: int, calls: seq<Call>, file: seq<byte>, result: int, f: nat)
    requires m.chunk > 0 && m.slots > 0
    requires WritePromise(m, stream, total, ofs, errno0, errno, calls, file, result)
    requires FirstFault(m, Attempts(Write(m.writer, total, m.chunk, ofs), total, m.chunk, m.slots), f)
    ensures var plain := Write(m.writer, total, m.chunk, ofs);
            && result == -1 && errno == EIO == 5 && calls <= plain.calls
            && |calls| == (if m.postOk(f) then Min(|plain.calls|, f) else Collected(f, m.slots))
            && file <= stream && |file| == Moved(calls)
  {
    var plain := Write(m.writer, total, m.chunk, ofs);
    var n := Attempts(plain, total, m.chunk, m.slots);
    SomeFirstFault(m, n);
    var g :| WriteStops(m, plain, n, g, |calls|);
    OneFirstFault(m, n, f, g);
  }

  /** However the DMAs and the waits are interleaved, the outcome of a write is the same, in the file
      as for the caller. */
  lemma {:induction false} ScheduleDoesNotMatter(m: Machine, stream: seq<byte>, total: nat, ofs: int, errno0: int,
                         errno: int, calls: seq<Call>, file: seq<byte>, result: int,
                         errno': int, calls': seq<Call>, file': seq<byte>, result': int)
    requires m.chunk > 0 && m.slots > 0
    requires WritePromise(m, stream, total, ofs, errno0, errno, calls, file, result)
    requires WritePromise(m, stream, total, ofs, errno0, errno', calls', file', result')
    ensures errno == errno' && calls == calls' && file == file' && result == result'
  {
    var plain := Write(m.writer, total, m.chunk, ofs);
    var n := Attempts(plain, total, m.chunk, m.slots);
    SomeFirstFault(m, n);
    if Faulty(m, n) {
      var f :| FirstFault(m, n, f);
      FirstFaultDecides(m, stream, total, ofs, errno0, errno, calls, file, result, f);
      FirstFaultDecides(m, stream, total, ofs, errno0, errno', calls', file', result', f);
      assert calls == plain.calls[..|calls|] == calls';
    }
    assert file == stream[..|file|] && file' == stream[..|file'|];
  }

  /** A file that takes whatever it is given gets the whole of the user's data, and nothing else,
      when the engine fails nothing. */
  lemma {:induction false} WritesItAll(m: Machine, stream: seq<byte>, total: nat, ofs: int, errno0: int,
                    errno: int, calls: seq<Call>, file: seq<byte>, result: int)
    requires m.chunk > 0 && |stream| == total && forall c :: m.postOk(c) && m.exc(c) == 0
    requires forall c :: m.writer(c) == Accept(m.chunk)
    requires WritePromise(m, stream, total, ofs, errno0, errno, calls, file, result)
    ensures file == stream && result == total
  {
    WillingFile(m.writer, total, m.chunk, 0, ofs, [], 0);
    WriteAll(m.writer, total, m.chunk, 0, ofs, [], 0);
  }

  lemma {:induction false} WillingFile(kernel: nat -> Verdict, total: nat, chunk: nat,
                                       i: nat, ofs: int, calls: seq<Call>, accepted: nat)
    requires chunk > 0 && i <= Chunks(total, chunk) && forall c :: kernel(c) == Accept(chunk)
    ensures var run := SeqWrite(kernel, total, chunk, i, ofs, calls, accepted);
            run.full == Chunks(total, chunk) && run.error == None
    decreases Chunks(total, chunk) - i
  {
    if i < Chunks(total, chunk) {
      var size := ChunkSize(total, chunk, i);
      WillingFile(kernel, total, chunk, i + 1, ofs + size, calls + [Call(size, ofs, size)], accepted + size);
    }
  }

  /** A request that has been prepared, from its first copy to its last system call. */
  method Transfer(m: Machine, vectored: bool, iov: seq<Iovec>, total: nat, ofs: int) returns (result: int)
    requires m.Valid() && m.calls == [] && m.posts == 0 && m.file == []
    requires forall j :: 0 <= j < m.slots ==> m.cargo[j].None?
    requires Total(iov) == total && (!vectored ==> |iov| == 1) && Within(iov, m.mem.Length)
    modifies m`cargo, m`log, m`moved, m`posts, m`calls, m`errno, m`file, m.ve, m.vh
    ensures m.Valid() && forall j :: 0 <= j < m.slots ==> m.cargo[j].None?
    ensures WritePromise(m, Gather(m.mem[..], iov, |iov|), total, ofs, old(m.errno), m.errno, m.calls, m.file, result)
  {
    var job := new WriteJob(m, vectored, iov, total, ofs);
    result := job.Execute();
  }

  /** The same from one buffer. */
  method TransferFlat(m: Machine, base: nat, count: nat, ofs: int) returns (result: int)
    requires m.Valid() && m.calls == [] && m.posts == 0 && m.file == []
    requires forall j :: 0 <= j < m.slots ==> m.cargo[j].None?
    requires base + count <= m.mem.Length
    modifies m`cargo, m`log, m`moved, m`posts, m`calls, m`errno, m`file, m.ve, m.vh
    ensures m.Valid() && forall j :: 0 <= j < m.slots ==> m.cargo[j].None?
    ensures WritePromise(m, m.mem[base..base + count], count, ofs, old(m.errno), m.errno, m.calls, m.file, result)
  {
    var iov := [Iovec(base, count)];
    GatherOne(m.mem[..], base, count);
    assert m.mem[base..base + count] == m.mem[..][base..base + count];
    result := Transfer(m, false, iov, count, ofs);
  }

  /** `ve_accelerated_io_write_pwrite`.  `direct` is what the ordinary system call would return. */
  method WritePwrite(th: Thread, list: Registry, plain: bool, setup: Setup,
                   m: Machine, buf: Option<nat>, count: nat, ofs: int, direct: int)
    returns (result: int, unhook: bool)
    requires list.Valid() && th.Linked(list)
    requires m.Valid() && m.calls == [] && m.posts == 0 && m.file == []
    requires forall j :: 0 <= j < m.slots ==> m.cargo[j].None?
    requires buf.Some? ==> buf.value + count <= m.mem.Length
    modifies th, list`ledger, list.Spine()
    modifies m`cargo, m`log, m`moved, m`posts, m`calls, m`errno, m`file, m.ve, m.vh
    ensures m.Valid() && forall j :: 0 <= j < m.slots ==> m.cargo[j].None?
    ensures list.Valid() && th.Linked(list) && th.using == old(th.using)
    ensures unhook <==> count != 0 && buf.Some? && old(th.Verdict(plain, setup)) == Disabled
    ensures count == 0 || (buf.Some? && old(th.Verdict(plain, setup)) != Prepared) ==>
              result == direct && m.file == [] && m.calls == [] && m.errno == old(m.errno)
    ensures count != 0 && buf.None? ==> result == -1 && m.errno == EFAULT == 14 && m.file == [] && m.calls == []
    ensures count != 0 && buf.Some? && old(th.Verdict(plain, setup)) == Prepared ==>
              WritePromise(m, m.mem[buf.value..buf.value + count], count, ofs, old(m.errno),
                           m.errno, m.calls, m.file, result)
  {
    unhook := false;
    if 0 == count {
      return direct, false;
    }
    if buf.None? {
      m.errno := EFAULT;
      return -1, false;
    }
    var pre := th.Prepare(list, plain, setup);
    if pre != Prepared {
      return direct, pre == Disabled;
    }
    result := TransferFlat(m, buf.value, count, ofs);
    th.Finish();
  }

  /** `ve_accelerated_io_writev_pwritev`. */
  method WritevPwritev(th: Thread, list: Registry, plain: bool, setup: Setup,
                   m: Machine, iov: Option<seq<Iovec>>, count: nat, ofs: int, direct: int)
    returns (result: int, unhook: bool)
    requires list.Valid() && th.Linked(list)
    requires m.Valid() && m.calls == [] && m.posts == 0 && m.file == []
    requires forall j :: 0 <= j < m.slots ==> m.cargo[j].None?
    requires iov.Some? ==> |iov.value| == count && Within(iov.value, m.mem.Length)
    modifies th, list`ledger, list.Spine()
    modifies m`cargo, m`log, m`moved, m`posts, m`calls, m`errno, m`file, m.ve, m.vh
    ensures m.Valid() && forall j :: 0 <= j < m.slots ==> m.cargo[j].None?
    ensures list.Valid() && th.Linked(list) && th.using == old(th.using)
    ensures unhook <==> count != 0 && iov.Some? && old(th.Verdict(plain, setup)) == Disabled
    ensures count == 0 || (iov.Some? && old(th.Verdict(plain, setup)) != Prepared) ==>
              result == direct && m.file == [] && m.calls == [] && m.errno == old(m.errno)
    ensures count != 0 && iov.None? ==> result == -1 && m.errno == EFAULT == 14 && m.file == [] && m.calls == []
    ensures count != 0 && iov.Some? && old(th.Verdict(plain, setup)) == Prepared ==>
              WritePromise(m, Gather(m.mem[..], iov.value, |iov.value|), Total(iov.value), ofs, old(m.errno),
                           m.errno, m.calls, m.file, result)
  {
    unhook := false;
    if 0 == count {
      return direct, false;
    }
    if iov.None? {
      m.errno := EFAULT;
      return -1, false;
    }
    var pre := th.Prepare(list, plain, setup);
    if pre != Prepared {
      return direct, pre == Disabled;
    }
    var total := TotalSize(iov.value);
    result := Transfer(m, true, iov.value, total, ofs);
    th.Finish();
  }

  /** Buffers that add up to nothing cause no system call: the call returns 0 and changes nothing. */
  lemma {:induction false} NothingToWrite(m: Machine, ofs: int, errno0: int,
                       errno: int, calls: seq<Call>, file: seq<byte>, result: int)
    requires m.chunk > 0 && WritePromise(m, [], 0, ofs, errno0, errno, calls, file, result)
    ensures result == 0 && calls == [] && file == [] && errno == errno0
  {
  }
}
