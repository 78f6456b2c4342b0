/** What accelerated I/O is meant to do: the plain loops that move one chunk at a time.

    `kernel(i)` is what the operating system would answer to the i-th system call of the request;
    as the function is arbitrary, so are the answers. */
module IoSpec {
  import opened Bytes

  const EIO: int := 5
  const EFAULT: int := 14

  /** An answer to a read: an error code, or the bytes the file has to give. */
  datatype Reply = Fail(errno: nat) | Got(data: seq<byte>)
  /** An answer to a write: an error code, or the number of bytes the file would take. */
  datatype Verdict = Refuse(errno: nat) | Accept(count: nat)

  /** A system call: requested size, file offset, and value returned. */
  datatype Call = Call(size: nat, ofs: int, ret: int)

  /** No call moves more than it was asked to. */
  function Clip(r: Reply, size: nat): Reply {
    if r.Fail? || |r.data| <= size then r else Got(r.data[..size])
  }

  function ClipCount(v: Verdict, size: nat): Verdict {
    if v.Refuse? || v.count <= size then v else Accept(size)
  }

  // ---- chunks ------------------------------------------------------------------------------

  /** Where chunk `i` begins.  Products and quotients are written as repeated addition and
      subtraction, which keeps the proofs linear. */
  function Offset(chunk: nat, i: nat): nat {
    if i == 0 then 0 else Offset(chunk, i - 1) + chunk
  }

  lemma {:induction false} OffsetIsProduct(chunk: nat, i: nat)
    ensures Offset(chunk, i) == chunk * i
  {
    if i > 0 {
      OffsetIsProduct(chunk, i - 1);
      assert chunk * i == chunk * (i - 1) + chunk;
    }
  }

  /** How many chunks a request takes. */
  function Chunks(total: nat, chunk: nat): nat
    requires chunk > 0
  {
    if total == 0 then 0 else if total <= chunk then 1 else 1 + Chunks(total - chunk, chunk)
  }

  lemma {:induction false} ChunksIsQuotient(total: nat, chunk: nat)
    requires chunk > 0
    ensures Chunks(total, chunk) == (total + chunk - 1) / chunk
  {
    if total == 0 {
      Quotient(chunk - 1, 0, chunk);
    } else if total <= chunk {
      Quotient(total + chunk - 1, 1, chunk);
    } else {
      var q := (total - 1) / chunk;
      ChunksIsQuotient(total - chunk, chunk);
      DivLaw(total - 1, chunk);
      assert chunk * (q + 1) == chunk * q + chunk;
      Quotient(total + chunk - 1, q + 1, chunk);
    }
  }

  lemma {:induction false} DivLaw(m: nat, d: nat)
    requires d > 0
    ensures d * (m / d) <= m < d * (m / d) + d
  {
  }

  lemma {:induction false} Quotient(m: nat, q: nat, d: nat)
    requires d > 0 && d * q <= m < d * q + d
    ensures m / d == q
  {
    DivLaw(m, d);
    var p := m / d;
    if p < q { MulAbove(d, p, q); }
    if q < p { MulAbove(d, q, p); }
  }

  lemma {:induction false} MulAbove(d: nat, x: nat, y: nat)
    requires x < y
    ensures d * y >= d * x + d
  {
    assert d * y == d * x + d * (y - x);
    assert d * (y - x) == d + d * (y - x - 1);
  }

  /** The size of chunk `i`; only the last may be short. */
  function ChunkSize(total: nat, chunk: nat, i: nat): (size: nat)
    requires chunk > 0 && i < Chunks(total, chunk)
    ensures 0 < size <= chunk && Offset(chunk, i) + size <= total
    ensures i + 1 < Chunks(total, chunk) ==> size == chunk
    ensures i + 1 == Chunks(total, chunk) ==> Offset(chunk, i) + size == total
  {
    ChunkBounds(total, chunk, i);
    if i == Chunks(total, chunk) - 1 then total - Offset(chunk, i) else chunk
  }

  lemma {:induction false} ChunkBounds(total: nat, chunk: nat, i: nat)
    requires chunk > 0 && i < Chunks(total, chunk)
    ensures Offset(chunk, i) < total
    ensures i + 1 < Chunks(total, chunk) ==> Offset(chunk, i) + chunk <= total
    ensures i + 1 == Chunks(total, chunk) ==> total <= Offset(chunk, i) + chunk
  {
    if i > 0 { ChunkBounds(total - chunk, chunk, i - 1); }
  }

  function Flatten(chunks: seq<seq<byte>>): seq<byte> {
    if chunks == [] then [] else Flatten(chunks[..|chunks| - 1]) + chunks[|chunks| - 1]
  }

  lemma {:induction false} FlattenSnoc(chunks: seq<seq<byte>>, c: seq<byte>)
    ensures Flatten(chunks + [c]) == Flatten(chunks) + c
  {
    assert (chunks + [c])[..|chunks|] == chunks;
  }

  lemma {:induction false} FlattenTake(chunks: seq<seq<byte>>, k: nat)
    requires k <= |chunks|
    ensures Flatten(chunks[..k]) <= Flatten(chunks)
    decreases |chunks|
  {
    if k < |chunks| {
      FlattenTake(chunks[..|chunks| - 1], k);
      assert chunks[..|chunks| - 1][..k] == chunks[..k];
    } else {
      assert chunks[..k] == chunks;
    }
  }

  lemma {:induction false} FlattenUpTo(chunks: seq<seq<byte>>, k: nat)
    requires k < |chunks|
    ensures Flatten(chunks[..k + 1]) == Flatten(chunks[..k]) + chunks[k]
    ensures |Flatten(chunks[..k])| + |chunks[k]| <= |Flatten(chunks)|
  {
    assert chunks[..k + 1] == chunks[..k] + [chunks[k]];
    FlattenSnoc(chunks[..k], chunks[k]);
    FlattenTake(chunks, k + 1);
  }

  // ---- system calls ------------------------------------------------------------------------

  /** The bytes moved by a list of calls. */
  function Moved(calls: seq<Call>): nat {
    if calls == [] then 0
    else Moved(calls[..|calls| - 1]) + if calls[|calls| - 1].ret > 0 then calls[|calls| - 1].ret else 0
  }

  lemma {:induction false} MovedSnoc(calls: seq<Call>, c: Call)
    ensures Moved(calls + [c]) == Moved(calls) + if c.ret > 0 then c.ret else 0
  {
    assert (calls + [c])[..|calls|] == calls;
  }

  /** Every call starts where the bytes moved so far end, and every call but the last moved all it
      was asked to: after a short, empty or failed answer nothing more is attempted. */
  ghost predicate Contiguous(calls: seq<Call>, ofs: int) {
    forall k :: 0 <= k < |calls| ==> InPlace(calls, ofs, k)
  }

  /** Call `k` starts where those before it end; unless it is the last, it moved all it was asked to. */
  ghost predicate InPlace(calls: seq<Call>, ofs: int, k: nat)
    requires k < |calls|
  {
    calls[k].ofs == ofs + Moved(calls[..k]) && (k + 1 < |calls| ==> calls[k].ret == calls[k].size > 0)
  }

  lemma {:induction false} ContiguousSnoc(calls: seq<Call>, c: Call, ofs: int)
    requires Contiguous(calls, ofs) && c.ofs == ofs + Moved(calls)
    requires |calls| > 0 ==> calls[|calls| - 1].ret == calls[|calls| - 1].size > 0
    ensures Contiguous(calls + [c], ofs)
  {
    var calls' := calls + [c];
    forall k | 0 <= k < |calls'| ensures InPlace(calls', ofs, k) {
      assert calls'[..k] == calls[..k];
      if k < |calls| { assert InPlace(calls, ofs, k); } else { assert calls[..k] == calls; }
    }
  }

  // ---- the sequential read -----------------------------------------------------------------

  /** The calls made, the chunks of data obtained, and the error code if the last call failed. */
  datatype ReadRun = ReadRun(calls: seq<Call>, chunks: seq<seq<byte>>, error: Option<nat>)

  /** Read chunk after chunk; stop at an error, at the end of the file, or at a short answer. */
  function SeqRead(kernel: nat -> Reply, total: nat, chunk: nat,
                   i: nat, ofs: int, calls: seq<Call>, chunks: seq<seq<byte>>): ReadRun
    requires chunk > 0
    decreases Chunks(total, chunk) - i
  {
    if i >= Chunks(total, chunk) then ReadRun(calls, chunks, None)
    else
      var size := ChunkSize(total, chunk, i);
      match Clip(kernel(i), size)
      case Fail(e) => ReadRun(calls + [Call(size, ofs, -1)], chunks, Some(e))
      case Got(d) =>
        var calls' := calls + [Call(size, ofs, |d|)];
        if d == [] then ReadRun(calls', chunks, None)
        else if |d| < size then ReadRun(calls', chunks + [d], None)
        else SeqRead(kernel, total, chunk, i + 1, ofs + |d|, calls', chunks + [d])
  }

  function Read(kernel: nat -> Reply, total: nat, chunk: nat, ofs: int): ReadRun
    requires chunk > 0
  {
    SeqRead(kernel, total, chunk, 0, ofs, [], [])
  }

  /** The value read returns: -1 only when the very first call fails. */
  function ReadResult(run: ReadRun): int {
    if run.error.Some? && |run.calls| == 1 then -1 else |Flatten(run.chunks)|
  }

  /** The error code it leaves: that of a failing first call; a later failure clears `errno`. */
  function ErrnoAfter(error: Option<nat>, calls: nat, errno: int): int {
    match error
    case None => errno
    case Some(e) => if calls == 1 then e else 0
  }

  /** Whatever happens later, the calls and the data so far stay. */
  lemma {:induction false} ReadGrows(kernel: nat -> Reply, total: nat, chunk: nat,
                                     i: nat, ofs: int, calls: seq<Call>, chunks: seq<seq<byte>>)
    requires chunk > 0
    ensures calls <= SeqRead(kernel, total, chunk, i, ofs, calls, chunks).calls
    ensures chunks <= SeqRead(kernel, total, chunk, i, ofs, calls, chunks).chunks
    ensures i < Chunks(total, chunk) ==> |calls| < |SeqRead(kernel, total, chunk, i, ofs, calls, chunks).calls|
    decreases Chunks(total, chunk) - i
  {
    if i < Chunks(total, chunk) {
      var size := ChunkSize(total, chunk, i);
      var r := Clip(kernel(i), size);
      if r.Got? && |r.data| == size {
        ReadGrows(kernel, total, chunk, i + 1, ofs + |r.data|,
                  calls + [Call(size, ofs, |r.data|)], chunks + [r.data]);
      }
    }
  }

  /** Call `k` of a read asks for chunk `k`, and its value is the system's answer: -1, or how much of
      the data fits. */
  ghost predicate ReadCall(kernel: nat -> Reply, total: nat, chunk: nat, calls: seq<Call>, k: nat)
    requires chunk > 0 && k < |calls|
  {
    && k < Chunks(total, chunk) && calls[k].size == ChunkSize(total, chunk, k)
    && match kernel(k)
       case Fail(_) => calls[k].ret == -1
       case Got(d) => calls[k].ret == if |d| <= calls[k].size then |d| else calls[k].size
  }

  /** Chunk `k` of the data is the front of what the system had for it. */
  ghost predicate ReadChunk(kernel: nat -> Reply, calls: seq<Call>, chunks: seq<seq<byte>>, k: nat)
    requires k < |chunks|
  {
    k < |calls| && |chunks[k]| == calls[k].ret > 0 && kernel(k).Got? && chunks[k] <= kernel(k).data
  }

  /** Every call was answered, and all were for whole chunks but perhaps the last. */
  ghost predicate ReadLog(kernel: nat -> Reply, total: nat, chunk: nat, calls: seq<Call>, chunks: seq<seq<byte>>)
    requires chunk > 0
  {
    && (forall k :: 0 <= k < |calls| ==> ReadCall(kernel, total, chunk, calls, k))
    && (forall k :: 0 <= k < |chunks| ==> ReadChunk(kernel, calls, chunks, k))
  }

  lemma {:induction false} ReadLogSnoc(kernel: nat -> Reply, total: nat, chunk: nat, ofs: int,
                                       calls: seq<Call>, chunks: seq<seq<byte>>)
    requires chunk > 0 && |calls| == |chunks| < Chunks(total, chunk) && ReadLog(kernel, total, chunk, calls, chunks)
    ensures var size := ChunkSize(total, chunk, |calls|);
            match Clip(kernel(|calls|), size)
            case Fail(_) => ReadLog(kernel, total, chunk, calls + [Call(size, ofs, -1)], chunks)
            case Got(d) =>
              ReadLog(kernel, total, chunk, calls + [Call(size, ofs, |d|)], if d == [] then chunks else chunks + [d])
  {
    var i := |calls|;
    var size := ChunkSize(total, chunk, i);
    var r := Clip(kernel(i), size);
    var calls' := calls + [Call(size, ofs, if r.Fail? then -1 else |r.data|)];
    var chunks' := if r.Got? && r.data != [] then chunks + [r.data] else chunks;
    forall k | 0 <= k < |calls'| ensures ReadCall(kernel, total, chunk, calls', k) {
      if k < i { assert ReadCall(kernel, total, chunk, calls, k); }
    }
    forall k | 0 <= k < |chunks'| ensures ReadChunk(kernel, calls', chunks', k) {
      if k < i { assert ReadChunk(kernel, calls, chunks, k); }
    }
  }

  /** A finished read: all chunks are read, or its last call brought less than it asked for; and it
      has an error exactly if that call failed. */
  ghost predicate ReadFinished(kernel: nat -> Reply, total: nat, chunk: nat, run: ReadRun)
    requires chunk > 0
  {
    var last := |run.calls| - 1;
    && ReadLog(kernel, total, chunk, run.calls, run.chunks)
    && (last + 1 == Chunks(total, chunk) || (last >= 0 && run.calls[last].ret < run.calls[last].size))
    && |run.chunks| == (if last >= 0 && run.calls[last].ret <= 0 then last else last + 1)
    && (run.error.Some? <==> last >= 0 && run.calls[last].ret == -1)
    && (run.error.Some? ==> kernel(last) == Fail(run.error.value))
  }

  /** The calls and the data of the plain read are the system's answers, chunk by chunk. */
  lemma {:induction false} ReadAnswers(kernel: nat -> Reply, total: nat, chunk: nat,
                                       i: nat, ofs: int, calls: seq<Call>, chunks: seq<seq<byte>>)
    requires chunk > 0 && |calls| == |chunks| == i <= Chunks(total, chunk)
    requires ReadLog(kernel, total, chunk, calls, chunks)
    requires i > 0 ==> calls[i - 1].ret == calls[i - 1].size
    ensures ReadFinished(kernel, total, chunk, SeqRead(kernel, total, chunk, i, ofs, calls, chunks))
    decreases Chunks(total, chunk) - i
  {
    if i < Chunks(total, chunk) {
      ReadLogSnoc(kernel, total, chunk, ofs, calls, chunks);
      var size := ChunkSize(total, chunk, i);
      var r := Clip(kernel(i), size);
      if r.Got? && |r.data| == size {
        ReadAnswers(kernel, total, chunk, i + 1, ofs + |r.data|, calls + [Call(size, ofs, |r.data|)],
                    chunks + [r.data]);
      }
    } else if i > 0 {
      assert ReadCall(kernel, total, chunk, calls, i - 1);
    }
  }

  /** A read never yields more than was asked for. */
  lemma {:induction false} ReadBound(kernel: nat -> Reply, total: nat, chunk: nat,
                                     i: nat, ofs: int, calls: seq<Call>, chunks: seq<seq<byte>>)
    requires chunk > 0 && |Flatten(chunks)| <= total
    requires i < Chunks(total, chunk) ==> |Flatten(chunks)| == Offset(chunk, i)
    ensures |Flatten(SeqRead(kernel, total, chunk, i, ofs, calls, chunks).chunks)| <= total
    decreases Chunks(total, chunk) - i
  {
    if i < Chunks(total, chunk) {
      var size := ChunkSize(total, chunk, i);
      var r := Clip(kernel(i), size);
      if r.Got? {
        FlattenSnoc(chunks, r.data);
        if |r.data| == size {
          ReadBound(kernel, total, chunk, i + 1, ofs + |r.data|,
                    calls + [Call(size, ofs, |r.data|)], chunks + [r.data]);
        }
      }
    }
  }

  /** The calls of a read follow one another through the file and stop at the first short one. */
  lemma {:induction false} ReadContiguous(kernel: nat -> Reply, total: nat, chunk: nat, ofs0: int,
                                          i: nat, ofs: int, calls: seq<Call>, chunks: seq<seq<byte>>)
    requires chunk > 0 && Contiguous(calls, ofs0) && ofs == ofs0 + Moved(calls)
    requires |calls| > 0 ==> calls[|calls| - 1].ret == calls[|calls| - 1].size > 0
    ensures Contiguous(SeqRead(kernel, total, chunk, i, ofs, calls, chunks).calls, ofs0)
    decreases Chunks(total, chunk) - i
  {
    if i < Chunks(total, chunk) {
      var size := ChunkSize(total, chunk, i);
      var r := Clip(kernel(i), size);
      var call := Call(size, ofs, if r.Fail? then -1 else |r.data|);
      ContiguousSnoc(calls, call, ofs0);
      MovedSnoc(calls, call);
      if r.Got? && |r.data| == size {
        ReadContiguous(kernel, total, chunk, ofs0, i + 1, ofs + |r.data|, calls + [call], chunks + [r.data]);
      }
    }
  }

  /** What the calls of a read moved is the data obtained. */
  lemma {:induction false} ReadMoved(kernel: nat -> Reply, total: nat, chunk: nat,
                                     i: nat, ofs: int, calls: seq<Call>, chunks: seq<seq<byte>>)
    requires chunk > 0 && Moved(calls) == |Flatten(chunks)|
    ensures var run := SeqRead(kernel, total, chunk, i, ofs, calls, chunks);
            Moved(run.calls) == |Flatten(run.chunks)|
    decreases Chunks(total, chunk) - i
  {
    if i < Chunks(total, chunk) {
      var size := ChunkSize(total, chunk, i);
      var r := Clip(kernel(i), size);
      var call := Call(size, ofs, if r.Fail? then -1 else |r.data|);
      MovedSnoc(calls, call);
      if r.Got? {
        FlattenSnoc(chunks, r.data);
        if |r.data| == size {
          ReadMoved(kernel, total, chunk, i + 1, ofs + |r.data|, calls + [call], chunks + [r.data]);
        }
      }
    }
  }

  /** A prefix of contiguous calls is contiguous. */
  lemma {:induction false} ContiguousPrefix(calls: seq<Call>, calls': seq<Call>, ofs: int)
    requires calls <= calls' && Contiguous(calls', ofs)
    ensures Contiguous(calls, ofs)
  {
    forall k | 0 <= k < |calls| ensures InPlace(calls, ofs, k) {
      assert InPlace(calls', ofs, k) && calls'[..k] == calls[..k];
    }
  }

  function Min(a: nat, b: nat): nat { if a < b then a else b }

  /** The bytes of `file` from `ofs` on, at most `n` of them. */
  function FileRange(file: seq<byte>, ofs: nat, n: nat): seq<byte> {
    file[Min(ofs, |file|)..Min(ofs + n, |file|)]
  }

  /** The kernel of a regular file `file`: chunk `i` finds what the file holds from its offset. */
  function FileKernel(file: seq<byte>, ofs: nat, chunk: nat): nat -> Reply {
    (i: nat) => Got(file[Min(ofs + Offset(chunk, i), |file|)..])
  }

  /** One more chunk of the file: either it is whole, or the file ends in it. */
  lemma {:induction false} FileStep(file: seq<byte>, ofs: nat, p: nat, size: nat, total: nat)
    requires p + size <= total
    ensures FileRange(file, ofs, p) + FileRange(file, ofs + p, size) == FileRange(file, ofs, p + size)
    ensures |FileRange(file, ofs + p, size)| < size ==> FileRange(file, ofs, p + size) == FileRange(file, ofs, total)
  {
  }

  /** How much of the request lies before chunk `i`. */
  function Reached(total: nat, chunk: nat, i: nat): nat
    requires chunk > 0
  {
    if i < Chunks(total, chunk) then Offset(chunk, i) else total
  }

  /** The part of the file that chunk `i` finds. */
  function FilePiece(file: seq<byte>, ofs: nat, total: nat, chunk: nat, i: nat): seq<byte>
    requires chunk > 0 && i < Chunks(total, chunk)
  {
    FileRange(file, ofs + Offset(chunk, i), ChunkSize(total, chunk, i))
  }

  ghost predicate ServesAt(kernel: nat -> Reply, file: seq<byte>, ofs: nat, total: nat, chunk: nat, i: nat)
    requires chunk > 0 && i < Chunks(total, chunk)
  {
    Clip(kernel(i), ChunkSize(total, chunk, i)) == Got(FilePiece(file, ofs, total, chunk, i))
  }

  lemma {:induction false} FileKernelServes(file: seq<byte>, ofs: nat, total: nat, chunk: nat, i: nat)
    requires chunk > 0 && i < Chunks(total, chunk)
    ensures ServesAt(FileKernel(file, ofs, chunk), file, ofs, total, chunk, i)
  {
    var p := Offset(chunk, i);
    assert FileKernel(file, ofs, chunk)(i) == Got(file[Min(ofs + p, |file|)..]);
    ClipIsRange(file, ofs + p, ChunkSize(total, chunk, i));
  }

  lemma {:induction false} ClipIsRange(file: seq<byte>, at: nat, size: nat)
    ensures Clip(Got(file[Min(at, |file|)..]), size) == Got(FileRange(file, at, size))
  {
  }

  /** Chunk `i` of a regular file extends the range read so far. */
  lemma {:induction false} PieceExtends(file: seq<byte>, ofs: nat, total: nat, chunk: nat, i: nat)
    requires chunk > 0 && i < Chunks(total, chunk)
    ensures var d := FilePiece(file, ofs, total, chunk, i);
            var range := FileRange(file, ofs, Reached(total, chunk, i)) + d;
            && range == FileRange(file, ofs, Reached(total, chunk, i + 1))
            && (|d| < ChunkSize(total, chunk, i) ==> range == FileRange(file, ofs, total))
  {
    FileStep(file, ofs, Offset(chunk, i), ChunkSize(total, chunk, i), total);
  }

  lemma {:induction false} SeqReadOfFile(kernel: nat -> Reply, file: seq<byte>, ofs: nat, total: nat, chunk: nat,
                                         i: nat, at: int, calls: seq<Call>, chunks: seq<seq<byte>>)
    requires chunk > 0 && forall c :: 0 <= c < Chunks(total, chunk) ==> ServesAt(kernel, file, ofs, total, chunk, c)
    requires Flatten(chunks) == FileRange(file, ofs, Reached(total, chunk, i))
    ensures var run := SeqRead(kernel, total, chunk, i, at, calls, chunks);
            Flatten(run.chunks) == FileRange(file, ofs, total) && run.error == None
    decreases Chunks(total, chunk) - i
  {
    if i < Chunks(total, chunk) {
      assert ServesAt(kernel, file, ofs, total, chunk, i);
      var d := FilePiece(file, ofs, total, chunk, i);
      PieceExtends(file, ofs, total, chunk, i);
      FlattenSnoc(chunks, d);
      if |d| == ChunkSize(total, chunk, i) {
        SeqReadOfFile(kernel, file, ofs, total, chunk, i + 1, at + |d|, calls + [Call(|d|, at, |d|)], chunks + [d]);
      }
    }
  }

  /** Reading a regular file yields exactly the requested range of it, and no error. */
  lemma {:induction false} ReadOfFile(file: seq<byte>, ofs: nat, total: nat, chunk: nat)
    requires chunk > 0
    ensures var run := Read(FileKernel(file, ofs, chunk), total, chunk, ofs);
            Flatten(run.chunks) == FileRange(file, ofs, total) && run.error == None
  {
    forall c | 0 <= c < Chunks(total, chunk)
      ensures ServesAt(FileKernel(file, ofs, chunk), file, ofs, total, chunk, c)
    {
      FileKernelServes(file, ofs, total, chunk, c);
    }
    SeqReadOfFile(FileKernel(file, ofs, chunk), file, ofs, total, chunk, 0, ofs, [], []);
  }

  // ---- the sequential write ----------------------------------------------------------------

  /** The calls made, the bytes the file took, how many chunks it took whole, and the error code
      if the last call failed. */
  datatype WriteRun = WriteRun(calls: seq<Call>, accepted: nat, full: nat, error: Option<nat>)

  function SeqWrite(kernel: nat -> Verdict, total: nat, chunk: nat,
                    i: nat, ofs: int, calls: seq<Call>, accepted: nat): WriteRun
    requires chunk > 0
    decreases Chunks(total, chunk) - i
  {
    if i >= Chunks(total, chunk) then WriteRun(calls, accepted, i, None)
    else
      var size := ChunkSize(total, chunk, i);
      match ClipCount(kernel(i), size)
      case Refuse(e) => WriteRun(calls + [Call(size, ofs, -1)], accepted, i, Some(e))
      case Accept(r) =>
        var calls' := calls + [Call(size, ofs, r)];
        if r < size then WriteRun(calls', accepted + r, i, None)
        else SeqWrite(kernel, total, chunk, i + 1, ofs + r, calls', accepted + r)
  }

  function Write(kernel: nat -> Verdict, total: nat, chunk: nat, ofs: int): WriteRun
    requires chunk > 0
  {
    SeqWrite(kernel, total, chunk, 0, ofs, [], 0)
  }

  function WriteResult(run: WriteRun): int {
    if run.error.Some? && |run.calls| == 1 then -1 else run.accepted
  }

  lemma {:induction false} WriteGrows(kernel: nat -> Verdict, total: nat, chunk: nat,
                                      i: nat, ofs: int, calls: seq<Call>, accepted: nat)
    requires chunk > 0 && i <= Chunks(total, chunk)
    ensures var run := SeqWrite(kernel, total, chunk, i, ofs, calls, accepted);
            calls <= run.calls && accepted <= run.accepted && i <= run.full <= Chunks(total, chunk)
    decreases Chunks(total, chunk) - i
  {
    if i < Chunks(total, chunk) {
      var size := ChunkSize(total, chunk, i);
      var v := ClipCount(kernel(i), size);
      if v.Accept? && v.count == size {
        WriteGrows(kernel, total, chunk, i + 1, ofs + v.count,
                   calls + [Call(size, ofs, v.count)], accepted + v.count);
      }
    }
  }

  /** So do the calls of a write. */
  lemma {:induction false} WriteContiguous(kernel: nat -> Verdict, total: nat, chunk: nat, ofs0: int,
                                           i: nat, ofs: int, calls: seq<Call>, accepted: nat)
    requires chunk > 0 && Contiguous(calls, ofs0) && ofs == ofs0 + Moved(calls)
    requires |calls| > 0 ==> calls[|calls| - 1].ret == calls[|calls| - 1].size > 0
    ensures Contiguous(SeqWrite(kernel, total, chunk, i, ofs, calls, accepted).calls, ofs0)
    decreases Chunks(total, chunk) - i
  {
    if i < Chunks(total, chunk) {
      var size := ChunkSize(total, chunk, i);
      var v := ClipCount(kernel(i), size);
      var call := Call(size, ofs, if v.Refuse? then -1 else v.count);
      ContiguousSnoc(calls, call, ofs0);
      MovedSnoc(calls, call);
      if v.Accept? && v.count == size {
        WriteContiguous(kernel, total, chunk, ofs0, i + 1, ofs + v.count, calls + [call], accepted + v.count);
      }
    }
  }

  /** What the calls moved is what the file accepted. */
  lemma {:induction false} WriteMoved(kernel: nat -> Verdict, total: nat, chunk: nat,
                                      i: nat, ofs: int, calls: seq<Call>, accepted: nat)
    requires chunk > 0 && Moved(calls) == accepted
    ensures var run := SeqWrite(kernel, total, chunk, i, ofs, calls, accepted);
            Moved(run.calls) == run.accepted
    decreases Chunks(total, chunk) - i
  {
    if i < Chunks(total, chunk) {
      var size := ChunkSize(total, chunk, i);
      var v := ClipCount(kernel(i), size);
      var call := Call(size, ofs, if v.Refuse? then -1 else v.count);
      MovedSnoc(calls, call);
      if v.Accept? && v.count == size {
        WriteMoved(kernel, total, chunk, i + 1, ofs + v.count, calls + [call], accepted + v.count);
      }
    }
  }

  /** A write that never meets a short, empty or failed answer hands over everything. */
  lemma {:induction false} WriteAll(kernel: nat -> Verdict, total: nat, chunk: nat,
                                    i: nat, ofs: int, calls: seq<Call>, accepted: nat)
    requires chunk > 0 && i <= Chunks(total, chunk)
    requires accepted == if i < Chunks(total, chunk) then Offset(chunk, i) else total
    ensures var run := SeqWrite(kernel, total, chunk, i, ofs, calls, accepted);
            run.accepted <= total && (run.full == Chunks(total, chunk) <==> run.accepted == total)
    decreases Chunks(total, chunk) - i
  {
    if i < Chunks(total, chunk) {
      var size := ChunkSize(total, chunk, i);
      var v := ClipCount(kernel(i), size);
      if v.Accept? && v.count == size {
        WriteAll(kernel, total, chunk, i + 1, ofs + v.count, calls + [Call(size, ofs, v.count)], accepted + v.count);
      }
    }
  }

  /** Call `k` of a write offers chunk `k`, and its value is the system's answer: -1, or how much of
      the chunk was taken. */
  ghost predicate WriteCall(kernel: nat -> Verdict, total: nat, chunk: nat, calls: seq<Call>, k: nat)
    requires chunk > 0 && k < |calls|
  {
    && k < Chunks(total, chunk) && calls[k].size == ChunkSize(total, chunk, k)
    && match kernel(k)
       case Refuse(_) => calls[k].ret == -1
       case Accept(n) => calls[k].ret == if n <= calls[k].size then n else calls[k].size
  }

  ghost predicate WriteLog(kernel: nat -> Verdict, total: nat, chunk: nat, calls: seq<Call>)
    requires chunk > 0
  {
    forall k :: 0 <= k < |calls| ==> WriteCall(kernel, total, chunk, calls, k)
  }

  ghost predicate WriteFinished(kernel: nat -> Verdict, total: nat, chunk: nat, run: WriteRun)
    requires chunk > 0
  {
    var last := |run.calls| - 1;
    && WriteLog(kernel, total, chunk, run.calls)
    && (last + 1 == Chunks(total, chunk) || (last >= 0 && run.calls[last].ret < run.calls[last].size))
    && run.full == (if last >= 0 && run.calls[last].ret < run.calls[last].size then last else last + 1)
    && (run.error.Some? <==> last >= 0 && run.calls[last].ret == -1)
    && (run.error.Some? ==> kernel(last) == Refuse(run.error.value))
  }

  /** The calls of the plain write are the system's answers, too; it ends in the same way, and its
      whole chunks are those of the calls that took all they were offered. */
  lemma {:induction false} WriteAnswers(kernel: nat -> Verdict, total: nat, chunk: nat,
                                        i: nat, ofs: int, calls: seq<Call>, accepted: nat)
    requires chunk > 0 && |calls| == i <= Chunks(total, chunk) && WriteLog(kernel, total, chunk, calls)
    requires i > 0 ==> calls[i - 1].ret == calls[i - 1].size
    ensures WriteFinished(kernel, total, chunk, SeqWrite(kernel, total, chunk, i, ofs, calls, accepted))
    decreases Chunks(total, chunk) - i
  {
    if i < Chunks(total, chunk) {
      var size := ChunkSize(total, chunk, i);
      var v := ClipCount(kernel(i), size);
      var calls' := calls + [Call(size, ofs, if v.Refuse? then -1 else v.count)];
      forall k | 0 <= k < |calls'| ensures WriteCall(kernel, total, chunk, calls', k) {
        if k < i { assert WriteCall(kernel, total, chunk, calls, k); }
      }
      if v.Accept? && v.count == size {
        WriteAnswers(kernel, total, chunk, i + 1, ofs + v.count, calls', accepted + v.count);
      }
    } else if i > 0 {
      assert WriteCall(kernel, total, chunk, calls, i - 1);
    }
  }
}
