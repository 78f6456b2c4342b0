/** The copy loops of readv and writev: a cursor walks the user's buffers and keeps its place
    from one chunk to the next. */
module IoCursor {
  import opened Bytes
  import opened Iovec
  import opened IoMachine

  /** The loop that adds up the lengths of the buffers. */
  method TotalSize(iov: seq<Iovec>) returns (total: nat)
    ensures total == Total(iov)
  {
    total := 0;
    for i := 0 to |iov|
      invariant total == Prefix(iov, i)
    {
      total := total + iov[i].len;
    }
  }

  /** The cursor (`next_iov_num`, `iov_len_done`) stands at byte `p` of the stream. */
  predicate CursorAt(iov: seq<Iovec>, next: nat, done: nat, p: nat) {
    && next <= |iov|
    && (next < |iov| ==> done <= iov[next].len)
    && (next == |iov| ==> done == 0)
    && p == Prefix(iov, next) + done
  }

  /** The cursor after `size` more bytes of buffer `n`: further on in it, or at the next one. */
  lemma {:induction false} CursorMoves(iov: seq<Iovec>, n: nat, done: nat, p: nat, size: nat)
    requires CursorAt(iov, n, done, p) && n < |iov| && done + size <= iov[n].len
    ensures CursorAt(iov, n, done + size, p + size)
    ensures done + size == iov[n].len ==> CursorAt(iov, n + 1, 0, p + size)
  {
  }

  lemma {:induction false} ScatterStep(mem0: seq<byte>, iov: seq<Iovec>, p: nat, d: seq<byte>,
                                       n: nat, done: nat, e: seq<byte>)
    requires Within(iov, |mem0|) && n < |iov| && done + |e| <= iov[n].len
    requires p + |d| == Prefix(iov, n) + done
    ensures p + |d| + |e| <= Total(iov)
    ensures Blit(Scatter(mem0, iov, p, d), iov[n].base + done, e) == Scatter(mem0, iov, p, d + e)
  {
    PrefixMonotone(iov, n + 1, |iov|);
    ScatterRun(Scatter(mem0, iov, p, d), iov, n, done, e);
    ScatterAppend(mem0, iov, p, d, e);
  }

  /** Copies the first `len` bytes of part `j` of the VE buffer over the user's buffers from the
      cursor on.  The buffers have room for them, so the loop always ends at its `break`. */
  method ScatterPart(m: Machine, iov: seq<Iovec>, j: nat, len: nat, next0: nat, done0: nat, ghost p: nat)
    returns (next: nat, done: nat)
    requires m.Valid() && j < m.slots && m.cargo[j].None? && 0 < len <= m.chunk
    requires Within(iov, m.mem.Length) && CursorAt(iov, next0, done0, p) && p + len <= Total(iov)
    modifies m`moved, m.ve, m.vh, m.mem
    ensures m.Valid() && CursorAt(iov, next, done, p + len)
    ensures m.mem[..] == Scatter(old(m.mem[..]), iov, p, old(m.VePart(j))[..len])
  {
    ghost var mem0, part := m.mem[..], m.VePart(j);
    next, done := next0, done0;
    var left, source: nat, n := len, 0, next0;
    while n < |iov|
      invariant 0 < left && source + left == len
      invariant n <= |iov| && CursorAt(iov, n, done, p + source)
      invariant m.Valid() && m.VePart(j) == part
      invariant m.mem[..] == Scatter(mem0, iov, p, part[..source])
    {
      var room := iov[n].len - done;
      var size := if room < left then room else left;
      m.CopyOut(j, source, size, iov[n].base + done);
      CursorMoves(iov, n, done, p + source, size);
      ScatterStep(mem0, iov, p, part[..source], n, done, part[source..source + size]);
      assert part[..source] + part[source..source + size] == part[..source + size];
      if 0 >= left - size {
        if room > left {
          done, next := done + left, n;
        } else {
          done, next := 0, n + 1;
        }
        return;
      }
      done, left, source, n := 0, left - size, source + size, n + 1;
    }
    assert false;
  }

  lemma {:induction false} GatherStep(mem: seq<byte>, iov: seq<Iovec>, p: nat, source: nat,
                                      n: nat, done: nat, size: nat)
    requires Within(iov, |mem|) && n < |iov| && done + size <= iov[n].len
    requires p + source == Prefix(iov, n) + done
    ensures p + source + size <= Total(iov)
    ensures Gather(mem, iov, |iov|)[p..p + source] + mem[iov[n].base + done..iov[n].base + done + size]
            == Gather(mem, iov, |iov|)[p..p + source + size]
  {
    GatherRun(mem, iov, n, done, size);
    var g := Gather(mem, iov, |iov|);
    assert g[p..p + source] + g[p + source..p + source + size] == g[p..p + source + size];
  }

  /** Copies `size` bytes of buffer `n` behind the `target` bytes that are already in place. */
  method GatherBlock(m: Machine, iov: seq<Iovec>, j: nat, target: nat, size: nat, n: nat, done: nat,
                     ghost p: nat, ghost stream: seq<byte>)
    requires m.Valid() && j < m.slots && m.cargo[j].None? && target + size <= m.chunk
    requires Within(iov, m.mem.Length) && n < |iov| && done + size <= iov[n].len
    requires CursorAt(iov, n, done, p + target) && p + target <= |stream|
    requires stream == Gather(m.mem[..], iov, |iov|)
    requires m.VePart(j)[..target] == stream[p..p + target]
    modifies m`moved, m.ve, m.vh
    ensures m.Valid() && p + target + size <= |stream|
    ensures m.VePart(j)[..target + size] == stream[p..p + target + size]
  {
    ghost var mem, before := m.mem[..], m.VePart(j);
    ghost var block := mem[iov[n].base + done..iov[n].base + done + size];
    m.CopyIn(j, target, size, iov[n].base + done);
    assert m.mem[..] == mem;
    assert m.mem[iov[n].base + done..iov[n].base + done + size] == block;
    GatherStep(mem, iov, p, target, n, done, size);
    assert Blit(before, target, block)[..target + size] == before[..target] + block;
  }

  /** Fills part `j` of the VE buffer with the next `len` bytes of the user's buffers.  `left` is
      what the chunk still lacks at the end: always nothing. */
  method GatherPart(m: Machine, iov: seq<Iovec>, j: nat, len: nat, next0: nat, done0: nat, ghost p: nat)
    returns (next: nat, done: nat, left: nat)
    requires m.Valid() && j < m.slots && m.cargo[j].None? && 0 < len <= m.chunk
    requires Within(iov, m.mem.Length) && CursorAt(iov, next0, done0, p) && p + len <= Total(iov)
    modifies m`moved, m.ve, m.vh
    ensures m.Valid() && CursorAt(iov, next, done, p + len) && left == 0
    ensures m.VePart(j)[..len] == Gather(m.mem[..], iov, |iov|)[p..p + len]
  {
    ghost var mem := m.mem[..];
    ghost var stream := Gather(mem, iov, |iov|);
    next, done, left := next0, done0, len;
    var target: nat, n := 0, next0;
    while n < |iov|
      invariant 0 < left && target + left == len
      invariant n <= |iov| && CursorAt(iov, n, done, p + target)
      invariant m.Valid() && m.mem[..] == mem
      invariant m.VePart(j)[..target] == stream[p..p + target]
    {
      var room := iov[n].len - done;
      var size := if room < left then room else left;
      GatherBlock(m, iov, j, target, size, n, done, p, stream);
      CursorMoves(iov, n, done, p + target, size);
      if 0 >= left - size {
        if room > left {
          done, next := done + left, n;
        } else {
          done, next := 0, n + 1;
        }
        left := left - size;
        return;
      }
      done, left, target, n := 0, left - size, target + size, n + 1;
    }
    assert false;
  }
}
