/** The machine one accelerated request runs on: user memory, the VE and VH transfer buffers, the
    DMA engine and the operating system.

    The buffers are cut into `slots` parts of `chunk` bytes.  A DMA moves its bytes a few at a
    time, at moments nobody controls, between its post and the wait that finds it complete; the
    operating system and the engine answer as they like (`reader`, `writer`, `postOk`, `exc`). */
module IoMachine {
  import opened Bytes
  import opened IoSpec
  import VecMemcpy

  /** `GET_DMA_SIZE`: rounded up to a multiple of 4. */
  function DmaSize(a: nat): nat { (a + 3) / 4 * 4 }

  /** Rounding up covers the data and never leaves the part of the buffer it lies in. */
  lemma {:induction false} DmaSizeStaysInside(a: nat, chunk: nat)
    requires 0 < a <= chunk && chunk % 4 == 0
    ensures a <= DmaSize(a) < a + 4 && DmaSize(a) <= chunk && DmaSize(a) % 4 == 0
  {
  }

  /** A posted DMA: its number, its direction, and the bytes its source held when it was posted. */
  datatype Cargo = Cargo(serial: nat, toVe: bool, sent: seq<byte>)

  lemma {:induction false} PartFits(j: nat, slots: nat, chunk: nat)
    requires j < slots
    ensures Offset(chunk, j) + chunk <= Offset(chunk, slots)
  {
    if j + 1 < slots { PartFits(j, slots - 1, chunk); }
  }

  /** Part `j` of a buffer cut into `slots` parts of `chunk` bytes. */
  function Part(s: seq<byte>, slots: nat, chunk: nat, j: nat): (r: seq<byte>)
    requires |s| == Offset(chunk, slots) && j < slots
    ensures |r| == chunk
  {
    PartFits(j, slots, chunk);
    s[Offset(chunk, j)..Offset(chunk, j) + chunk]
  }

  lemma {:induction false} PartSlice(s: seq<byte>, slots: nat, chunk: nat, j: nat, off: nat, len: nat)
    requires |s| == Offset(chunk, slots) && j < slots && off + len <= chunk
    ensures Offset(chunk, j) + off + len <= |s|
    ensures s[Offset(chunk, j) + off..Offset(chunk, j) + off + len] == Part(s, slots, chunk, j)[off..off + len]
  {
    PartFits(j, slots, chunk);
  }

  /** Writing inside one part changes that part and no other. */
  lemma {:induction false} PartBlit(s: seq<byte>, slots: nat, chunk: nat, j: nat, off: nat, d: seq<byte>, k: nat)
    requires j < slots && k < slots && |s| == Offset(chunk, slots) && off + |d| <= chunk
    ensures Offset(chunk, j) + chunk <= |s|
    ensures Part(Blit(s, Offset(chunk, j) + off, d), slots, chunk, k)
            == if k == j then Blit(Part(s, slots, chunk, j), off, d) else Part(s, slots, chunk, k)
  {
    PartFits(j, slots, chunk);
    PartFits(k, slots, chunk);
    if k < j {
      PartFits(k, j, chunk);
      PartBlitOther(s, Offset(chunk, j), off, d, Offset(chunk, k), chunk);
    } else if j < k {
      PartFits(j, k, chunk);
      PartBlitOther(s, Offset(chunk, j), off, d, Offset(chunk, k), chunk);
    } else {
      PartBlitSame(s, Offset(chunk, j), chunk, off, d);
    }
  }

  lemma {:induction false} PartBlitSame(s: seq<byte>, base: nat, chunk: nat, off: nat, d: seq<byte>)
    requires base + chunk <= |s| && off + |d| <= chunk
    ensures Blit(s, base + off, d)[base..base + chunk] == Blit(s[base..base + chunk], off, d)
  {
  }

  lemma {:induction false} PartBlitOther(s: seq<byte>, base: nat, off: nat, d: seq<byte>, other: nat, chunk: nat)
    requires base + chunk <= |s| && other + chunk <= |s| && off + |d| <= chunk
    requires other + chunk <= base || base + chunk <= other
    ensures Blit(s, base + off, d)[other..other + chunk] == s[other..other + chunk]
  {
  }

  /** Store `d` at offset `off` of part `j`. */
  method WritePart(buf: array<byte>, slots: nat, chunk: nat, j: nat, off: nat, d: seq<byte>)
    requires buf.Length == Offset(chunk, slots) && j < slots && off + |d| <= chunk
    modifies buf
    ensures Part(buf[..], slots, chunk, j) == Blit(old(Part(buf[..], slots, chunk, j)), off, d)
    ensures forall k :: 0 <= k < slots && k != j ==>
              Part(buf[..], slots, chunk, k) == old(Part(buf[..], slots, chunk, k))
  {
    PartFits(j, slots, chunk);
    ghost var was := buf[..];
    VecMemcpy.Store(buf, Offset(chunk, j) + off, d);
    PartBlit(was, slots, chunk, j, off, d, j);
    forall k | 0 <= k < slots && k != j
      ensures Part(buf[..], slots, chunk, k) == Part(was, slots, chunk, k)
    {
      PartBlit(was, slots, chunk, j, off, d, k);
    }
  }

  /** Load `len` bytes at offset `off` of part `j`. */
  method LoadPart(buf: array<byte>, slots: nat, chunk: nat, j: nat, off: nat, len: nat) returns (d: seq<byte>)
    requires buf.Length == Offset(chunk, slots) && j < slots && off + len <= chunk
    ensures d == Part(buf[..], slots, chunk, j)[off..off + len]
  {
    PartSlice(buf[..], slots, chunk, j, off, len);
    d := buf[Offset(chunk, j) + off..Offset(chunk, j) + off + len];
    assert d == buf[..][Offset(chunk, j) + off..Offset(chunk, j) + off + len];
  }

  /** The state of a DMA that has moved `moved` bytes: its source still holds what was posted and,
      unless the engine is to report an exception, what it has moved is right. */
  ghost predicate Underway(sent: seq<byte>, moved: nat, fails: bool, src: seq<byte>, dst: seq<byte>) {
    && moved <= |sent| <= |src| == |dst|
    && src[..|sent|] == sent
    && (!fails ==> dst[..moved] == sent[..moved])
  }

  lemma {:induction false} UnderwayAdvances(sent: seq<byte>, moved: nat, fails: bool,
                                            src: seq<byte>, dst: seq<byte>, d: seq<byte>)
    requires Underway(sent, moved, fails, src, dst) && moved + |d| <= |sent|
    requires !fails ==> d == src[moved..moved + |d|]
    ensures Underway(sent, moved + |d|, fails, src, Blit(dst, moved, d))
  {
    if !fails {
      assert d == src[..|sent|][moved..moved + |d|];
      assert Blit(dst, moved, d)[..moved + |d|] == dst[..moved] + d;
      assert sent[..moved + |d|] == sent[..moved] + sent[moved..moved + |d|];
    }
  }

  // ---- what a request does with its handles ------------------------------------------------

  /** A DMA is posted with the handle of a slot, or its completion is reported through it. */
  datatype Use = Posted(slot: nat) | Reported(slot: nat)

  /** After these uses the handle of slot `j` is outstanding. */
  ghost predicate Open(log: seq<Use>, j: nat) {
    log != [] && var last := log[|log| - 1];
      if last.slot == j then last.Posted? else Open(log[..|log| - 1], j)
  }

  /** The discipline the descriptor ring asks of its callers: a handle is posted only while at
      rest, and waited for only between a post and the report of its completion. */
  ghost predicate Disciplined(log: seq<Use>) {
    log != [] ==>
      var init, last := log[..|log| - 1], log[|log| - 1];
      Disciplined(init) && Open(init, last.slot) == last.Reported?
  }

  lemma {:induction false} UseNext(log: seq<Use>, u: Use, j: nat)
    requires Disciplined(log) && Open(log, u.slot) == u.Reported?
    ensures Disciplined(log + [u])
    ensures Open(log + [u], j) == if j == u.slot then u.Posted? else Open(log, j)
  {
    assert (log + [u])[..|log|] == log;
  }

  function Times(log: seq<Use>, u: Use): nat {
    if log == [] then 0 else Times(log[..|log| - 1], u) + if log[|log| - 1] == u then 1 else 0
  }

  /** Every post is reported exactly once, but for the one that may still be outstanding. */
  lemma {:induction false} ReportedOnce(log: seq<Use>, j: nat)
    requires Disciplined(log)
    ensures Times(log, Posted(j)) == Times(log, Reported(j)) + if Open(log, j) then 1 else 0
  {
    if log != [] { ReportedOnce(log[..|log| - 1], j); }
  }

  class Machine {
    const slots: nat
    const chunk: nat
    const mvl: nat
    const ve: array<byte>
    const veAddr: nat
    const vh: array<byte>
    const mem: array<byte>
    const memAddr: nat
    const reader: nat -> Reply
    const writer: nat -> Verdict
    const postOk: nat -> bool
    const exc: nat -> nat

    /** What is in flight in each slot, and how many of its bytes have been moved. */
    var cargo: seq<Option<Cargo>>
    var moved: seq<nat>
    var calls: seq<Call>
    var posts: nat
    var errno: int
    /** The bytes the operating system has accepted. */
    var file: seq<byte>
    /** How the handles of the slots have been used. */
    ghost var log: seq<Use>

    ghost predicate Sized() {
      && 0 < slots && 0 < chunk && chunk % 4 == 0 && 0 < mvl
      && ve.Length == vh.Length == Offset(chunk, slots)
      && ve != vh && mem != ve && mem != vh
    }

    ghost function VePart(j: nat): seq<byte>
      requires Sized() && j < slots
      reads ve
    {
      Part(ve[..], slots, chunk, j)
    }

    ghost function VhPart(j: nat): seq<byte>
      requires Sized() && j < slots
      reads vh
    {
      Part(vh[..], slots, chunk, j)
    }

    ghost predicate InFlight(j: nat)
      requires Sized() && j < slots && |cargo| == |moved| == slots
      reads this`cargo, this`moved, ve, vh
    {
      cargo[j].Some? ==>
        var c := cargo[j].value;
        Underway(c.sent, moved[j], exc(c.serial) != 0,
                 if c.toVe then VhPart(j) else VePart(j), if c.toVe then VePart(j) else VhPart(j))
    }

    /** Exactly the handles of the slots in flight are outstanding. */
    ghost predicate Obedient()
      reads this`cargo, this`log
    {
      Disciplined(log) && forall j :: 0 <= j < |cargo| ==> Open(log, j) == cargo[j].Some?
    }

    ghost predicate Valid()
      reads this`cargo, this`moved, this`log, ve, vh
    {
      && Sized() && |cargo| == |moved| == slots && Obedient()
      && forall j :: 0 <= j < slots ==> InFlight(j)
    }

    constructor (slots: nat, chunk: nat, mvl: nat, ve: array<byte>, veAddr: nat, vh: array<byte>,
                 mem: array<byte>, memAddr: nat, reader: nat -> Reply, writer: nat -> Verdict,
                 postOk: nat -> bool, exc: nat -> nat, errno: int)
      requires 0 < slots && 0 < chunk && chunk % 4 == 0 && 0 < mvl
      requires ve.Length == vh.Length == Offset(chunk, slots)
      requires ve != vh && mem != ve && mem != vh
      ensures Valid() && calls == [] && posts == 0 && file == [] && this.errno == errno
      ensures cargo == seq(slots, _ => None)
      ensures this.slots == slots && this.chunk == chunk && this.ve == ve && this.vh == vh
      ensures this.mem == mem && this.reader == reader && this.writer == writer
      ensures this.postOk == postOk && this.exc == exc
    {
      this.slots, this.chunk, this.mvl := slots, chunk, mvl;
      this.ve, this.veAddr, this.vh, this.mem, this.memAddr := ve, veAddr, vh, mem, memAddr;
      this.reader, this.writer, this.postOk, this.exc := reader, writer, postOk, exc;
      cargo, moved := seq(slots, _ => None), seq(slots, _ => 0);
      calls, posts, this.errno, file, log := [], 0, errno, [], [];
    }

    /** When nothing is in flight, every successful post has been waited for exactly once, and no
        handle is open in the record. */
    lemma {:induction false} AllReported(j: nat)
      requires Obedient() && j < |cargo| && cargo[j].None?
      ensures !Open(log, j) && Times(log, Posted(j)) == Times(log, Reported(j))
    {
      ReportedOnce(log, j);
    }

    // ---- the DMA engine --------------------------------------------------------------------

    /** The parts of both buffers that no DMA is using hold what they held. */
    twostate predicate IdleKept()
      requires old(Valid()) && Valid()
      reads this`cargo, this`moved, this`log, ve, vh
    {
      forall k :: 0 <= k < slots && cargo[k].None? ==> VePart(k) == old(VePart(k)) && VhPart(k) == old(VhPart(k))
    }

    ghost function Source(j: nat): seq<byte>
      requires Sized() && j < slots && j < |cargo| && cargo[j].Some?
      reads this`cargo, this`moved, ve, vh
    {
      if cargo[j].value.toVe then VhPart(j) else VePart(j)
    }

    ghost function Target(j: nat): seq<byte>
      requires Sized() && j < slots && j < |cargo| && cargo[j].Some?
      reads this`cargo, this`moved, ve, vh
    {
      if cargo[j].value.toVe then VePart(j) else VhPart(j)
    }

    /** The next `count` bytes the DMA of slot `j` delivers; any bytes, if it is going to fail. */
    method NextBytes(j: nat, count: nat) returns (d: seq<byte>)
      requires Valid() && j < slots && cargo[j].Some? && moved[j] + count <= |cargo[j].value.sent|
      ensures |d| == count && moved[j] + count <= chunk
      ensures Underway(cargo[j].value.sent, moved[j] + count, exc(cargo[j].value.serial) != 0,
                       Source(j), Blit(Target(j), moved[j], d))
    {
      assert InFlight(j);
      var c := cargo[j].value;
      d := LoadPart(if c.toVe then vh else ve, slots, chunk, j, moved[j], count);
      if exc(c.serial) != 0 {
        d := *;
        if |d| != count { d := seq(count, _ => 0); }
      }
      UnderwayAdvances(c.sent, moved[j], exc(c.serial) != 0, Source(j), Target(j), d);
    }

    /** The DMA of slot `j` moves `count` more bytes. */
    method Advance(j: nat, count: nat)
      requires Valid() && j < slots && cargo[j].Some? && moved[j] + count <= |cargo[j].value.sent|
      modifies this`moved, ve, vh
      ensures Valid() && moved == old(moved)[j := old(moved[j]) + count]
      ensures forall k :: 0 <= k < slots && k != j ==> VePart(k) == old(VePart(k)) && VhPart(k) == old(VhPart(k))
    {
      var d := NextBytes(j, count);
      if cargo[j].value.toVe {
        WritePart(ve, slots, chunk, j, moved[j], d);
      } else {
        WritePart(vh, slots, chunk, j, moved[j], d);
      }
      moved := moved[j := moved[j] + count];
      forall k | 0 <= k < slots ensures InFlight(k) {
        assert old(InFlight(k));
        assert k != j ==> VePart(k) == old(VePart(k)) && VhPart(k) == old(VhPart(k));
      }
    }

    /** Time passes: every DMA in flight moves some of its remaining bytes, or none. */
    method Interfere()
      requires Valid()
      modifies this`moved, ve, vh
      ensures Valid() && IdleKept()
    {
      for j := 0 to slots
        invariant Valid()
        invariant IdleKept()
      {
        if cargo[j].Some? {
          var count: nat := *;
          if moved[j] + count <= |cargo[j].value.sent| {
            Advance(j, count);
          }
        }
      }
    }

    ghost method Record(u: Use)
      requires Disciplined(log) && u.slot < |cargo| && Open(log, u.slot) == u.Reported?
      requires cargo[u.slot].Some? == u.Posted?
      requires forall k :: 0 <= k < |cargo| && k != u.slot ==> Open(log, k) == cargo[k].Some?
      modifies this`log
      ensures Obedient() && log == old(log) + [u]
    {
      forall k: nat ensures Open(log + [u], k) == if k == u.slot then u.Posted? else Open(log, k) {
        UseNext(log, u, k);
      }
      UseNext(log, u, 0);
      log := log + [u];
    }

    /** A DMA starts in slot `j`; its source is remembered. */
    method Launch(j: nat, toVe: bool, size: nat)
      requires Valid() && j < slots && cargo[j].None? && size <= chunk
      modifies this`cargo, this`moved, this`log
      ensures Valid() && log == old(log) + [Posted(j)]
      ensures cargo == old(cargo)[j := Some(Cargo(posts, toVe,
                                    old((if toVe then VhPart(j) else VePart(j))[..size])))]
    {
      var sent := LoadPart(if toVe then vh else ve, slots, chunk, j, 0, size);
      cargo := cargo[j := Some(Cargo(posts, toVe, sent))];
      moved := moved[j := 0];
      Record(Posted(j));
      forall k | 0 <= k < slots ensures InFlight(k) {
        assert old(InFlight(k));
      }
    }

    /** The DMA of slot `j`, all of whose bytes have been moved, leaves the slot. */
    method Retire(j: nat)
      requires Valid() && j < slots && cargo[j].Some? && moved[j] == |cargo[j].value.sent|
      modifies this`cargo, this`log
      ensures Valid() && cargo == old(cargo)[j := None] && log == old(log) + [Reported(j)]
      ensures var c := old(cargo[j].value);
              && |c.sent| <= chunk
              && (exc(c.serial) == 0 ==> (if c.toVe then VePart(j) else VhPart(j))[..|c.sent|] == c.sent)
    {
      assert InFlight(j);
      cargo := cargo[j := None];
      Record(Reported(j));
      forall k | 0 <= k < slots ensures InFlight(k) {
        assert old(InFlight(k));
      }
    }

    /** Bytes are stored in part `j` of a buffer that no DMA is using. */
    method Fill(j: nat, inVe: bool, off: nat, d: seq<byte>)
      requires Valid() && j < slots && cargo[j].None? && off + |d| <= chunk
      modifies if inVe then ve else vh
      ensures Valid()
      ensures inVe ==> VePart(j) == Blit(old(VePart(j)), off, d)
      ensures !inVe ==> VhPart(j) == Blit(old(VhPart(j)), off, d)
    {
      if inVe {
        WritePart(ve, slots, chunk, j, off, d);
      } else {
        WritePart(vh, slots, chunk, j, off, d);
      }
      forall k | 0 <= k < slots ensures InFlight(k) {
        assert old(InFlight(k));
        assert k != j ==> VePart(k) == old(VePart(k)) && VhPart(k) == old(VhPart(k));
      }
    }

    /** The processor copies user memory into part `j` of the VE buffer. */
    method CopyIntoPart(j: nat, off: nat, len: nat, at: nat)
      requires Sized() && j < slots && off + len <= chunk && at + len <= mem.Length
      modifies ve
      ensures VePart(j) == Blit(old(VePart(j)), off, mem[at..at + len])
      ensures forall k :: 0 <= k < slots && k != j ==> VePart(k) == old(VePart(k))
    {
      PartFits(j, slots, chunk);
      ghost var was, data := ve[..], mem[at..at + len];
      var r := VecMemcpy.VecMemcpy(ve, veAddr, Offset(chunk, j) + off, mem, memAddr, at, len, mvl);
      PartBlit(was, slots, chunk, j, off, data, j);
      forall k | 0 <= k < slots && k != j ensures VePart(k) == old(VePart(k)) {
        PartBlit(was, slots, chunk, j, off, data, k);
      }
    }

    /** The same, for a part that no DMA is using. */
    method CopyIntoIdle(j: nat, off: nat, len: nat, at: nat)
      requires Valid() && j < slots && cargo[j].None? && off + len <= chunk && at + len <= mem.Length
      modifies ve
      ensures Valid() && VePart(j) == Blit(old(VePart(j)), off, mem[at..at + len])
    {
      CopyIntoPart(j, off, len, at);
      forall k | 0 <= k < slots ensures InFlight(k) {
        assert old(InFlight(k));
      }
    }

    // ---- the library and the operating system, with time passing -----------------------------

    /** `ve_dma_post`: the answer may be that the ring is full.  A part of the buffers that is in
        flight must not be posted again; the engine wants sizes that are multiples of 4. */
    method Post(j: nat, toVe: bool, size: nat) returns (ok: bool)
      requires Valid() && j < slots && cargo[j].None?
      requires 0 < size <= chunk && size % 4 == 0
      modifies this`moved, this`cargo, this`log, this`posts, ve, vh
      ensures Valid() && posts == old(posts) + 1 && ok == postOk(old(posts))
      ensures log == if ok then old(log) + [Posted(j)] else old(log)
      ensures cargo == if ok then old(cargo)[j := Some(Cargo(old(posts), toVe,
                                    old((if toVe then VhPart(j) else VePart(j))[..size])))]
                       else old(cargo)
    {
      Interfere();
      ok := postOk(posts);
      if ok {
        Launch(j, toVe, size);
      }
      posts := posts + 1;
    }

    /** `ve_dma_wait`: poll again and again until the DMA of slot `j` is complete.  Without an
        exception its destination then holds what its source held at the post. */
    method Wait(j: nat) returns (e: nat)
      requires Valid() && j < slots && cargo[j].Some?
      modifies this`moved, this`cargo, this`log, ve, vh
      ensures Valid() && log == old(log) + [Reported(j)]
      ensures cargo == old(cargo)[j := None] && e == exc(old(cargo[j].value.serial))
      ensures var c := old(cargo[j].value);
              && |c.sent| <= chunk
              && (e == 0 ==> (if c.toVe then VePart(j) else VhPart(j))[..|c.sent|] == c.sent)
    {
      var polls: nat := *;
      while polls > 0
        invariant Valid()
        decreases polls
        modifies this`moved, ve, vh
      {
        Interfere();
        polls := polls - 1;
      }
      assert InFlight(j);
      Advance(j, |cargo[j].value.sent| - moved[j]);
      e := exc(cargo[j].value.serial);
      Retire(j);
    }

    /** The processor copies from part `j` of the VE buffer to user memory. */
    method CopyOut(j: nat, off: nat, len: nat, at: nat)
      requires Valid() && j < slots && cargo[j].None? && off + len <= chunk && at + len <= mem.Length
      modifies this`moved, ve, vh, mem
      ensures Valid() && VePart(j) == old(VePart(j))
      ensures mem[..] == Blit(old(mem[..]), at, old(VePart(j))[off..off + len])
    {
      Interfere();
      PartSlice(ve[..], slots, chunk, j, off, len);
      var at0: nat := Offset(chunk, j) + off;
      assert ve[at0..at0 + len] == ve[..][at0..at0 + len];
      var r := VecMemcpy.VecMemcpy(mem, memAddr, at, ve, veAddr, at0, len, mvl);
    }

    /** The processor copies from user memory to part `j` of the VE buffer. */
    method CopyIn(j: nat, off: nat, len: nat, at: nat)
      requires Valid() && j < slots && cargo[j].None? && off + len <= chunk && at + len <= mem.Length
      modifies this`moved, ve, vh
      ensures Valid() && VePart(j) == Blit(old(VePart(j)), off, mem[at..at + len])
    {
      Interfere();
      CopyIntoIdle(j, off, len, at);
    }

    /** A read system call into part `j` of the VH buffer. */
    method SysRead(j: nat, size: nat, ofs: int) returns (r: int)
      requires Valid() && j < slots && cargo[j].None? && 0 < size <= chunk
      modifies this`moved, this`calls, this`errno, ve, vh
      ensures Valid() && calls == old(calls) + [Call(size, ofs, r)]
      ensures var a := Clip(reader(|old(calls)|), size);
              match a
              case Fail(e) => r == -1 && errno == e
              case Got(d) => r == |d| <= size && VhPart(j)[..r] == d && errno == old(errno)
    {
      Interfere();
      var a := Clip(reader(|calls|), size);
      match a {
        case Fail(e) =>
          errno := e;
          r := -1;
        case Got(d) =>
          Fill(j, false, 0, d);
          r := |d|;
      }
      calls := calls + [Call(size, ofs, r)];
    }

    /** A write system call from part `j` of the VH buffer. */
    method SysWrite(j: nat, size: nat, ofs: int) returns (r: int)
      requires Valid() && j < slots && cargo[j].None? && 0 < size <= chunk
      modifies this`moved, this`calls, this`errno, this`file, ve, vh
      ensures Valid() && calls == old(calls) + [Call(size, ofs, r)]
      ensures var a := ClipCount(writer(|old(calls)|), size);
              match a
              case Refuse(e) => r == -1 && errno == e && file == old(file)
              case Accept(n) => r == n <= size && errno == old(errno)
                                && file == old(file) + old(VhPart(j))[..n]
    {
      Interfere();
      var a := ClipCount(writer(|calls|), size);
      match a {
        case Refuse(e) =>
          errno := e;
          r := -1;
        case Accept(n) =>
          var taken := LoadPart(vh, slots, chunk, j, 0, n);
          file := file + taken;
          r := n;
      }
      calls := calls + [Call(size, ofs, r)];
    }
  }
}
