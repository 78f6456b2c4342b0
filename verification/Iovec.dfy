/** Scattered user memory: the stream position of every byte of a list of buffers. */
module Iovec {
  import opened Bytes

  datatype Iovec = Iovec(base: nat, len: nat)

  /** The bytes in the first `k` buffers. */
  function Prefix(iov: seq<Iovec>, k: nat): nat
    requires k <= |iov|
  {
    if k == 0 then 0 else Prefix(iov, k - 1) + iov[k - 1].len
  }

  function Total(iov: seq<Iovec>): nat { Prefix(iov, |iov|) }

  /** It is the sum of the lengths: nothing for no buffers, and each buffer adds its length. */
  lemma {:induction false} TotalIsSum(iov: seq<Iovec>, last: Iovec)
    ensures Total([]) == 0 && Total(iov + [last]) == Total(iov) + last.len
  {
    PrefixStays(iov, last, |iov|);
  }

  lemma {:induction false} PrefixStays(iov: seq<Iovec>, last: Iovec, k: nat)
    requires k <= |iov|
    ensures Prefix(iov + [last], k) == Prefix(iov, k)
  {
    if k > 0 { PrefixStays(iov, last, k - 1); }
  }

  /** Every buffer lies inside a memory of `size` bytes. */
  predicate Within(iov: seq<Iovec>, size: nat) {
    forall k :: 0 <= k < |iov| ==> iov[k].base + iov[k].len <= size
  }

  lemma {:induction false} PrefixMonotone(iov: seq<Iovec>, j: nat, k: nat)
    requires j <= k <= |iov|
    ensures Prefix(iov, j) <= Prefix(iov, k)
    decreases k
  {
    if j < k { PrefixMonotone(iov, j, k - 1); }
  }

  /** Where byte `p` of the buffers from number `k` on lives. */
  function AddrFrom(iov: seq<Iovec>, k: nat, p: nat): nat
    requires k <= |iov| && p < Total(iov) - Prefix(iov, k)
    decreases |iov| - k
  {
    if p < iov[k].len then iov[k].base + p else AddrFrom(iov, k + 1, p - iov[k].len)
  }

  function Addr(iov: seq<Iovec>, p: nat): nat
    requires p < Total(iov)
  {
    AddrFrom(iov, 0, p)
  }

  lemma {:induction false} AddrInside(iov: seq<Iovec>, k: nat, n: nat, t: nat)
    requires k <= n < |iov| && t < iov[n].len
    ensures Prefix(iov, k) <= Prefix(iov, n) && Prefix(iov, n) + t < Total(iov)
    ensures AddrFrom(iov, k, Prefix(iov, n) - Prefix(iov, k) + t) == iov[n].base + t
    decreases n - k
  {
    PrefixMonotone(iov, k, n);
    PrefixMonotone(iov, n + 1, |iov|);
    if k < n {
      PrefixMonotone(iov, k + 1, n);
      AddrInside(iov, k + 1, n, t);
    }
  }

  /** Byte `t` of buffer `n` is byte `Prefix(iov, n) + t` of the stream. */
  lemma {:induction false} AddrAt(iov: seq<Iovec>, n: nat, t: nat)
    requires n < |iov| && t < iov[n].len
    ensures Prefix(iov, n) + t < Total(iov)
    ensures Addr(iov, Prefix(iov, n) + t) == iov[n].base + t
  {
    AddrInside(iov, 0, n, t);
  }

  lemma {:induction false} AddrWithin(iov: seq<Iovec>, k: nat, p: nat, size: nat)
    requires Within(iov, size) && k <= |iov| && p < Total(iov) - Prefix(iov, k)
    ensures AddrFrom(iov, k, p) < size
    decreases |iov| - k
  {
    if p >= iov[k].len { AddrWithin(iov, k + 1, p - iov[k].len, size); }
  }

  /** Laying a stream over the buffers one byte at a time, from stream position `p` on. */
  function Scatter(mem: seq<byte>, iov: seq<Iovec>, p: nat, d: seq<byte>): (r: seq<byte>)
    requires Within(iov, |mem|) && p + |d| <= Total(iov)
    ensures |r| == |mem|
    decreases |d|
  {
    if d == [] then mem
    else
      AddrWithin(iov, 0, p, |mem|);
      Scatter(mem[Addr(iov, p) := d[0]], iov, p + 1, d[1..])
  }

  lemma {:induction false} ScatterAppend(mem: seq<byte>, iov: seq<Iovec>, p: nat, d: seq<byte>, e: seq<byte>)
    requires Within(iov, |mem|) && p + |d| + |e| <= Total(iov)
    ensures Scatter(Scatter(mem, iov, p, d), iov, p + |d|, e) == Scatter(mem, iov, p, d + e)
    decreases |d|
  {
    if d == [] {
      assert d + e == e;
    } else {
      AddrWithin(iov, 0, p, |mem|);
      assert (d + e)[1..] == d[1..] + e;
      ScatterAppend(mem[Addr(iov, p) := d[0]], iov, p + 1, d[1..], e);
    }
  }

  /** A run that stays inside one buffer is one block of memory. */
  lemma {:induction false} ScatterRun(mem: seq<byte>, iov: seq<Iovec>, n: nat, done: nat, d: seq<byte>)
    requires Within(iov, |mem|) && n < |iov| && done + |d| <= iov[n].len
    ensures Prefix(iov, n) + done + |d| <= Total(iov)
    ensures Scatter(mem, iov, Prefix(iov, n) + done, d) == Blit(mem, iov[n].base + done, d)
    decreases |d|
  {
    PrefixMonotone(iov, n + 1, |iov|);
    if d != [] {
      AddrAt(iov, n, done);
      var mem' := mem[iov[n].base + done := d[0]];
      ScatterRun(mem', iov, n, done + 1, d[1..]);
      assert Blit(mem', iov[n].base + done + 1, d[1..]) == Blit(mem, iov[n].base + done, d);
    }
  }

  /** No two stream positions share an address. */
  predicate Disjoint(iov: seq<Iovec>) {
    forall p, q :: 0 <= p < q < Total(iov) ==> Addr(iov, p) != Addr(iov, q)
  }

  /** What scattering means when the buffers do not overlap: byte `q` of the stream is at the
      address of its position, and every other byte of memory is what it was. */
  lemma {:induction false} ScatterMeaning(mem: seq<byte>, iov: seq<Iovec>, p: nat, d: seq<byte>)
    requires Within(iov, |mem|) && p + |d| <= Total(iov) && Disjoint(iov)
    ensures forall q :: p <= q < p + |d| ==>
              Addr(iov, q) < |mem| && Scatter(mem, iov, p, d)[Addr(iov, q)] == d[q - p]
    ensures forall x :: 0 <= x < |mem| && (forall q :: p <= q < p + |d| ==> Addr(iov, q) != x) ==>
              Scatter(mem, iov, p, d)[x] == mem[x]
    decreases |d|
  {
    if d != [] {
      AddrWithin(iov, 0, p, |mem|);
      var mem' := mem[Addr(iov, p) := d[0]];
      ScatterMeaning(mem', iov, p + 1, d[1..]);
      assert Scatter(mem, iov, p, d) == Scatter(mem', iov, p + 1, d[1..]);
      forall q | p <= q < p + |d|
        ensures Addr(iov, q) < |mem| && Scatter(mem, iov, p, d)[Addr(iov, q)] == d[q - p]
      {
        if q > p { assert d[1..][q - (p + 1)] == d[q - p]; }
      }
    }
  }

  /** The contents of the first `k` buffers, one after the other. */
  function Gather(mem: seq<byte>, iov: seq<Iovec>, k: nat): (r: seq<byte>)
    requires Within(iov, |mem|) && k <= |iov|
    ensures |r| == Prefix(iov, k)
  {
    if k == 0 then [] else Gather(mem, iov, k - 1) + mem[iov[k - 1].base..iov[k - 1].base + iov[k - 1].len]
  }

  lemma {:induction false} GatherPrefix(mem: seq<byte>, iov: seq<Iovec>, j: nat, k: nat)
    requires Within(iov, |mem|) && j <= k <= |iov|
    ensures Prefix(iov, j) <= Prefix(iov, k)
    ensures Gather(mem, iov, j) == Gather(mem, iov, k)[..Prefix(iov, j)]
    decreases k
  {
    if j < k {
      GatherPrefix(mem, iov, j, k - 1);
    }
  }

  lemma {:induction false} GatherAt(mem: seq<byte>, iov: seq<Iovec>, n: nat, t: nat)
    requires Within(iov, |mem|) && n < |iov| && t < iov[n].len
    ensures Prefix(iov, n) + t < Total(iov)
    ensures Gather(mem, iov, |iov|)[Prefix(iov, n) + t] == mem[iov[n].base + t]
  {
    GatherPrefix(mem, iov, n + 1, |iov|);
    assert Gather(mem, iov, n + 1)[Prefix(iov, n) + t] == mem[iov[n].base..iov[n].base + iov[n].len][t];
  }

  predicate SameAt<T(==)>(s: seq<T>, a: nat, u: seq<T>, b: nat, t: nat) {
    a + t < |s| && b + t < |u| && s[a + t] == u[b + t]
  }

  lemma {:induction false} SameSlices<T>(s: seq<T>, a: nat, u: seq<T>, b: nat, len: nat)
    requires a + len <= |s| && b + len <= |u|
    requires forall t :: 0 <= t < len ==> SameAt(s, a, u, b, t)
    ensures s[a..a + len] == u[b..b + len]
  {
    var l, r := s[a..a + len], u[b..b + len];
    forall t | 0 <= t < len ensures l[t] == r[t] { assert SameAt(s, a, u, b, t); }
  }

  lemma {:induction false} GatherSame(mem: seq<byte>, iov: seq<Iovec>, n: nat, done: nat, t: nat)
    requires Within(iov, |mem|) && n < |iov| && done + t < iov[n].len
    ensures SameAt(Gather(mem, iov, |iov|), Prefix(iov, n) + done, mem, iov[n].base + done, t)
  {
    GatherAt(mem, iov, n, done + t);
  }

  /** A slice of the gathered stream that stays inside one buffer is a block of memory. */
  lemma {:induction false} GatherRun(mem: seq<byte>, iov: seq<Iovec>, n: nat, done: nat, len: nat)
    requires Within(iov, |mem|) && n < |iov| && done + len <= iov[n].len
    ensures Prefix(iov, n) + done + len <= Total(iov)
    ensures Gather(mem, iov, |iov|)[Prefix(iov, n) + done..Prefix(iov, n) + done + len]
            == mem[iov[n].base + done..iov[n].base + done + len]
  {
    PrefixMonotone(iov, n + 1, |iov|);
    var whole, p, b := Gather(mem, iov, |iov|), Prefix(iov, n) + done, iov[n].base + done;
    forall t | 0 <= t < len ensures SameAt(whole, p, mem, b, t) {
      GatherSame(mem, iov, n, done, t);
    }
    SameSlices(whole, p, mem, b, len);
  }

  /** One buffer, gathered. */
  lemma {:induction false} GatherOne(mem: seq<byte>, base: nat, len: nat)
    requires base + len <= |mem|
    ensures Total([Iovec(base, len)]) == len
    ensures Gather(mem, [Iovec(base, len)], 1) == mem[base..base + len]
  {
    var iov := [Iovec(base, len)];
    assert Prefix(iov, 1) == Prefix(iov, 0) + len;
    assert Gather(mem, iov, 1) == Gather(mem, iov, 0) + mem[base..base + len];
  }

  /** One buffer, written from its start. */
  lemma {:induction false} ScatterOne(mem: seq<byte>, base: nat, len: nat, d: seq<byte>)
    requires base + len <= |mem| && |d| <= len
    ensures Total([Iovec(base, len)]) == len
    ensures Scatter(mem, [Iovec(base, len)], 0, d) == Blit(mem, base, d)
  {
    var iov := [Iovec(base, len)];
    assert Prefix(iov, 1) == Prefix(iov, 0) + len;
    ScatterRun(mem, iov, 0, 0, d);
  }

  /** Scattering a stream over buffers that do not overlap and gathering them gives it back. */
  lemma {:induction false} ScatterGather(mem: seq<byte>, iov: seq<Iovec>, d: seq<byte>)
    requires Within(iov, |mem|) && |d| == Total(iov) && Disjoint(iov)
    ensures Gather(Scatter(mem, iov, 0, d), iov, |iov|) == d
  {
    var mem' := Scatter(mem, iov, 0, d);
    ScatterMeaning(mem, iov, 0, d);
    forall q | 0 <= q < |d| ensures HoldsAt(mem', iov, d, q) {
      assert mem'[Addr(iov, q)] == d[q - 0];
    }
    GatherScattered(mem', iov, d, |iov|);
    assert d[..Total(iov)] == d;
  }

  /** Memory holds byte `q` of the stream at its address. */
  predicate HoldsAt(mem: seq<byte>, iov: seq<Iovec>, d: seq<byte>, q: nat)
    requires |d| == Total(iov) && q < |d|
  {
    Addr(iov, q) < |mem| && mem[Addr(iov, q)] == d[q]
  }

  lemma {:induction false} ByteScattered(mem': seq<byte>, iov: seq<Iovec>, d: seq<byte>, k: nat, t: nat)
    requires |d| == Total(iov) && k < |iov| && t < iov[k].len
    requires forall q :: 0 <= q < |d| ==> HoldsAt(mem', iov, d, q)
    ensures SameAt(mem', iov[k].base, d, Prefix(iov, k), t)
  {
    AddrAt(iov, k, t);
    assert HoldsAt(mem', iov, d, Prefix(iov, k) + t);
  }

  /** Buffer `k` holds its slice of the stream. */
  lemma {:induction false} BlockScattered(mem': seq<byte>, iov: seq<Iovec>, d: seq<byte>, k: nat)
    requires Within(iov, |mem'|) && |d| == Total(iov) && k < |iov|
    requires forall q :: 0 <= q < |d| ==> HoldsAt(mem', iov, d, q)
    ensures Prefix(iov, k) + iov[k].len <= |d|
    ensures mem'[iov[k].base..iov[k].base + iov[k].len] == d[Prefix(iov, k)..Prefix(iov, k) + iov[k].len]
  {
    PrefixMonotone(iov, k + 1, |iov|);
    var base, p, len := iov[k].base, Prefix(iov, k), iov[k].len;
    forall t | 0 <= t < len ensures SameAt(mem', base, d, p, t) {
      ByteScattered(mem', iov, d, k, t);
    }
    SameSlices(mem', base, d, p, len);
  }

  lemma {:induction false} SliceExtends(d: seq<byte>, p: nat, n: nat)
    requires p + n <= |d|
    ensures d[..p] + d[p..p + n] == d[..p + n]
  {
  }

  lemma {:induction false} GatherScattered(mem': seq<byte>, iov: seq<Iovec>, d: seq<byte>, k: nat)
    requires Within(iov, |mem'|) && |d| == Total(iov) && k <= |iov|
    requires forall q :: 0 <= q < |d| ==> HoldsAt(mem', iov, d, q)
    ensures Prefix(iov, k) <= |d| && Gather(mem', iov, k) == d[..Prefix(iov, k)]
    decreases k
  {
    if k > 0 {
      GatherScattered(mem', iov, d, k - 1);
      BlockScattered(mem', iov, d, k - 1);
      SliceExtends(d, Prefix(iov, k - 1), iov[k - 1].len);
    }
  }
}
