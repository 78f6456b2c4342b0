/** The vector memory copy of src/libsysve_vec_memcpy.S.

    A piece of VE memory is an array together with the address of its first byte; alignment is
    alignment of the address.  `mvl` is the machine's maximum vector length.  The 8-byte and
    the 4-byte vector paths of the routine differ in the element width `w` alone. */
module VecMemcpy {
  import opened Bytes

  /** Address arithmetic for an element width of 8 or 4 bytes, the only widths the routine uses. */
  function Mod(a: nat, w: nat): nat { if w == 8 then a % 8 else a % 4 }
  function Div(a: nat, w: nat): nat { if w == 8 then a / 8 else a / 4 }
  function Scale(a: nat, w: nat): nat { if w == 8 then a * 8 else a * 4 }

  /** They are the remainder, the quotient and the product of the width. */
  lemma {:induction false} Widths(a: nat, w: nat)
    requires w == 8 || w == 4
    ensures Mod(a, w) == a % w && Div(a, w) == a / w && Scale(a, w) == a * w
  {
  }

  /** Whole elements keep an aligned address aligned. */
  lemma {:induction false} StaysAligned(a: nat, k: nat, w: nat)
    requires w == 8 || w == 4
    requires Mod(a, w) == 0
    ensures Mod(a + Scale(k, w), w) == 0
  {
  }

  /** `dst0` with the first `done` bytes of the run laid over it from `d` on. */
  ghost predicate Laid(now: seq<byte>, d: nat, dst0: seq<byte>, run: seq<byte>, done: nat) {
    d + |run| <= |dst0| && done <= |run| && now == Blit(dst0, d, run[..done])
  }

  /** The run lies at `s`. */
  ghost predicate Holds(now: seq<byte>, s: nat, run: seq<byte>) {
    s + |run| <= |now| && now[s..s + |run|] == run
  }

  /** The first `done` bytes of the `n` have been copied, nothing else of `dst` has changed since
      it held `dst0`, and the source run still holds `run`. */
  ghost predicate Copied(dst: array<byte>, d: nat, src: array<byte>, s: nat,
                         dst0: seq<byte>, run: seq<byte>, done: nat)
    reads dst, src
  {
    && (dst != src || d + |run| <= s || s + |run| <= d)
    && Laid(dst[..], d, dst0, run, done) && Holds(src[..], s, run)
  }

  /** Store a loaded run. */
  method Store(dst: array<byte>, p: nat, loaded: seq<byte>)
    requires p + |loaded| <= dst.Length
    modifies dst
    ensures dst[..] == Blit(old(dst[..]), p, loaded)
  {
    forall m | 0 <= m < |loaded| {
      dst[p + m] := loaded[m];
    }
    assert dst[..] == old(dst[..])[..p] + loaded + old(dst[..])[p + |loaded|..];
  }

  /** A part of the run, read where it lies. */
  lemma {:induction false} LoadsRun(now: seq<byte>, s: nat, run: seq<byte>, done: nat, k: nat)
    requires Holds(now, s, run) && done + k <= |run|
    ensures now[s + done..s + done + k] == run[done..done + k]
  {
    var there := now[s + done..s + done + k];
    assert forall i :: 0 <= i < k ==> there[i] == now[s..s + |run|][done + i];
  }

  /** A store that misses the run leaves it alone. */
  lemma {:induction false} StoreMisses(before: seq<byte>, now: seq<byte>, p: nat, loaded: seq<byte>,
                                       s: nat, run: seq<byte>)
    requires p + |loaded| <= |before| && now == Blit(before, p, loaded)
    requires Holds(before, s, run) && (p + |loaded| <= s || s + |run| <= p)
    ensures Holds(now, s, run)
  {
    assert now[s..s + |run|] == before[s..s + |run|];
  }

  /** A store of the next `k` bytes of the run. */
  lemma {:induction false} StoreExtends(before: seq<byte>, now: seq<byte>, d: nat,
                                        dst0: seq<byte>, run: seq<byte>, done: nat, k: nat, p: nat, loaded: seq<byte>)
    requires Laid(before, d, dst0, run, done) && done + k <= |run|
    requires p == d + done && loaded == run[done..done + k] && now == Blit(before, p, loaded)
    ensures Laid(now, d, dst0, run, done + k)
  {
    BlitAppend(dst0, d, run[..done], run[done..done + k]);
    assert run[..done] + run[done..done + k] == run[..done + k];
  }

  /** Load `k` bytes. */
  method Load(src: array<byte>, q: nat, k: nat, ghost s: nat, ghost run: seq<byte>, ghost done: nat)
    returns (loaded: seq<byte>)
    requires Holds(src[..], s, run) && q == s + done && done + k <= |run|
    ensures loaded == run[done..done + k] && |loaded| == k
  {
    loaded := src[q..q + k];
    assert loaded == src[..][q..q + k];
    LoadsRun(src[..], s, run, done, k);
  }

  /** Store `loaded` next to or apart from the run at `s`. */
  method StoreApart(dst: array<byte>, p: nat, loaded: seq<byte>, src: array<byte>, ghost s: nat, ghost run: seq<byte>)
    requires p + |loaded| <= dst.Length && Holds(src[..], s, run)
    requires dst != src || p + |loaded| <= s || s + |run| <= p
    modifies dst
    ensures dst[..] == Blit(old(dst[..]), p, loaded) && Holds(src[..], s, run)
  {
    ghost var before := src[..];
    Store(dst, p, loaded);
    if dst == src {
      StoreMisses(before, dst[..], p, loaded, s, run);
    } else {
      assert src[..] == before;
    }
  }

  /** Load `k` bytes, then store them. */
  method Move(dst: array<byte>, p: nat, src: array<byte>, q: nat, k: nat,
              ghost d: nat, ghost s: nat, ghost dst0: seq<byte>, ghost run: seq<byte>)
    requires d <= p && Copied(dst, d, src, s, dst0, run, p - d)
    requires q - s == p - d && p - d + k <= |run|
    modifies dst
    ensures Copied(dst, d, src, s, dst0, run, p - d + k)
  {
    ghost var before, done := dst[..], p - d;
    var loaded := Load(src, q, k, s, run, done);
    StoreApart(dst, p, loaded, src, s, run);
    StoreExtends(before, dst[..], d, dst0, run, done, k, p, loaded);
  }

  /** `lvl vl; vld; vst`: one vector load and store.  The hardware wants a vector length within
      the machine's limit and both addresses aligned to the element width. */
  method VectorMove(dst: array<byte>, da: nat, p: nat, src: array<byte>, sa: nat, q: nat,
                    w: nat, vl: nat, mvl: nat,
                    ghost d: nat, ghost s: nat, ghost dst0: seq<byte>, ghost run: seq<byte>)
    requires w == 8 || w == 4
    requires 1 <= vl <= mvl
    requires Mod(da + p, w) == 0 && Mod(sa + q, w) == 0
    requires d <= p && Copied(dst, d, src, s, dst0, run, p - d)
    requires q - s == p - d && p - d + Scale(vl, w) <= |run|
    modifies dst
    ensures Copied(dst, d, src, s, dst0, run, p - d + Scale(vl, w))
  {
    Move(dst, p, src, q, Scale(vl, w), d, s, dst0, run);
  }

  /** `.L_post8` and `.L_post4`: byte by byte until nothing is left. */
  method TailBytes(dst: array<byte>, p0: nat, src: array<byte>, q0: nat, i0: nat,
                   ghost d: nat, ghost s: nat, ghost dst0: seq<byte>, ghost run: seq<byte>)
    requires d <= p0 && Copied(dst, d, src, s, dst0, run, p0 - d)
    requires q0 - s == p0 - d && p0 - d + i0 == |run|
    requires i0 > 0
    modifies dst
    ensures Copied(dst, d, src, s, dst0, run, |run|)
  {
    var p, q, i := p0, q0, i0;
    while true
      invariant d <= p && q - s == p - d && p - d + i == |run| && i > 0
      invariant Copied(dst, d, src, s, dst0, run, p - d)
      decreases i
    {
      Move(dst, p, src, q, 1, d, s, dst0, run);
      p, q, i := p + 1, q + 1, i - 1;
      if i <= 0 { break; }
    }
  }

  /** One byte further on. */
  lemma {:induction false} NextByte(a: nat, w: nat)
    requires w == 8 || w == 4
    ensures Mod(a + 1, w) == if Mod(a, w) + 1 == w then 0 else Mod(a, w) + 1
  {
    if w == 8 { NextByte8(a); } else { NextByte4(a); }
  }

  lemma {:induction false} NextByte8(a: nat)
    ensures (a + 1) % 8 == if a % 8 == 7 then 0 else a % 8 + 1
  {
  }

  lemma {:induction false} NextByte4(a: nat)
    ensures (a + 1) % 4 == if a % 4 == 3 then 0 else a % 4 + 1
  {
  }

  /** `.L_pre8`, `.L_pre4`: byte by byte up to the element boundary. */
  method Prologue(dst: array<byte>, da: nat, d: nat, src: array<byte>, sa: nat, s: nat,
                  n: nat, w: nat, ghost dst0: seq<byte>, ghost run: seq<byte>)
    returns (p: nat, q: nat, i: nat)
    requires w == 8 || w == 4
    requires 40 <= n == |run|
    requires Mod(da + d, w) == Mod(sa + s, w) != 0
    requires Copied(dst, d, src, s, dst0, run, 0)
    modifies dst
    ensures d <= p && q - s == p - d && p - d + i == n
    ensures Mod(da + p, w) == 0 && Mod(sa + q, w) == 0
    ensures Copied(dst, d, src, s, dst0, run, p - d)
  {
    p, q, i := d, s, n;
    while true
      invariant d <= p && q - s == p - d && p - d + i == n
      invariant p - d == Mod(da + p, w) - Mod(da + d, w)
      invariant Mod(da + p, w) == Mod(sa + q, w) != 0
      invariant Copied(dst, d, src, s, dst0, run, p - d)
      decreases i
    {
      Move(dst, p, src, q, 1, d, s, dst0, run);
      NextByte(da + p, w);
      NextByte(sa + q, w);
      p, q, i := p + 1, q + 1, i - 1;
      if Mod(da + p, w) == 0 { break; }
    }
  }

  /** `.L_loop8`, `.L_loop4`: vectors of the full length. */
  method FullVectors(dst: array<byte>, da: nat, p0: nat, src: array<byte>, sa: nat, q0: nat, i0: nat,
                     w: nat, mvl: nat,
                     ghost d: nat, ghost s: nat, ghost dst0: seq<byte>, ghost run: seq<byte>)
    returns (p: nat, q: nat, i: nat)
    requires w == 8 || w == 4
    requires 1 <= mvl && Scale(mvl, w) <= i0
    requires Mod(da + p0, w) == 0 && Mod(sa + q0, w) == 0
    requires d <= p0 && q0 - s == p0 - d && p0 - d + i0 == |run|
    requires Copied(dst, d, src, s, dst0, run, p0 - d)
    modifies dst
    ensures d <= p && q - s == p - d && p - d + i == |run| && i < Scale(mvl, w)
    ensures Mod(da + p, w) == 0 && Mod(sa + q, w) == 0
    ensures Copied(dst, d, src, s, dst0, run, p - d)
  {
    p, q, i := p0, q0, i0;
    var stride := Scale(mvl, w);
    while i >= stride
      invariant d <= p && q - s == p - d && p - d + i == |run|
      invariant Mod(da + p, w) == 0 && Mod(sa + q, w) == 0
      invariant Copied(dst, d, src, s, dst0, run, p - d)
      decreases i
    {
      VectorMove(dst, da, p, src, sa, q, w, mvl, mvl, d, s, dst0, run);
      StaysAligned(da + p, mvl, w);
      StaysAligned(sa + q, mvl, w);
      i, p, q := i - stride, p + stride, q + stride;
    }
  }

  /** `.L_rem8_1` on, `.L_rem4_1` on: one shorter vector, then the bytes that fill no element. */
  method Remainder(dst: array<byte>, da: nat, p0: nat, src: array<byte>, sa: nat, q0: nat, i0: nat,
                   w: nat, mvl: nat,
                   ghost d: nat, ghost s: nat, ghost dst0: seq<byte>, ghost run: seq<byte>)
    requires w == 8 || w == 4
    requires i0 < Scale(mvl, w)
    requires Mod(da + p0, w) == 0 && Mod(sa + q0, w) == 0
    requires d <= p0 && q0 - s == p0 - d && p0 - d + i0 == |run|
    requires Copied(dst, d, src, s, dst0, run, p0 - d)
    modifies dst
    ensures Copied(dst, d, src, s, dst0, run, |run|)
  {
    var p, q, i := p0, q0, i0;
    var vl := Div(i, w);
    if vl != 0 {
      VectorMove(dst, da, p, src, sa, q, w, vl, mvl, d, s, dst0, run);
      var last := Scale(vl, w);
      p, q, i := p + last, q + last, i - last;
    }
    if Mod(i, w) != 0 {
      TailBytes(dst, p, src, q, i, d, s, dst0, run);
    }
  }

  /** `.L_8vector` and what follows it with `w == 8`, `.L_4vector` with `w == 4`. */
  method VectorPath(dst: array<byte>, da: nat, d: nat, src: array<byte>, sa: nat, s: nat,
                    n: nat, w: nat, mvl: nat, ghost dst0: seq<byte>, ghost run: seq<byte>)
    requires w == 8 || w == 4
    requires 1 <= mvl && 40 <= n == |run|
    requires Mod(da + d, w) == Mod(sa + s, w)
    requires Copied(dst, d, src, s, dst0, run, 0)
    modifies dst
    ensures Copied(dst, d, src, s, dst0, run, n)
  {
    var p, q, i := d, s, n;
    if Mod(da + p, w) != 0 {
      p, q, i := Prologue(dst, da, d, src, sa, s, n, w, dst0, run);
    }
    if i >= Scale(mvl, w) {
      p, q, i := FullVectors(dst, da, p, src, sa, q, i, w, mvl, d, s, dst0, run);
    }
    Remainder(dst, da, p, src, sa, q, i, w, mvl, d, s, dst0, run);
  }

  /** `.L_scalar`: 8-byte loads and stores with no alignment assumed, then the tail. */
  method Scalar(dst: array<byte>, d: nat, src: array<byte>, s: nat, n: nat,
                ghost dst0: seq<byte>, ghost run: seq<byte>)
    requires |run| == n && Copied(dst, d, src, s, dst0, run, 0)
    modifies dst
    ensures Copied(dst, d, src, s, dst0, run, n)
  {
    var p, q, i := d, s, n;
    if i - i % 8 != 0 {
      while true
        invariant d <= p && q - s == p - d && p - d + i == n && i - i % 8 != 0
        invariant Copied(dst, d, src, s, dst0, run, p - d)
        decreases i
      {
        Move(dst, p, src, q, 8, d, s, dst0, run);
        p, q, i := p + 8, q + 8, i - 8;
        if i - i % 8 == 0 { break; }
      }
    }
    if i % 8 != 0 {
      TailBytes(dst, p, src, q, i, d, s, dst0, run);
    }
  }

  /** `__libsysve_vec_memcpy(dest, src, n)`: whatever the sizes and alignments, and whichever of
      the three paths is taken, `n` bytes end up at `d` and no other byte changes. */
  method VecMemcpy(dst: array<byte>, da: nat, d: nat, src: array<byte>, sa: nat, s: nat,
                   n: nat, mvl: nat)
    returns (r: nat)
    requires 1 <= mvl
    requires d + n <= dst.Length && s + n <= src.Length
    requires dst == src ==> da == sa && (d + n <= s || s + n <= d)
    modifies dst
    ensures r == d
    ensures dst[d..d + n] == old(src[s..s + n])
    ensures dst[..d] == old(dst[..d]) && dst[d + n..] == old(dst[d + n..])
    ensures dst[..] == Blit(old(dst[..]), d, old(src[s..s + n]))
  {
    ghost var dst0, run := dst[..], src[s..s + n];
    assert Blit(dst0, d, run[..0]) == dst0;
    if 40 > n {
      Scalar(dst, d, src, s, n, dst0, run);
    } else if (da + d) % 8 == (sa + s) % 8 {
      VectorPath(dst, da, d, src, sa, s, n, 8, mvl, dst0, run);
    } else if (da + d) % 4 == (sa + s) % 4 {
      VectorPath(dst, da, d, src, sa, s, n, 4, mvl, dst0, run);
    } else {
      Scalar(dst, d, src, s, n, dst0, run);
    }
    assert run[..n] == run;
    BlitParts(dst0, d, run);
    assert dst[..][d..d + n] == dst[d..d + n] && dst[..][..d] == dst[..d] && dst[..][d + n..] == dst[d + n..];
    assert dst0[..d] == old(dst[..d]) && dst0[d + n..] == old(dst[d + n..]);
    r := d;
  }
}
