/** The slots of the software pipeline: which chunk each of the `n` slots carries.

    Slot `j` holds the number of the chunk it carries, or -1. */
module SlotWindow {
  import IoSpec

  const NONE: int := -1

  /** The slot of chunk `c`: its remainder, found by repeated subtraction. */
  function Slot(c: nat, n: nat): (r: nat)
    requires 0 < n
    ensures r < n
  {
    if c < n then c else Slot(c - n, n)
  }

  lemma {:induction false} SlotIsRemainder(c: nat, n: nat)
    requires 0 < n
    ensures Slot(c, n) == c % n
  {
    if c >= n {
      SlotIsRemainder(c - n, n);
      AddMultiple(c - n, n);
    }
  }

  lemma {:induction false} AddMultiple(a: nat, n: nat)
    requires 0 < n
    ensures (a + n) % n == a % n
  {
    var k := a / n;
    IoSpec.DivLaw(a, n);
    assert n * (k + 1) == n * k + n;
    IoSpec.Quotient(a + n, k + 1, n);
  }

  /** Chunk `c` is in its slot. */
  ghost predicate Carries(p: seq<int>, n: nat, c: nat)
    requires 0 < n == |p|
  {
    p[Slot(c, n)] == c
  }

  /** What slot `j` holds, if anything, is one of the chunks `a`, ..., `b - 1`, in its own slot. */
  ghost predicate Belongs(p: seq<int>, n: nat, a: nat, b: nat, j: nat)
    requires 0 < n == |p| && j < n
  {
    p[j] != NONE ==> a <= p[j] < b && Slot(p[j], n) == j
  }

  /** The chunks `a`, `a + 1`, ..., `b - 1` are in their slots, and nothing else is in any. */
  ghost predicate Window(p: seq<int>, n: nat, a: nat, b: nat) {
    && 0 < n == |p| && a <= b <= a + n
    && (forall c :: a <= c < b ==> Carries(p, n, c))
    && (forall j :: 0 <= j < n ==> Belongs(p, n, a, b, j))
  }

  /** Chunks less than `n` apart have different slots. */
  lemma {:induction false} SlotsDiffer(c: nat, d: nat, n: nat)
    requires 0 < n && c < d < c + n
    ensures Slot(c, n) != Slot(d, n)
  {
    if c >= n { SlotsDiffer(c - n, d - n, n); }
  }

  lemma {:induction false} Empty(p: seq<int>, n: nat, a: nat)
    requires 0 < n == |p| && forall j :: 0 <= j < n ==> p[j] == NONE
    ensures Window(p, n, a, a)
  {
  }

  /** In an empty window every slot is empty. */
  lemma {:induction false} EmptySlot(p: seq<int>, n: nat, a: nat, j: nat)
    requires Window(p, n, a, a) && j < n
    ensures p[j] == NONE
  {
    assert Belongs(p, n, a, a, j);
  }

  /** Taking the oldest chunk out of its slot. */
  lemma {:induction false} Pop(p: seq<int>, n: nat, a: nat, b: nat)
    requires Window(p, n, a, b) && a < b
    ensures p[Slot(a, n)] == a
    ensures Window(p[Slot(a, n) := NONE], n, a + 1, b)
  {
    var q, a' := p[Slot(a, n) := NONE], a + 1;
    assert Carries(p, n, a);
    forall c | a' <= c < b ensures Carries(q, n, c) {
      assert Carries(p, n, c);
      SlotsDiffer(a, c, n);
    }
    forall j | 0 <= j < n ensures Belongs(q, n, a', b, j) { assert Belongs(p, n, a, b, j); }
  }

  /** Putting the next chunk into its slot. */
  lemma {:induction false} Push(p: seq<int>, n: nat, a: nat, b: nat)
    requires Window(p, n, a, b) && b < a + n
    ensures p[Slot(b, n)] == NONE
    ensures Window(p[Slot(b, n) := b], n, a, b + 1)
  {
    var q, b' := p[Slot(b, n) := b], b + 1;
    assert Belongs(p, n, a, b, Slot(b, n));
    if p[Slot(b, n)] != NONE { SlotsDiffer(p[Slot(b, n)], b, n); }
    forall c | a <= c < b' ensures Carries(q, n, c) {
      if c < b {
        assert Carries(p, n, c);
        SlotsDiffer(c, b, n);
      }
    }
    forall j | 0 <= j < n ensures Belongs(q, n, a, b', j) { assert Belongs(p, n, a, b, j); }
  }

  /** When all slots are taken, the next chunk takes the slot of the oldest. */
  lemma {:induction false} NextSlot(a: nat, n: nat)
    requires 0 < n
    ensures Slot(a + n, n) == Slot(a, n)
  {
  }

  /** Rotating `k` slots on from the slot of chunk `a` leads to the slot of chunk `a + k`. */
  lemma {:induction false} Rotate(a: nat, k: nat, n: nat)
    requires 0 < n && k < n
    ensures Slot(Slot(a, n) + k, n) == Slot(a + k, n)
  {
    if a >= n { Rotate(a - n, k, n); }
  }

  /** What the drain meets at its `k`-th slot: chunk `a + k`, or nothing once they are all done.
      So it takes the chunks in flight in the order in which they were posted. */
  lemma {:induction false} DrainOrder(p: seq<int>, n: nat, a: nat, b: nat, minK: nat, k: nat)
    requires Window(p, n, a, b) && k < n && minK < n && (a < b ==> minK == Slot(a, n))
    ensures p[Slot(minK + k, n)] == if a + k < b then a + k else NONE
  {
    var j := Slot(minK + k, n);
    if a == b {
      EmptySlot(p, n, a, j);
    } else {
      Rotate(a, k, n);
      if a + k < b {
        assert Carries(p, n, a + k);
      } else {
        assert Belongs(p, n, a, b, j);
        if p[j] != NONE { SlotsDiffer(p[j], a + k, n); }
      }
    }
  }

  /** `__ve_find_min_posted`: the slot of the oldest chunk in flight, slot 0 if there is none. */
  method FindMinPosted(posted: array<int>, ghost a: nat, ghost b: nat) returns (minK: nat)
    requires Window(posted[..], posted.Length, a, b)
    ensures minK < posted.Length
    ensures a < b ==> minK == Slot(a, posted.Length)
    ensures a == b ==> minK == 0
  {
    var n := posted.Length;
    minK := 0;
    var minV := NONE;   // stands for UINT64_MAX, which no chunk number reaches
    assert forall j :: 0 <= j < n ==> posted[j] == posted[..][j];
    for k := 0 to n
      invariant minK < n
      invariant minV == NONE ==> minK == 0 && forall j :: 0 <= j < k ==> posted[j] == NONE
      invariant minV != NONE ==> posted[minK] == minV
      invariant minV != NONE ==> forall j :: 0 <= j < k ==> posted[j] == NONE || minV <= posted[j]
    {
      if posted[k] == NONE { continue; }
      if minV == NONE || posted[k] < minV {
        minV := posted[k];
        minK := k;
      }
    }
    if a < b {
      assert Carries(posted[..], n, a);
      assert Belongs(posted[..], n, a, b, minK);
    } else if minV != NONE {
      EmptySlot(posted[..], n, a, minK);
    }
  }
}
