/** What the slots of the pipeline carry between a post and the wait for it. */
module IoSlots {
  import opened Bytes
  import opened IoMachine
  import opened IoSpec
  import opened SlotWindow

  /** The numbers of the requests in flight, slot by slot. */
  ghost function Serials(cargo: seq<Option<Cargo>>): (r: seq<int>)
    ensures |r| == |cargo|
    ensures forall j :: 0 <= j < |cargo| ==> r[j] == if cargo[j].Some? then cargo[j].value.serial else NONE
  {
    seq(|cargo|, j requires 0 <= j < |cargo| => if cargo[j].Some? then cargo[j].value.serial else NONE)
  }

  lemma {:induction false} SerialsUpdate(cargo: seq<Option<Cargo>>, j: nat, c: Option<Cargo>)
    requires j < |cargo|
    ensures Serials(cargo[j := c]) == Serials(cargo)[j := if c.Some? then c.value.serial else NONE]
  {
  }

  /** When nothing is left in flight, every slot is empty. */
  lemma {:induction false} NothingInFlight(cargo: seq<Option<Cargo>>, n: nat, a: nat)
    requires Window(Serials(cargo), n, a, a)
    ensures forall j :: 0 <= j < n ==> cargo[j].None?
  {
    forall j | 0 <= j < n ensures cargo[j].None? {
      EmptySlot(Serials(cargo), n, a, j);
    }
  }

  /** The slot of chunk `c` carries the chunk's data in the given direction. */
  ghost predicate Brings(cargo: seq<Option<Cargo>>, sizes: seq<int>, chunks: seq<seq<byte>>, n: nat, c: nat, toVe: bool)
    requires 0 < n == |cargo| == |sizes| && c < |chunks|
  {
    && cargo[Slot(c, n)].Some? && cargo[Slot(c, n)].value.toVe == toVe
    && sizes[Slot(c, n)] == |chunks[c]| <= |cargo[Slot(c, n)].value.sent|
    && cargo[Slot(c, n)].value.sent[..|chunks[c]|] == chunks[c]
  }

  ghost predicate Carried(cargo: seq<Option<Cargo>>, sizes: seq<int>, chunks: seq<seq<byte>>,
      n: nat, a: nat, b: nat, toVe: bool) {
    && 0 < n == |cargo| == |sizes| && b <= |chunks|
    && forall c :: a <= c < b ==> Brings(cargo, sizes, chunks, n, c, toVe)
  }

  lemma {:induction false} CarriedPop(cargo: seq<Option<Cargo>>, sizes: seq<int>, chunks: seq<seq<byte>>,
      n: nat, a: nat, b: nat, toVe: bool)
    requires Carried(cargo, sizes, chunks, n, a, b, toVe) && a < b <= a + n
    ensures Carried(cargo[Slot(a, n) := None], sizes, chunks, n, a + 1, b, toVe)
  {
    var cargo' := cargo[Slot(a, n) := None];
    forall c | a + 1 <= c < b ensures Brings(cargo', sizes, chunks, n, c, toVe) {
      assert Brings(cargo, sizes, chunks, n, c, toVe);
      SlotsDiffer(a, c, n);
    }
  }

  lemma {:induction false} CarriedPush(cargo: seq<Option<Cargo>>, sizes: seq<int>, chunks: seq<seq<byte>>,
      n: nat, a: nat, b: nat, d: seq<byte>, x: Cargo, toVe: bool)
    requires Carried(cargo, sizes, chunks, n, a, b, toVe) && a <= b < a + n && b == |chunks|
    requires x.toVe == toVe && |d| <= |x.sent| && x.sent[..|d|] == d
    ensures Carried(cargo[Slot(b, n) := Some(x)], sizes[Slot(b, n) := |d|], chunks + [d], n, a, b + 1, toVe)
  {
    var cargo', sizes', chunks' := cargo[Slot(b, n) := Some(x)], sizes[Slot(b, n) := |d|], chunks + [d];
    forall c | a <= c < b + 1 ensures Brings(cargo', sizes', chunks', n, c, toVe) {
      if c < b {
        assert Brings(cargo, sizes, chunks, n, c, toVe);
        SlotsDiffer(c, b, n);
      }
    }
  }

  /** Sizes of slots that carry nothing do not matter. */
  lemma {:induction false} CarriedElsewhere(cargo: seq<Option<Cargo>>, sizes: seq<int>, chunks: seq<seq<byte>>,
      n: nat, a: nat, b: nat, j: nat, r: int, toVe: bool)
    requires Carried(cargo, sizes, chunks, n, a, b, toVe) && j < n && cargo[j].None?
    ensures Carried(cargo, sizes[j := r], chunks, n, a, b, toVe)
  {
    var sizes' := sizes[j := r];
    forall c | a <= c < b ensures Brings(cargo, sizes', chunks, n, c, toVe) {
      assert Brings(cargo, sizes, chunks, n, c, toVe);
    }
  }

  lemma {:induction false} CarriedMore(cargo: seq<Option<Cargo>>, sizes: seq<int>, chunks: seq<seq<byte>>,
      n: nat, a: nat, b: nat, d: seq<byte>, toVe: bool)
    requires Carried(cargo, sizes, chunks, n, a, b, toVe)
    ensures Carried(cargo, sizes, chunks + [d], n, a, b, toVe)
  {
    var chunks' := chunks + [d];
    forall c | a <= c < b ensures Brings(cargo, sizes, chunks', n, c, toVe) {
      assert Brings(cargo, sizes, chunks, n, c, toVe);
    }
  }

  /** The request with number `c` fails: the engine takes no such request, or reports an exception. */
  ghost predicate Fault(m: Machine, c: nat) { !m.postOk(c) || m.exc(c) >= 1 }

  /** One of the first `k` requests fails. */
  ghost predicate Faulty(m: Machine, k: nat) { exists c :: 0 <= c < k && Fault(m, c) }

  // ---- the first failure a pipeline notices ------------------------------------------------

  /** No exception among the first `k` requests. */
  ghost predicate Clear(m: Machine, k: nat) { forall c :: 0 <= c < k ==> m.exc(c) == 0 }

  /** None of the first `k` posts is refused. */
  ghost predicate Granted(m: Machine, k: nat) { forall c :: 0 <= c < k ==> m.postOk(c) }

  /** How many chunks have been waited for by the time chunk `c` is posted. */
  function Collected(c: nat, slots: nat): nat { if c < slots then 0 else c + 1 - slots }

  /** Of the first `n` requests, number `f` is the first failure that a pipeline notices: its post is
      refused and no exception has been met before, or it is the first to end with an exception and
      no post is refused before its slot is needed again. */
  ghost predicate FirstFault(m: Machine, n: nat, f: nat) {
    f < n
    && if !m.postOk(f) then Granted(m, f) && Clear(m, Collected(f, m.slots))
       else m.exc(f) >= 1 && Clear(m, f) && Granted(m, Min(n, f + m.slots))
  }

  /** There is one at most, */
  lemma {:induction false} OneFirstFault(m: Machine, n: nat, f: nat, g: nat)
    requires FirstFault(m, n, f) && FirstFault(m, n, g)
    ensures f == g
  {
  }

  /** and there is one if and only if any of the requests fails. */
  lemma {:induction false} SomeFirstFault(m: Machine, n: nat)
    requires m.slots > 0
    ensures Faulty(m, n) <==> exists f :: FirstFault(m, n, f)
  {
    if Faulty(m, n) {
      var p := FirstRefused(m, n);
      var e := FirstException(m, n);
      var c :| 0 <= c < n && Fault(m, c);
      assert FirstFault(m, n, if p < n && p < e + m.slots then p else e);
    }
    forall f | FirstFault(m, n, f) ensures Faulty(m, n) { assert Fault(m, f); }
  }

  lemma {:induction false} FirstRefused(m: Machine, n: nat) returns (p: nat)
    ensures p <= n && Granted(m, p) && (p < n ==> !m.postOk(p))
  {
    p := 0;
    while p < n && m.postOk(p)
      invariant p <= n && Granted(m, p)
    {
      p := p + 1;
    }
  }

  lemma {:induction false} FirstException(m: Machine, n: nat) returns (e: nat)
    ensures e <= n && Clear(m, e) && (e < n ==> m.exc(e) >= 1)
  {
    e := 0;
    while e < n && m.exc(e) == 0
      invariant e <= n && Clear(m, e)
    {
      e := e + 1;
    }
  }
}
