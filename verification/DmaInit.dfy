/** The set-up of the DMA engine and the wait for a request, src/vedma_init.c. */
module DmaInit {
  import opened Bytes
  import opened DmaRing

  // ---- the mutex and the flag --------------------------------------------------------------

  /** `init_lock` and `ve_dma_initialized`. */
  datatype Gate = Gate(held: bool, ready: bool)

  /** What the calls made by `ve_dma_init` answer: locking, mapping (0 is success) and unlocking. */
  datatype Answers = Answers(locks: bool, mapping: int, descriptors: int, control: int, unlocks: bool)

  /** A call returns, or waits for the mutex for ever. */
  datatype Outcome = Stuck | Returned(ret: int)

  const SUCCESS: int := 0
  const FAIL: int := -1

  function Through(g: Gate, x: Answers): (r: (Gate, Outcome))
    ensures r.1 == Returned(SUCCESS)
            <==> !g.held && x.locks && (g.ready || x.mapping == 0) && x.unlocks
    ensures r.1.Returned? && r.1.ret != SUCCESS ==>
              r.1.ret == if x.locks && !g.ready && x.mapping != 0 then x.mapping else FAIL
    ensures r.1 == Returned(SUCCESS) ==> r.0 == Gate(false, true)
    ensures g.held ==> r == (g, Stuck)
    ensures r.0.held <==> g.held || Leaks(g, x)
  {
    if g.held then (g, Stuck)
    else if !x.locks then (g, Returned(FAIL))
    else if !g.ready && x.mapping != 0 then (Gate(true, false), Returned(x.mapping))
    else if !x.unlocks then (Gate(true, true), Returned(FAIL))
    else (Gate(false, true), Returned(SUCCESS))
  }

  /** The call keeps the mutex: the mapping was tried and failed, or the unlocking failed. */
  predicate Leaks(g: Gate, x: Answers) {
    x.locks && ((!g.ready && x.mapping != 0) || !x.unlocks)
  }

  /** Calls of `ve_dma_init`, and forks whose child goes on. */
  datatype Event = Init(x: Answers) | Fork

  function After(g: Gate, es: seq<Event>): Gate {
    if es == [] then g
    else
      var g' := After(g, es[..|es| - 1]);
      match es[|es| - 1]
      case Init(x) => Through(g', x).0
      case Fork => g'.(ready := false)
  }

  predicate LeaksAt(g: Gate, es: seq<Event>, n: nat)
    requires n < |es|
  {
    es[n].Init? && Leaks(After(g, es[..n]), es[n].x)
  }

  /** After any run the mutex is free if and only if no call has kept it. */
  lemma {:induction false} HeldIfKept(g: Gate, es: seq<Event>)
    requires !g.held
    ensures After(g, es).held <==> exists n :: 0 <= n < |es| && LeaksAt(g, es, n)
    decreases |es|
  {
    if es != [] {
      var before, last := es[..|es| - 1], |es| - 1;
      HeldIfKept(g, before);
      forall n | 0 <= n < last ensures LeaksAt(g, before, n) == LeaksAt(g, es, n) {
        assert before[..n] == es[..n];
      }
      assert After(g, es).held <==> After(g, before).held || LeaksAt(g, es, last);
    }
  }

  /** Once a mapping has failed, no later call in this process or its children returns: the failing
      path leaves the mutex locked. */
  lemma {:induction false} StuckForEver(g: Gate, es: seq<Event>, n: nat, later: Answers)
    requires !g.held && n < |es| && LeaksAt(g, es, n)
    ensures Through(After(g, es), later).1 == Stuck
  {
    HeldIfKept(g, es);
  }

  /** A process in which no call keeps the mutex never hangs in `ve_dma_init`. */
  lemma {:induction false} NeverStuck(g: Gate, es: seq<Event>, x: Answers)
    requires !g.held && forall n :: 0 <= n < |es| ==> !LeaksAt(g, es, n)
    ensures Through(After(g, es), x).1.Returned?
  {
    HeldIfKept(g, es);
  }

  /** A fork child starts over, with the mutex as it was at the fork: its first call succeeds if and
      only if it gets the mutex, maps the descriptors anew, and unlocks. */
  lemma {:induction false} ChildStartsOver(g: Gate, es: seq<Event>, x: Answers)
    ensures After(g, es + [Fork]).held == After(g, es).held
    ensures Through(After(g, es + [Fork]), x).1 == Returned(SUCCESS)
            <==> !After(g, es).held && x.locks && x.mapping == 0 && x.unlocks
  {
    assert (es + [Fork])[..|es|] == es;
  }

  // ---- the variables -----------------------------------------------------------------------

  class Driver {
    var held: bool
    var ready: bool
    var descriptors: int
    var control: int
    /** `vedma_lock`, where 0 is free. */
    var lock: int
    var index: nat
    const status: array<DmaRing.Status>

    constructor ()
      ensures !held && !ready && status.Length == NDESC && fresh(status)
    {
      held, ready, descriptors, control, lock, index := false, false, 0, 0, 0, 0;
      status := new DmaRing.Status[NDESC](_ => Free);
    }

    /** The ring is empty. */
    ghost predicate Clean()
      reads this, status
    {
      && status.Length == NDESC && lock == 0 && index == 0
      && forall i :: 0 <= i < NDESC ==> status[i] == Free
    }

    /** `ve_dma_init`: the first call that gets through empties the ring, later ones leave it alone. */
    method Init(x: Answers) returns (o: Outcome)
      requires status.Length == NDESC
      modifies this, status
      ensures (Gate(held, ready), o) == Through(old(Gate(held, ready)), x)
      ensures ready && !old(ready) ==> Clean() && descriptors == x.descriptors && control == x.control
      ensures ready == old(ready) ==>
                && status[..] == old(status[..]) && lock == old(lock) && index == old(index)
                && descriptors == old(descriptors) && control == old(control)
    {
      if held {
        return Stuck;
      }
      if !x.locks {
        return Returned(FAIL);
      }
      held := true;
      if !ready {
        if x.mapping != 0 {
          return Returned(x.mapping);
        }
        descriptors, control := x.descriptors, x.control;
        index := 0;
        lock := 0;
        var i := 0;
        while i < NDESC
          invariant 0 <= i <= NDESC && lock == 0 && index == 0
          invariant descriptors == x.descriptors && control == x.control && held && !ready
          invariant forall k :: 0 <= k < i ==> status[k] == Free
        {
          status[i] := Free;
          i := i + 1;
        }
        ready := true;
      }
      if !x.unlocks {
        return Returned(FAIL);
      }
      held := false;
      o := Returned(SUCCESS);
    }

    /** `ve_dma_clear_skip_flag`, in the child of a fork. */
    method ClearSkipFlag()
      modifies this`ready
      ensures Gate(held, ready) == After(old(Gate(held, ready)), [Fork])
    {
      ready := false;
      assert [Fork][..0] == [];
    }
  }

  /** The ring protocol may start on what `ve_dma_init` leaves, whatever the handles hold. */
  lemma {:induction false} RingStarts(d: Driver, desc: seq<Desc>, handles: seq<Handle>, threads: seq<DmaRing.Thread>,
                   serialOf: seq<nat>)
    requires d.Clean() && |desc| == NDESC && |serialOf| == |handles|
    requires forall i :: 0 <= i < NDESC ==> desc[i].phase == Unused
    requires forall t :: 0 <= t < |threads| ==> threads[t].pc == Idle && threads[t].op.PostWait?
    ensures Initial(State(None, d.index, d.status[..], desc, handles, threads,
                          seq(|handles|, _ => Rest), serialOf, [], map[], {}, map[]))
  {
    var s := State(None, d.index, d.status[..], desc, handles, threads,
                   seq(|handles|, _ => Rest), serialOf, [], map[], {}, map[]);
    forall i | 0 <= i < NDESC ensures s.status[i] == Free { assert d.status[i] == Free; }
  }

  // ---- the wait ----------------------------------------------------------------------------

  /** Poll number `k` is the first that does not ask for another try. */
  ghost predicate FirstAnswer(polls: nat -> int, k: nat) {
    polls(k) != -EAGAIN && forall j :: 0 <= j < k ==> polls(j) == -EAGAIN
  }

  /** `ve_dma_wait`: it polls until a poll answers, not once more, and returns that answer.  That
      some poll answers is a property of the hardware and the ring. */
  method Wait(polls: nat -> int, ghost enough: nat) returns (ret: int, made: nat)
    requires polls(enough) != -EAGAIN
    ensures made > 0 && FirstAnswer(polls, made - 1) && ret == polls(made - 1)
  {
    made := 0;
    while true
      invariant made <= enough && forall j :: 0 <= j < made ==> polls(j) == -EAGAIN
      decreases enough - made
    {
      ret := polls(made);
      made := made + 1;
      if ret >= 1 {
        break;
      }
      if ret != -EAGAIN {
        break;
      }
    }
  }
}
