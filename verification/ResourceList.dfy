/** The list of per-thread buffers of src/accelerated_io.c: a doubly linked list behind a fixed head,
    changed in place under a mutex.

    A thread's first request links a new resource in, the thread's exit unlinks and releases it, and
    the child of a fork releases everything it has inherited. */
module ResourceList {
  import opened Bytes

  // ---- what the list stands for ------------------------------------------------------------

  /** The resources in list order, those released so far, and which of these had their DMA mapping
      removed as well. */
  datatype Ledger<T> = Ledger(live: seq<T>, freed: seq<T>, unmapped: seq<T>)

  datatype Event<T> = Join(joined: T) | Leave(left: T) | Discard(unlinked: T) | Child

  ghost predicate AllDifferent<T>(s: seq<T>) { forall i, j :: 0 <= i < j < |s| ==> s[i] != s[j] }

  ghost predicate Apart<T>(s: seq<T>, t: seq<T>) { forall x :: x in s ==> x !in t }

  /** No resource is linked twice, released twice, or linked after its release. */
  ghost predicate Sound<T>(g: Ledger<T>) {
    AllDifferent(g.live) && AllDifferent(g.freed) && Apart(g.live, g.freed)
  }

  /** A resource joins or is discarded right after its allocation; a thread leaves with its own. */
  predicate Allowed<T(==)>(g: Ledger<T>, e: Event<T>) {
    match e
    case Join(r) => r !in g.live && r !in g.freed
    case Leave(r) => r in g.live
    case Discard(r) => r !in g.live && r !in g.freed
    case Child => true
  }

  function Without<T(==)>(s: seq<T>, r: T): seq<T> {
    if s == [] then [] else if s[0] == r then s[1..] else [s[0]] + Without(s[1..], r)
  }

  function Apply<T(==)>(g: Ledger<T>, e: Event<T>): Ledger<T> {
    match e
    case Join(r) => g.(live := [r] + g.live)
    case Leave(r) => Ledger(Without(g.live, r), g.freed + [r], g.unmapped + [r])
    case Discard(r) => g.(freed := g.freed + [r], unmapped := g.unmapped + [r])
    case Child => g.(live := [], freed := g.freed + g.live)
  }

  lemma {:induction false} WithoutAt<T>(s: seq<T>, k: nat)
    requires k < |s| && AllDifferent(s)
    ensures Without(s, s[k]) == s[..k] + s[k + 1..]
    decreases k
  {
    if k > 0 {
      assert s[1..][k - 1] == s[k] && s[0] != s[k];
      WithoutAt(s[1..], k - 1);
      assert s[1..][..k - 1] == s[1..k] && s[1..][k..] == s[k + 1..];
    }
  }

  lemma {:induction false} Shifted<T>(h: T, s: seq<T>, k: nat)
    requires k < |s|
    ensures [h] + (s[..k] + s[k + 1..]) == ([h] + s)[..k + 1] + ([h] + s)[k + 2..]
  {
    assert ([h] + s)[..k + 1] == [h] + s[..k];
    assert ([h] + s)[k + 2..] == s[k + 1..];
  }

  lemma {:induction false} DifferentTogether<T>(s: seq<T>, t: seq<T>)
    requires AllDifferent(s) && AllDifferent(t) && Apart(s, t)
    ensures AllDifferent(s + t)
  {
    forall i, j | 0 <= i < j < |s + t| ensures (s + t)[i] != (s + t)[j] {
      if i < |s| <= j { assert s[i] in s && t[j - |s|] in t; }
    }
  }

  lemma {:induction false} DifferentWithout<T>(s: seq<T>, k: nat)
    requires k < |s| && AllDifferent(s)
    ensures var t := s[..k] + s[k + 1..]; AllDifferent(t) && s[k] !in t && forall x :: x in t ==> x in s
  {
    var t := s[..k] + s[k + 1..];
    assert forall i :: 0 <= i < |t| ==> t[i] == s[if i < k then i else i + 1];
  }

  lemma {:induction false} ApplySound<T>(g: Ledger<T>, e: Event<T>)
    requires Sound(g) && Allowed(g, e)
    ensures Sound(Apply(g, e))
  {
    match e
    case Join(r) =>
      DifferentTogether([r], g.live);
    case Leave(r) =>
      var k :| 0 <= k < |g.live| && g.live[k] == r;
      WithoutAt(g.live, k);
      DifferentWithout(g.live, k);
      DifferentTogether(g.freed, [r]);
    case Discard(r) =>
      DifferentTogether(g.freed, [r]);
    case Child =>
      DifferentTogether(g.freed, g.live);
  }

  /** The resources an event brings in. */
  function Brought<T>(e: Event<T>): seq<T> {
    match e
    case Join(r) => [r]
    case Discard(r) => [r]
    case _ => []
  }

  ghost predicate Orderly<T>(g: Ledger<T>, es: seq<Event<T>>)
    decreases |es|
  {
    es != [] ==> Allowed(g, es[0]) && Orderly(Apply(g, es[0]), es[1..])
  }

  function Run<T(==)>(g: Ledger<T>, es: seq<Event<T>>): Ledger<T>
    decreases |es|
  {
    if es == [] then g else Run(Apply(g, es[0]), es[1..])
  }

  function AllBrought<T>(es: seq<Event<T>>): seq<T> {
    if es == [] then [] else Brought(es[0]) + AllBrought(es[1..])
  }

  lemma {:induction false} ApplyConserves<T>(g: Ledger<T>, e: Event<T>)
    requires Sound(g) && Allowed(g, e)
    ensures multiset(Apply(g, e).live + Apply(g, e).freed) == multiset(g.live + g.freed) + multiset(Brought(e))
  {
    if e.Leave? {
      var k :| 0 <= k < |g.live| && g.live[k] == e.left;
      WithoutAt(g.live, k);
      assert g.live == g.live[..k] + [e.left] + g.live[k + 1..];
      Reordered(g.live[..k], e.left, g.live[k + 1..], g.freed);
    } else if e.Child? {
      assert [] + (g.freed + g.live) == g.freed + g.live;
    }
  }

  lemma {:induction false} Reordered<T>(a: seq<T>, x: T, b: seq<T>, f: seq<T>)
    ensures multiset(a + b + (f + [x])) == multiset(a + [x] + b + f)
  {
    assert multiset(a + b + (f + [x])) == multiset(a + b) + multiset(f + [x]);
  }

  /** Over any run the resources brought in are exactly those still linked and those released, each
      counted once: nothing leaks, nothing is released twice or while it stays linked. */
  lemma {:induction false} EachReleasedOnce<T>(g: Ledger<T>, es: seq<Event<T>>)
    requires Sound(g) && Orderly(g, es)
    ensures Sound(Run(g, es))
    ensures multiset(Run(g, es).live + Run(g, es).freed)
         == multiset(g.live + g.freed) + multiset(AllBrought(es))
    decreases |es|
  {
    if es != [] {
      ApplySound(g, es[0]);
      ApplyConserves(g, es[0]);
      EachReleasedOnce(Apply(g, es[0]), es[1..]);
      assert multiset(AllBrought(es)) == multiset(Brought(es[0])) + multiset(AllBrought(es[1..]));
    }
  }

  /** Without a fork, every release removes the DMA mapping too; in the child, none does. */
  lemma {:induction false} MappingsFollow<T>(g: Ledger<T>, es: seq<Event<T>>)
    requires g.unmapped == g.freed && Child !in es
    ensures Run(g, es).unmapped == Run(g, es).freed
    decreases |es|
  {
    if es != [] {
      assert es[0] in es;
      MappingsFollow(Apply(g, es[0]), es[1..]);
    }
  }

  /** The fork child starts from an empty list, and has released all it inherited. */
  lemma {:induction false} ChildOwnsNothing<T>(g: Ledger<T>, es: seq<Event<T>>)
    requires Sound(g) && Orderly(g, es)
    ensures var c := Apply(Run(g, es), Child);
            && c.live == [] && AllDifferent(c.freed) && c.unmapped == Run(g, es).unmapped
            && multiset(c.freed) == multiset(g.live + g.freed) + multiset(AllBrought(es))
  {
    EachReleasedOnce(g, es);
    ApplySound(Run(g, es), Child);
    var h := Run(g, es);
    assert multiset(h.freed + h.live) == multiset(h.live + h.freed);
  }

  // ---- the list in memory ------------------------------------------------------------------

  class Resource {
    var next: Resource?
    var prev: Resource?

    constructor ()
      ensures next == null && prev == null
    {
      next, prev := null, null;
    }
  }

  ghost function After(s: seq<Resource>, i: int): Resource?
    requires 0 <= i < |s|
  {
    if i + 1 < |s| then s[i + 1] else null
  }

  ghost function Ahead(s: seq<Resource>, i: int): Resource?
    requires 0 <= i < |s|
  {
    if i > 0 then s[i - 1] else null
  }

  ghost predicate Fits(s: seq<Resource>, i: int)
    requires 0 <= i < |s|
    reads s[i]
  {
    s[i].next == After(s, i) && s[i].prev == Ahead(s, i)
  }

  /** Both chains of pointers follow the order of `s`. */
  ghost predicate Woven(s: seq<Resource>)
    reads s
  {
    forall i :: 0 <= i < |s| ==> Fits(s, i)
  }

  class Registry {
    const head: Resource
    ghost var ledger: Ledger<Resource>

    ghost function Spine(): seq<Resource>
      reads this`ledger
    {
      [head] + ledger.live
    }

    ghost predicate Valid()
      reads this`ledger, Spine()
    {
      Woven(Spine()) && Sound(ledger) && head !in ledger.live && head !in ledger.freed
    }

    constructor ()
      ensures Valid() && ledger == Ledger([], [], []) && fresh(head)
    {
      head := new Resource();
      ledger := Ledger([], [], []);
    }

    /** `ve_accelerated_io_release_resource`: frees `r`, and unless in a fork child removes its DMA
        mapping before.  What is freed is not freed already. */
    ghost method Release(r: Resource, isFork: bool, live: seq<Resource>)
      requires r !in ledger.freed
      modifies this`ledger
      ensures ledger == Ledger(live, old(ledger.freed) + [r], old(ledger.unmapped) + if isFork then [] else [r])
    {
      ledger := Ledger(live, ledger.freed + [r], if isFork then ledger.unmapped else ledger.unmapped + [r]);
    }

    /** The insertion at the head of the list. */
    method Insert(r: Resource)
      requires Valid() && Allowed(ledger, Join(r)) && r != head
      modifies this`ledger, r, Spine()
      ensures Valid() && ledger == Apply(old(ledger), Join(r)) && ledger.live == [r] + old(ledger.live)
    {
      ghost var s := Spine();
      assert Fits(s, 0);
      r.next := head.next;
      r.prev := head;
      if head.next != null {
        head.next.prev := r;
      }
      head.next := r;
      ApplySound(ledger, Join(r));
      ledger := Apply(ledger, Join(r));
      forall i | 0 <= i < |Spine()| ensures Fits(Spine(), i) {
        if i > 1 { assert Spine()[i] == s[i - 1] && old(Fits(s, i - 1)); }
      }
    }

    /** What stands before and after each place of `s` without place `k`. */
    lemma {:induction false} Neighbours(s: seq<Resource>, k: nat, i: nat)
      requires 0 < k < |s| && i < |s| - 1
      ensures var t, o := s[..k] + s[k + 1..], if i < k then i else i + 1;
              && t[i] == s[o]
              && After(t, i) == (if o == k - 1 then After(s, k) else After(s, o))
              && Ahead(t, i) == (if o == k + 1 then Ahead(s, k) else Ahead(s, o))
    {
      var t := s[..k] + s[k + 1..];
      assert forall j :: 0 <= j < |t| ==> t[j] == s[if j < k then j else j + 1];
    }

    /** Unlinks the resource at place `k` of the list. */
    method Unlink(r: Resource, ghost k: nat)
      requires Valid() && 0 < k < |Spine()| && Spine()[k] == r
      modifies Spine()
      ensures Woven(Spine()[..k] + Spine()[k + 1..])
    {
      ghost var s := Spine();
      assert AllDifferent(s);
      assert Fits(s, k) && r.prev == s[k - 1];
      if r.prev != null {
        r.prev.next := r.next;
      }
      if r.next != null {
        r.next.prev := r.prev;
      }
      ghost var t := s[..k] + s[k + 1..];
      forall i | 0 <= i < |t| ensures Fits(t, i) {
        Neighbours(s, k, i);
        assert old(Fits(s, if i < k then i else i + 1));
      }
    }

    lemma {:induction false} WithoutPlace(r: Resource) returns (k: nat, rest: seq<Resource>)
      requires Valid() && r in ledger.live
      ensures 0 < k < |Spine()| && Spine()[k] == r && r !in ledger.freed
      ensures rest == ledger.live[..k - 1] + ledger.live[k..]
      ensures rest == Without(ledger.live, r) && head !in rest && [head] + rest == Spine()[..k] + Spine()[k + 1..]
    {
      var i :| 0 <= i < |ledger.live| && ledger.live[i] == r;
      WithoutAt(ledger.live, i);
      Shifted(head, ledger.live, i);
      k, rest := i + 1, Without(ledger.live, r);
    }

    /** `ve_accelerated_io_dstfunc`, the destructor of a thread's resource: it is unlinked before it
        is released. */
    method Depart(r: Resource)
      requires Valid() && Allowed(ledger, Leave(r))
      modifies this`ledger, Spine()
      ensures Valid() && ledger == Apply(old(ledger), Leave(r))
      ensures ledger.freed == old(ledger.freed) + [r] && ledger.unmapped == old(ledger.unmapped) + [r]
      ensures exists k :: 0 <= k < |old(ledger.live)| && old(ledger.live)[k] == r
                          && ledger.live == old(ledger.live)[..k] + old(ledger.live)[k + 1..]
    {
      ghost var before := ledger.live;
      ghost var k, rest := WithoutPlace(r);
      assert before[k - 1] == Spine()[k] == r && rest == before[..k - 1] + before[(k - 1) + 1..];
      ApplySound(ledger, Leave(r));
      Unlink(r, k);
      Release(r, false, rest);
    }

    /** `ve_accelerated_io_atfork_child`: releases all resources; the walk looks at none that has
        been released. */
    method ChildReset()
      requires Valid()
      modifies this`ledger, Spine()
      ensures Valid() && ledger == Apply(old(ledger), Child)
      ensures ledger.live == [] && ledger.freed == old(ledger.freed + ledger.live)
      ensures ledger.unmapped == old(ledger.unmapped)
    {
      ghost var s, n, g := Spine(), 1, ledger;
      assert Fits(s, 0);
      ApplySound(ledger, Child);
      var temp := head.next;
      while temp != null
        invariant 1 <= n <= |s| && temp == (if n < |s| then s[n] else null)
        invariant ledger == Ledger(g.live, g.freed + s[1..n], g.unmapped)
        invariant Woven(s)
        decreases |s| - n
      {
        var tem := temp;
        assert Fits(s, n) && tem == g.live[n - 1] && tem !in ledger.freed;
        temp := tem.next;
        Release(tem, true, g.live);
        assert s[1..n + 1] == s[1..n] + [tem];
        n := n + 1;
      }
      assert s[1..n] == g.live && Fits(s, 0);
      head.next := null;
      ledger := Apply(g, Child);
      assert Spine() == [head] && Fits([head], 0);
    }
  }

  // ---- the buffer of a thread --------------------------------------------------------------

  /** Whether a request may use the accelerated path: it may, the library is not usable at all
      (the hooks are removed), or the thread's buffer is busy or could not be had. */
  datatype Preparation = Prepared | Disabled | NoBuffer

  /** How the environment answers the first use: the environment check, `malloc`, the system call
      that sets the buffers up, and `pthread_setspecific`. */
  datatype Setup = Setup(usable: bool, memory: bool, buffers: bool, recorded: bool)

  /** The thread-local state: the flag that guards the buffer, and the resource under the key. */
  class Thread {
    var using: bool
    var own: Resource?

    constructor ()
      ensures !using && own == null
    {
      using, own := false, null;
    }

    /** The thread's resource, if it has one, is in the list. */
    ghost predicate Linked(list: Registry)
      reads this`own, list`ledger
    {
      own != null ==> own in list.ledger.live
    }

    /** What a request that asks for the buffer now will be told. */
    ghost function Verdict(plain: bool, setup: Setup): Preparation
      reads this
    {
      if plain then Disabled
      else if using then NoBuffer
      else if own != null || setup == Setup(true, true, true, true) then Prepared
      else if setup.usable && setup.memory && !setup.buffers then NoBuffer
      else Disabled
    }

    /** `ve_accelerated_io_pre`: a request gets the thread's buffer unless another one has it, and
        whoever is refused leaves the flag as it was.  `plain` tells that the
        library was switched off when it was loaded.  A resource that cannot be recorded is
        released without ever having been linked. */
    method Prepare(list: Registry, plain: bool, setup: Setup) returns (r: Preparation)
      requires list.Valid() && Linked(list)
      modifies this, list`ledger, list.Spine()
      ensures list.Valid() && Linked(list) && r == old(Verdict(plain, setup))
      ensures r == Prepared <==> !plain && !old(using) && (old(own) != null || setup == Setup(true, true, true, true))
      ensures r == NoBuffer <==>
              !plain && (old(using) || (old(own) == null && setup.usable && setup.memory && !setup.buffers))
      ensures r == Prepared ==> using && own != null
      ensures r != Prepared ==> using == old(using) && own == old(own)
      ensures plain || old(using) ==> r == (if plain then Disabled else NoBuffer) && list.ledger == old(list.ledger)
      ensures old(own) != null ==> list.ledger == old(list.ledger) && own == old(own)
      ensures list.ledger == old(list.ledger)
              || (r == Prepared && fresh(own) && list.ledger == Apply(old(list.ledger), Join(own)))
              || (r == Disabled && !setup.recorded
                  && exists x: Resource :: fresh(x) && list.ledger == Apply(old(list.ledger), Discard(x)))
    {
      if plain {
        return Disabled;
      }
      var flag := using;
      using := true;
      if flag {
        return NoBuffer;
      }
      if own == null {
        var res;
        r, res := FirstUse(list, setup);
        if r != Prepared {
          using := false;
          return;
        }
        own := res;
      }
      r := Prepared;
    }

    /** The part of it that a thread goes through once. */
    method FirstUse(list: Registry, setup: Setup) returns (r: Preparation, res: Resource?)
      requires list.Valid()
      modifies list`ledger, list.Spine()
      ensures list.Valid()
      ensures r == Prepared || r == if setup.usable && setup.memory && !setup.buffers then NoBuffer else Disabled
      ensures (r == Prepared && setup == Setup(true, true, true, true) && res != null && fresh(res)
               && list.ledger == Apply(old(list.ledger), Join(res)))
              || (r != Prepared && setup != Setup(true, true, true, true) && list.ledger == old(list.ledger))
              || (r == Disabled && !setup.recorded
                  && exists x: Resource :: fresh(x) && list.ledger == Apply(old(list.ledger), Discard(x)))
    {
      if !setup.usable || !setup.memory {
        return Disabled, null;
      }
      res := new Resource();
      if !setup.buffers {
        return NoBuffer, null;
      }
      if !setup.recorded {
        ApplySound(list.ledger, Discard(res));
        list.Release(res, false, list.ledger.live);
        return Disabled, null;
      }
      list.Insert(res);
      r := Prepared;
    }

    /** `ve_accelerated_io_post`. */
    method Finish()
      modifies this`using
      ensures !using
    {
      using := false;
    }

    /** The thread exits: the destructor of its key gets its resource, if it has one. */
    method Exit(list: Registry)
      requires list.Valid() && Linked(list)
      modifies this`own, list`ledger, list.Spine()
      ensures list.Valid() && own == null
      ensures list.ledger == if old(own) == null then old(list.ledger) else Apply(old(list.ledger), Leave(old(own)))
    {
      var param := own;
      own := null;
      if param != null {
        list.Depart(param);
      }
    }

    /** The forking thread in the child: its key, the list and its flag start over, whatever request
        was under way at the fork. */
    method AtForkChild(list: Registry)
      requires list.Valid()
      modifies this, list`ledger, list.Spine()
      ensures list.Valid() && Linked(list) && list.ledger == Apply(old(list.ledger), Child)
      ensures forall setup :: Verdict(false, setup) == Prepared <==> setup == Setup(true, true, true, true)
    {
      own := null;
      list.ChildReset();
      using := false;
    }
  }
}
