/** The argument object of src/libvhcall.c: a singly linked list with a sentinel, changed in place. */
module VhCallArgs {
  import opened Bytes
  import opened VhCallSpec

  datatype Status = Success | Invalid | NoMemory

  class Node {
    var num: int
    var data: Data
    var next: Node?

    constructor (num: int)
      ensures this.num == num && data == ZERO && next == null
    {
      this.num, data, next := num, ZERO, null;
    }
  }

  /** The node after number `i` of a list. */
  ghost function Follow(spine: seq<Node>, i: int): Node?
    requires 0 <= i < |spine|
  {
    if i + 1 < |spine| then spine[i + 1] else null
  }

  ghost predicate AllDistinct(s: seq<Node>) { forall i, j :: 0 <= i < j < |s| ==> s[i] != s[j] }

  /** The nodes are chained in this order. */
  ghost predicate Chained(s: seq<Node>)
    reads s
  {
    forall i {:trigger Follow(s, i)} :: 0 <= i < |s| ==> s[i].next == Follow(s, i)
  }

  /** A list with a new node `p` behind node number `k`. */
  ghost function Spliced(s: seq<Node>, k: nat, p: Node): seq<Node>
    requires k < |s|
  {
    s[..k + 1] + [p] + s[k + 1..]
  }

  lemma {:induction false} SplicedChain(s: seq<Node>, k: nat, p: Node)
    requires k < |s|
    requires p.next == Follow(s, k) && s[k].next == p
    requires forall i :: 0 <= i < |s| && i != k ==> s[i].next == Follow(s, i)
    ensures Chained(Spliced(s, k, p))
  {
    var t := Spliced(s, k, p);
    assert t[k] == s[k] && t[k + 1] == p;
    forall i | 0 <= i < |t| ensures t[i].next == Follow(t, i) {
      if i < k {
        assert t[i] == s[i] && Follow(t, i) == t[i + 1] == s[i + 1] == Follow(s, i);
      } else if i == k + 1 {
        assert Follow(t, i) == Follow(s, k);
      } else if i > k + 1 {
        assert t[i] == s[i - 1] && Follow(t, i) == Follow(s, i - 1);
      }
    }
  }

  /** The arguments of the first `n` nodes. */
  ghost function Upto(s: seq<Entry>, n: nat): seq<Entry>
  {
    if n == 0 then [] else if n - 1 <= |s| then s[..n - 1] else s
  }

  class Args {
    const head: Node
    const argsNum: int
    /** Whether the k-th allocation made for this object succeeds. */
    const granted: nat -> bool
    var allocs: nat
    /** The nodes in list order, the sentinel first; and what the others hold. */
    ghost var spine: seq<Node>
    ghost var entries: seq<Entry>

    ghost function Nodes(): set<Node>
      reads this`spine
    {
      set x | x in spine
    }

    ghost predicate Linked()
      reads this`spine, spine
    {
      |spine| > 0 && spine[0] == head && Chained(spine)
    }

    ghost predicate Held()
      reads this`spine, this`entries, spine
    {
      && |spine| == |entries| + 1 && spine[0].num == -1 && spine[0].data.cl != Cdb
      && forall i :: 0 <= i < |entries| ==> spine[i + 1].num == entries[i].num && spine[i + 1].data == entries[i].data
    }

    ghost predicate Valid()
      reads this`spine, this`entries, spine
    {
      Linked() && Held() && Sorted(entries) && argsNum >= -1
    }

    /** `vhcall_args_alloc_num`; `vhcall_args_alloc` is the case of a negative number. */
    constructor (num: int, granted: nat -> bool)
      ensures Valid() && entries == [] && allocs == 0 && fresh(spine)
      ensures this.argsNum == (if num < 0 then -1 else num) && this.granted == granted
    {
      head := new Node(-1);
      argsNum := if num < 0 then -1 else num;
      this.granted := granted;
      allocs := 0;
      new;
      spine, entries := [head], [];
    }

    /** The nodes are distinct, for their numbers are. */
    lemma {:induction false} Apart()
      requires Valid()
      ensures AllDistinct(spine)
    {
      forall i, j | 0 <= i < j < |spine| ensures spine[i] != spine[j] {
        assert spine[j].num == entries[j - 1].num;
        if i > 0 { assert spine[i].num == entries[i - 1].num; }
      }
    }

    /** Links a new node for `num` behind node `prev`, number `k` of the list. */
    method Link(prev: Node, ghost k: nat, num: int) returns (p: Node?)
      requires Linked() && Held() && AllDistinct(spine) && k < |spine| && prev == spine[k]
      modifies this`allocs, this`spine, this`entries, prev`next
      ensures allocs == old(allocs) + 1 && (p == null) == !granted(old(allocs))
      ensures p == null ==> spine == old(spine) && entries == old(entries) && prev.next == old(prev.next)
      ensures p != null ==>
                && fresh(p) && p.num == num && p.data == ZERO
                && spine == Spliced(old(spine), k, p)
                && entries == old(entries)[..k] + [Entry(num, ZERO)] + old(entries)[k..]
                && Linked() && Held()
    {
      assert spine[k].next == Follow(spine, k);
      allocs := allocs + 1;
      if !granted(allocs - 1) {
        return null;
      }
      var tmp := new Node(num);
      tmp.next := prev.next;
      prev.next := tmp;
      p := tmp;
      forall i | 0 <= i < |spine| && i != k ensures spine[i].next == Follow(spine, i) {
        assert old(spine[i].next) == Follow(spine, i) && spine[i] != spine[k];
      }
      SplicedChain(spine, k, tmp);
      Grow(k, tmp);
    }

    /** The ghost record of a new node. */
    ghost method Grow(k: nat, p: Node)
      requires |spine| == |entries| + 1 && k < |spine| && Held() && p.data == ZERO
      modifies this`spine, this`entries
      ensures spine == Spliced(old(spine), k, p)
      ensures entries == old(entries)[..k] + [Entry(p.num, ZERO)] + old(entries)[k..]
      ensures Held()
    {
      ghost var was, before := spine, entries;
      spine := Spliced(spine, k, p);
      entries := entries[..k] + [Entry(p.num, ZERO)] + entries[k..];
      forall i | 0 <= i < |entries| ensures spine[i + 1].num == entries[i].num && spine[i + 1].data == entries[i].data {
        if i < k { assert spine[i + 1] == was[i + 1] && entries[i] == before[i]; }
        if i > k { assert spine[i + 1] == was[i] && entries[i] == before[i - 1]; }
      }
    }

    /** The walk of `vhcall_args_append`: `p` is the first node that is not below `num` and `tmp` the
        one before it, or `atEnd` tells that `p`, the last, is below it too. */
    method Seek(num: int) returns (p: Node, tmp: Node, atEnd: bool, ghost k: nat)
      requires Valid() && num >= 0
      ensures k == Place(entries, num)
      ensures atEnd ==> p == spine[k] && k == |entries|
      ensures !atEnd ==> k < |entries| && p == spine[k + 1] && tmp == spine[k] && p.num == entries[k].num >= num
    {
      p, tmp, atEnd := head, head, false;
      ghost var at := 0;
      while p.num < num
        invariant at < |spine| && p == spine[at] && (at > 0 ==> tmp == spine[at - 1])
        invariant forall i :: 0 <= i < at ==> spine[i].num < num
        decreases |spine| - at
      {
        assert p.next == Follow(spine, at);
        if p.next == null {
          PlaceHere(num, at);
          return p, tmp, true, at;
        }
        tmp := p;
        p := p.next;
        at := at + 1;
      }
      k := at - 1;
      PlaceHere(num, k);
      assert spine[k + 1].num == entries[k].num;
    }

    /** `vhcall_args_append`: the node for `num`, made if there is none; null if that takes memory
        and there is none. */
    method Append(num: int) returns (p: Node?, ghost k: nat)
      requires Valid() && num >= 0
      modifies this`allocs, this`spine, this`entries, Nodes()
      ensures Valid() && k == Place(old(entries), num)
      ensures p == null <==> !Has(old(entries), num) && !granted(old(allocs))
      ensures allocs == old(allocs) + if Has(old(entries), num) then 0 else 1
      ensures p == null ==> spine == old(spine) && entries == old(entries)
      ensures p != null ==> entries == InsertEntry(old(entries), num) && k + 1 < |spine| && p == spine[k + 1]
      ensures p != null ==> spine == if Has(old(entries), num) then old(spine) else Spliced(old(spine), k, p)
      ensures p != null && !Has(old(entries), num) ==> fresh(p)
    {
      InsertKeepsSorted(entries, num);
      var q, tmp, atEnd;
      q, tmp, atEnd, k := Seek(num);
      Apart();
      if atEnd {
        p := Link(q, k, num);
      } else if q.num > num {
        p := Link(tmp, k, num);
      } else {
        p := q;
      }
    }

    /** The walk has passed `k` entries below `num`, and the next one, if any, is not below it. */
    lemma {:induction false} PlaceHere(num: int, k: nat)
      requires Valid() && k <= |entries| && forall i :: 0 <= i <= k ==> spine[i].num < num
      requires k < |entries| ==> spine[k + 1].num >= num
      ensures Place(entries, num) == k
    {
      forall i | 0 <= i < k ensures entries[i].num < num { assert spine[i + 1].num < num; }
      PlaceIs(entries, num, k);
    }

    /** The list has gained a new node behind number `k`. */
    twostate predicate Gained(k: nat)
      reads this`spine
    {
      && k < |old(spine)| && k + 1 < |spine| && fresh(spine[k + 1])
      && spine == Spliced(old(spine), k, spine[k + 1])
    }

    twostate lemma {:induction false} GainedNew(k: nat)
      requires Gained(k)
      ensures OnlyNew() && spine[k] == old(spine[k]) && |spine| == |old(spine)| + 1
    {
    }

    /** `vhcall_args_set`. */
    method Set(op: SetOp) returns (r: Status)
      requires Valid() && WellFormed(op)
      modifies this`allocs, this`spine, this`entries, Nodes()
      ensures Valid()
      ensures r == Invalid <==> op.num < 0 || !(INTENT_IN <= op.inout <= INTENT_OUT)
      ensures r != Success ==> entries == old(entries)
      ensures r == Success ==> Stores(old(entries), entries, op)
      ensures r == NoMemory <==> Accepted(op) && !Has(old(entries), op.num) && !granted(old(allocs))
      ensures entries == Perform(old(entries), Command.Set(op, granted(old(allocs))))
      ensures allocs == old(allocs) + if Accepted(op) && !Has(old(entries), op.num) then 1 else 0
      ensures r != Success || Has(old(entries), op.num) ==> spine == old(spine)
      ensures r == Success && !Has(old(entries), op.num) ==> Gained(Place(old(entries), op.num))
    {
      if op.num < 0 || op.inout < INTENT_IN || op.inout > INTENT_OUT {
        return Invalid;
      }
      ghost var s0 := entries;
      ghost var k;
      var p;
      p, k := Append(op.num);
      if p == null {
        return NoMemory;
      }
      SetKeepsSorted(s0, op);
      PlaceBounds(s0, op.num);
      Overwrite(p, k, op);
      SetStores(s0, op);
      r := Success;
    }

    /** `vhcall_args_clear`: every node but the sentinel is freed once, and none is looked at after
        it has been freed. */
    method Clear() returns (ghost freed: seq<Node>)
      requires Valid()
      modifies this`spine, this`entries, head`next
      ensures Valid() && entries == [] && spine == [head] && freed == old(spine)[1..]
    {
      ghost var n := 1;
      Apart();
      freed := [];
      var p := head.next;
      assert p == Follow(spine, 0);
      while p != null
        invariant 1 <= n <= |spine| && freed == spine[1..n]
        invariant p == if n < |spine| then spine[n] else null
        decreases |spine| - n
      {
        var prev := p;
        assert prev !in freed && p.next == Follow(spine, n);
        p := p.next;
        freed := freed + [prev];
        n := n + 1;
      }
      head.next := null;
      spine, entries := [head], [];
    }

    /** The part of `vhcall_args_set` that writes the node. */
    method Overwrite(p: Node, ghost k: nat, op: SetOp)
      requires Valid() && WellFormed(op) && k + 1 < |spine| && p == spine[k + 1] && op.num == entries[k].num
      modifies this`entries, p`data
      ensures Linked() && Held()
      ensures entries == old(entries)[k := Entry(op.num, Overlay(old(entries)[k].data, op))]
    {
      Apart();
      assert p.data == entries[k].data && |entries[k].data.val| == VAL_SIZE;
      p.data := Overlay(p.data, op);
      entries := entries[k := Entry(op.num, p.data)];
    }

    // ---- the invocation --------------------------------------------------------------------

    /** The walk of `vhcall_invoke_with_args` stands at node `p`, number `n` of the list; the `n`
        entries before it have been checked, and completed if the number of arguments is known. */
    ghost predicate Walking(s0: seq<Entry>, p: Node?, n: nat)
      reads this`spine, this`entries, spine
    {
      && Valid() && Sorted(s0) && n <= |spine|
      && p == (if n < |spine| then spine[n] else null)
      && (n < |spine| ==> spine[n].num == n - 1)
      && if argsNum == -1 then entries == s0 && (forall i :: 0 <= i < n && i < |entries| ==> entries[i].num == i)
         else Filled(s0, n)
    }

    ghost predicate Filled(s0: seq<Entry>, n: nat)
      reads this`entries
    {
      var k := if n <= |entries| then n else |entries|;
      && CompletedTo(s0, entries, k)
      && n <= argsNum + 1
      && (n == argsNum + 1 && n <= |entries| ==> exists e :: e in s0 && e.num >= argsNum)
      && (n > |entries| ==> |entries| == argsNum)
    }

    /** The list has gained nodes made since, if any. */
    twostate predicate OnlyNew()
      reads this`spine
    {
      fresh(Nodes() - old(Nodes()))
    }

    /** The walk stops here: a refusal, with the list as it was before this turn. */
    ghost predicate Stopped(r: Status, s0: seq<Entry>, before: seq<Entry>, a: nat)
      reads this`allocs, this`entries
    {
      entries == before && ((r == Invalid && Wrong(s0)) || (r == NoMemory && allocs == a + 1 && !granted(a)))
    }

    /** Why an invocation is given up after the first `a` allocations; the arguments are still there. */
    ghost predicate Refused(r: Status, s0: seq<Entry>, a: nat)
      reads this`allocs, this`entries
    {
      && Kept(s0, entries)
      && ((r == Invalid && Wrong(s0)) || (r == NoMemory && exists k :: a <= k < allocs && !granted(k)))
    }

    /** What happens at node `p`, number `n`: the next number must be there, or is filled in. */
    method Visit(p: Node, ghost n: nat, ghost s0: seq<Entry>) returns (r: Status)
      requires Walking(s0, p, n) && n < |spine|
      modifies this`allocs, this`spine, this`entries, Nodes()
      ensures allocs >= old(allocs) && OnlyNew()
      ensures (r == Success && Passed(p, n, s0) && Upto(entries, n) == Upto(old(entries), n))
              || (r != Success && Valid() && Stopped(r, s0, old(entries), old(allocs)))
    {
      if argsNum != -1 {
        r := VisitKnown(p, n, s0);
      } else {
        r := VisitOpen(p, n, s0);
      }
    }

    /** The walk has dealt with node `p`, number `n`. */
    ghost predicate Passed(p: Node, n: nat, s0: seq<Entry>)
      reads this`spine, this`entries, spine, p
    {
      n < |spine| && n <= |entries| && spine[n] == p && p.num == n - 1 && Walking(s0, p.next, n + 1)
    }

    /** The arguments do not fit the declared number, or have a gap if none was declared. */
    ghost predicate Wrong(s0: seq<Entry>) {
      if argsNum != -1 then exists e :: e in s0 && e.num >= argsNum else !GapFree(s0)
    }

    /** With no declared number, the next number must be there. */
    method VisitOpen(p: Node, ghost n: nat, ghost s0: seq<Entry>) returns (r: Status)
      requires argsNum == -1 && Walking(s0, p, n) && n < |spine|
      ensures (r == Success && Passed(p, n, s0)) || (r == Invalid && Wrong(s0))
    {
      assert p.next == Follow(spine, n);
      if p.next != null {
        assert spine[n + 1].num == entries[n].num;
        if p.num + 1 != p.next.num {
          assert s0[n].num != n;
          return Invalid;
        }
      }
      r := Success;
    }

    /** With a declared number, the next number is filled in if it is missing and within range. */
    method VisitKnown(p: Node, ghost n: nat, ghost s0: seq<Entry>) returns (r: Status)
      requires argsNum != -1 && Walking(s0, p, n) && n < |spine|
      modifies this`allocs, this`spine, this`entries, Nodes()
      ensures allocs >= old(allocs) && OnlyNew()
      ensures (r == Success && Passed(p, n, s0) && Upto(entries, n) == Upto(old(entries), n))
              || (r != Success && Valid() && Stopped(r, s0, old(entries), old(allocs)))
    {
      assert p.next == Follow(spine, n);
      if p.num + 1 > argsNum {
        return Invalid;
      }
      r := Success;
      if p.next != null {
        assert spine[n + 1].num == entries[n].num;
        if p.num + 1 != p.next.num {
          r := FillNext(p, n, s0);
        } else {
          KeepNext(n, s0);
        }
      } else {
        if p.num + 1 < argsNum {
          r := FillNext(p, n, s0);
        }
      }
    }

    /** The next node has the next number. */
    lemma {:induction false} KeepNext(n: nat, s0: seq<Entry>)
      requires argsNum != -1 && n <= argsNum && n + 1 < |spine| && Walking(s0, spine[n], n)
      requires spine[n + 1].num == n
      ensures Walking(s0, spine[n + 1], n + 1)
    {
      assert spine[n + 1].num == entries[n].num;
      CompletedKeep(s0, entries, n);
      Supplied(s0, entries, n);
    }

    /** Inserts number `n` behind the node the walk stands at. */
    method Insert(n: nat, ghost t: seq<Entry>) returns (r: Status)
      requires Valid() && n < |spine| && !Has(entries, n) && Place(entries, n) == n
      requires t == SetEntry(entries, FillOp(n))
      modifies this`allocs, this`spine, this`entries, Nodes()
      ensures Valid() && allocs == old(allocs) + 1 && OnlyNew()
      ensures (r == Success && entries == t && n + 1 < |spine|
               && spine[n] == old(spine[n]) && spine[n].num == old(spine[n].num))
              || (r == NoMemory && !granted(old(allocs)) && entries == old(entries))
    {
      ghost var was := if n > 0 then entries[n - 1] else Entry(-1, ZERO);
      assert spine[n].num == was.num by { if n > 0 { assert entries[n - 1] == was; } }
      r := Set(FillOp(n));
      if r == Success {
        GainedNew(n);
        if n > 0 { assert entries[n - 1] == was; }
      }
    }

    /** The next number is missing: an argument is inserted behind the node the walk stands at. */
    method FillNext(p: Node, ghost n: nat, ghost s0: seq<Entry>) returns (r: Status)
      requires argsNum != -1 && n <= argsNum && n < |spine| && Walking(s0, p, n)
      requires n < |entries| ==> entries[n].num != n
      requires n == |entries| ==> n < argsNum
      modifies this`allocs, this`spine, this`entries, Nodes()
      ensures allocs >= old(allocs) && OnlyNew()
      ensures (r == Success && Passed(p, n, s0) && Upto(entries, n) == Upto(old(entries), n))
              || (r == NoMemory && Valid() && Stopped(r, s0, old(entries), old(allocs)))
    {
      ghost var t := Completed(n, s0);
      r := Insert(p.num + 1, t);
      if r == Success {
        AfterFill(p, n, s0);
      }
    }

    /** What the list becomes when the missing number is filled in. */
    lemma {:induction false} Completed(n: nat, s0: seq<Entry>) returns (t: seq<Entry>)
      requires argsNum != -1 && n <= argsNum && n < |spine| && Walking(s0, spine[n], n)
      requires n < |entries| ==> entries[n].num != n
      requires n == |entries| ==> n < argsNum
      ensures !Has(entries, n) && Place(entries, n) == n && t == SetEntry(entries, FillOp(n))
      ensures CompletedTo(s0, t, n + 1) && Upto(t, n) == Upto(entries, n)
      ensures n == argsNum ==> exists e :: e in s0 && e.num >= argsNum
    {
      if n < |entries| {
        NextIsAbove(n, s0);
        Supplied(s0, entries, n);
      }
      CompletedFill(s0, entries, n);
      t := SetEntry(entries, FillOp(n));
      assert n > 0 ==> t[..n - 1] == entries[..n - 1];
    }

    /** The walk may go on to the node that was inserted. */
    lemma {:induction false} AfterFill(p: Node, n: nat, s0: seq<Entry>)
      requires Valid() && Sorted(s0) && argsNum != -1 && n <= argsNum && n + 1 < |spine|
      requires spine[n] == p && p.num == n - 1 && CompletedTo(s0, entries, n + 1)
      requires n == argsNum ==> exists e :: e in s0 && e.num >= argsNum
      ensures Passed(p, n, s0)
    {
      DenseNumbers(s0, n + 1);
      assert entries[n] == entries[..n + 1][n];
      assert spine[n + 1].num == entries[n].num;
      assert spine[n].next == Follow(spine, n);
    }

    lemma {:induction false} NextIsAbove(n: nat, s0: seq<Entry>)
      requires n < |spine| && Walking(s0, spine[n], n) && n < |entries| && entries[n].num != n
      ensures entries[n].num > n
    {
      if n > 0 { assert spine[n].num == entries[n - 1].num; }
    }

    /** The bytes that node `p`, number `n`, adds: none for the sentinel. */
    method Add(p: Node, ghost n: nat, insize: nat, size: nat) returns (sum: nat)
      requires Valid() && n < |spine| && p == spine[n] && p.num == n - 1
      requires insize == SizeOf(Upto(entries, n), size)
      ensures sum == SizeOf(Upto(entries, n + 1), size)
    {
      sum := insize;
      if n > 0 {
        assert Upto(entries, n + 1)[..n - 1] == Upto(entries, n);
        assert p.data == entries[n - 1].data;
      }
      if p.data.cl == Cdb {
        sum := sum + 2 * size;
      } else if p.num + 1 != 0 {
        sum := sum + size;
      }
    }

    /** How many nodes the walk may still come to. */
    ghost function Left(n: nat): int
      reads this`spine
    {
      if argsNum != -1 then argsNum + 2 - n else |spine| - n
    }

    /** The list is complete, and takes up `insize` bytes of records. */
    ghost predicate Counted(s0: seq<Entry>, insize: nat, size: nat)
      reads this`spine, this`entries, Nodes()
    {
      Valid() && Kept(s0, entries) && Fit(s0) && insize == SizeOf(entries, size)
    }

    /** The walk is at node `p`, number `n`, and has added up the bytes of those before it; or it is
        over. */
    ghost predicate Counting(s0: seq<Entry>, p: Node?, n: nat, insize: nat, size: nat)
      reads this`spine, this`entries, Nodes()
    {
      || (p != null && n < |spine| && Walking(s0, p, n) && insize == SizeOf(Upto(entries, n), size))
      || (p == null && Counted(s0, insize, size))
    }

    /** One turn of the validation pass. */
    method Turn(p: Node, ghost n: nat, ghost s0: seq<Entry>, insize: nat, size: nat)
      returns (r: Status, q: Node?, sum: nat)
      requires Counting(s0, p, n, insize, size)
      modifies this`allocs, this`spine, this`entries, Nodes()
      ensures allocs >= old(allocs) && OnlyNew() && (r == Success ==> 0 <= Left(n + 1) < old(Left(n)))
      ensures (r == Success && Counting(s0, q, n + 1, sum, size))
              || (r != Success && Valid() && Refused(r, s0, old(allocs)))
    {
      StillKept(s0, p, n);
      r := Visit(p, n, s0);
      q, sum := p.next, insize;
      if r == Success {
        sum := Add(p, n, insize, size);
        Counts(s0, q, n + 1, sum, size);
      }
    }

    /** The next node is there, or the walk is over. */
    lemma {:induction false} Counts(s0: seq<Entry>, p: Node?, n: nat, insize: nat, size: nat)
      requires Walking(s0, p, n) && insize == SizeOf(Upto(entries, n), size)
      ensures Counting(s0, p, n, insize, size)
    {
      if p == null { Ended(n, s0); }
    }

    /** The validation pass of `vhcall_invoke_with_args`: checks or completes the arguments, and adds
        up the bytes of their records.  It ends although it inserts into the list it walks. */
    method Check(size: nat) returns (r: Status, insize: nat)
      requires Valid()
      modifies this`allocs, this`spine, this`entries, Nodes()
      ensures allocs >= old(allocs)
      ensures (r == Success && Counted(old(entries), insize, size))
              || (r != Success && Valid() && Refused(r, old(entries), old(allocs)))
    {
      ghost var s0, n, start := entries, 0, allocs;
      Began(size);
      var p: Node? := head;
      insize, r := 0, Success;
      while p != null
        invariant r == Success && allocs >= start && OnlyNew()
        invariant Counting(s0, p, n, insize, size)
        decreases Left(n)
      {
        r, p, insize := Turn(p, n, s0, insize, size);
        if r != Success { return; }
        n := n + 1;
      }
    }

    /** The list is what an invocation sends of the arguments `s0`. */
    ghost predicate Fit(s0: seq<Entry>)
      reads this`entries
    {
      if argsNum >= 0 then (forall e :: e in s0 ==> e.num < argsNum) && entries == Dense(s0, argsNum)
      else GapFree(s0) && entries == s0
    }

    /** The walk starts at the sentinel. */
    lemma {:induction false} Began(size: nat)
      requires Valid()
      ensures Counting(entries, head, 0, 0, size)
    {
      CompletedStart(entries);
    }

    lemma {:induction false} StillKept(s0: seq<Entry>, p: Node?, n: nat)
      requires Walking(s0, p, n)
      ensures Kept(s0, entries)
    {
      if argsNum != -1 { CompletedKeeps(s0, entries, if n <= |entries| then n else |entries|); }
    }

    /** The walk is over. */
    lemma {:induction false} Ended(n: nat, s0: seq<Entry>)
      requires Walking(s0, null, n)
      ensures Fit(s0) && Kept(s0, entries) && n == |spine| && Upto(entries, n) == entries
    {
      StillKept(s0, null, n);
      if argsNum != -1 {
        NothingBehind(s0, entries, |entries|);
      }
    }

    lemma {:induction false} FitIsRight(s0: seq<Entry>)
      requires Valid() && Sorted(s0) && Fit(s0)
      ensures !Wrong(s0) && forall i :: 0 <= i < |entries| ==> entries[i].num == i
    {
      if argsNum != -1 { DenseNumbers(s0, argsNum); }
    }

    // ---- the second pass -------------------------------------------------------------------

    /** `memcpy(inptr, record, size)` and the step to the next record. */
    static method Put(buf: array<byte>, at: nat, record: seq<byte>) returns (next: nat)
      requires at + |record| <= buf.Length
      modifies buf
      ensures next == at + |record| && buf[..next] == old(buf[..at]) + record
    {
      forall i | 0 <= i < |record| { buf[at + i] := record[i]; }
      next := at + |record|;
    }

    /** The two halves of the double complex `d`, sent from the record `data`. */
    static method PutHalves(buf: array<byte>, at: nat, d: Data, data: Data, enc: Data -> seq<byte>, size: nat)
      returns (data': Data, next: nat)
      requires |d.val| == |data.val| == VAL_SIZE && FixedSize(enc, size) && at + 2 * size <= buf.Length
      modifies buf
      ensures |data'.val| == VAL_SIZE && data'.val[WORD..] == data.val[WORD..] && next == at + 2 * size
      ensures buf[..next]
              == old(buf[..at]) + (enc(Half(d, 0, data.val[WORD..])) + enc(Half(d, 1, data.val[WORD..])))
    {
      data' := Data(Dbl, INTENT_IN, WORD, Blit(data.val, 0, d.val[..WORD]));
      assert data' == Half(d, 0, data.val[WORD..]);
      next := Put(buf, at, enc(data'));
      data' := data'.(val := Blit(data'.val, 0, d.val[WORD..2 * WORD]));
      assert data' == Half(d, 1, data.val[WORD..]);
      next := Put(buf, next, enc(data'));
    }

    /** The records of node `p`, number `k + 1`.  `data` is the record on the stack that the parts of
        double complex numbers are sent from; only the first word of its value is ever written. */
    method Emit(p: Node, ghost k: nat, data: Data, enc: Data -> seq<byte>, size: nat, buf: array<byte>, at: nat)
      returns (data': Data, next: nat)
      requires Linked() && Held() && Framed(entries)
      requires k < |entries| && p == spine[k + 1] && FixedSize(enc, size) && |data.val| == VAL_SIZE
      requires at == SizeOf(entries[..k], size) <= buf.Length == SizeOf(entries, size)
      modifies buf
      ensures |data'.val| == VAL_SIZE && data'.val[WORD..] == data.val[WORD..]
      ensures next == SizeOf(entries[..k + 1], size) <= buf.Length
      ensures buf[..next] == old(buf[..at]) + Sent(enc, entries[k].data, data.val[WORD..])
    {
      assert p.data == entries[k].data;
      assert entries[..k + 1][..k] == entries[..k];
      SizePrefix(entries, k + 1, size);
      data' := data;
      if p.data.cl == Cdb {
        data', next := PutHalves(buf, at, p.data, data, enc, size);
      } else {
        next := Put(buf, at, enc(p.data));
      }
    }

    /** The bytes written are the records of the first `k` arguments, as many as were counted. */
    ghost predicate Written(enc: Data -> seq<byte>, size: nat, junk: seq<byte>, k: nat, data: Data, bytes: seq<byte>)
      reads this`entries
    {
      && k <= |entries| && Framed(entries) && FixedSize(enc, size)
      && |data.val| == VAL_SIZE && data.val[WORD..] == junk
      && |bytes| == SizeOf(entries[..k], size) && bytes == Message(enc, entries[..k], junk)
    }

    /** One turn of the marshalling pass. */
    method EmitNext(p: Node, ghost k: nat, data: Data, enc: Data -> seq<byte>, size: nat, buf: array<byte>, at: nat,
                    ghost junk: seq<byte>)
      returns (data': Data, next: nat)
      requires Linked() && Held() && k < |entries| && p == spine[k + 1]
      requires at <= buf.Length == SizeOf(entries, size) && Written(enc, size, junk, k, data, buf[..at])
      modifies buf
      ensures next <= buf.Length && Written(enc, size, junk, k + 1, data', buf[..next])
    {
      MessageSnoc(enc, entries, k, junk);
      data', next := Emit(p, k, data, enc, size, buf, at);
    }

    /** The marshalling pass: it writes exactly the bytes that the validation pass counted. */
    method Marshal(raw: Data, enc: Data -> seq<byte>, size: nat, buf: array<byte>) returns (at: nat)
      requires Linked() && Held() && Framed(entries)
      requires FixedSize(enc, size) && |raw.val| == VAL_SIZE && buf.Length == SizeOf(entries, size)
      modifies buf
      ensures at == buf.Length && buf[..] == Message(enc, entries, raw.val[WORD..])
    {
      ghost var k, junk := 0, raw.val[WORD..];
      var data := raw;
      at := 0;
      assert head.next == Follow(spine, 0);
      var p := head.next;
      while p != null
        invariant k <= |entries| && p == Follow(spine, k)
        invariant at <= buf.Length && Written(enc, size, junk, k, data, buf[..at])
        decreases |entries| - k
      {
        data, at := EmitNext(p, k, data, enc, size, buf, at, junk);
        assert p.next == Follow(spine, k + 1);
        p := p.next;
        k := k + 1;
      }
      assert entries[..k] == entries;
      assert buf[..at] == buf[..];
    }

    /** Allocates the buffer, fills it, and steps back to its start. */
    method Compose(raw: Data, enc: Data -> seq<byte>, size: nat, insize: nat) returns (sent: seq<byte>)
      requires Linked() && Held() && Framed(entries)
      requires FixedSize(enc, size) && |raw.val| == VAL_SIZE && insize == SizeOf(entries, size)
      ensures sent == Message(enc, entries, raw.val[WORD..]) && |sent| == insize
    {
      var buf := new byte[insize](_ => 0);
      var inptr := Marshal(raw, enc, size, buf);
      inptr := inptr - insize;
      sent := buf[inptr..inptr + insize];
    }

    /** `vhcall_invoke_with_args` up to the system call: `sent` is what the call is given.  `raw` is
        the uninitialised record on the stack, `room` tells whether the buffer can be allocated. */
    method Invoke(raw: Data, enc: Data -> seq<byte>, size: nat, room: bool) returns (r: Status, sent: seq<byte>)
      requires Valid() && FixedSize(enc, size) && |raw.val| == VAL_SIZE
      modifies this`allocs, this`spine, this`entries, Nodes()
      ensures (r == Success && Valid() && Kept(old(entries), entries) && Fit(old(entries))
               && sent == Message(enc, entries, raw.val[WORD..]))
              || (r != Success && Valid() && Kept(old(entries), entries) && sent == []
                  && (Refused(r, old(entries), old(allocs))
                      || (r == NoMemory && !room && SizeOf(entries, size) > 0)))
      ensures r == Success ==> !Wrong(old(entries)) && forall i :: 0 <= i < |entries| ==> entries[i].num == i
      ensures r == Success ==> |sent| == SizeOf(entries, size) && (room || sent == [])
      ensures (forall k :: granted(k)) ==>
                (r == Success <==> !Wrong(old(entries)) && (room || SizeOf(entries, size) == 0))
    {
      ghost var s0 := entries;
      var insize;
      r, insize := Check(size);
      sent := [];
      if r == Success {
        if insize > 0 && !room {
          return NoMemory, [];
        }
        FitIsRight(s0);
        sent := Compose(raw, enc, size, insize);
      }
    }
  }
}
