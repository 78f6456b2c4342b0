/** Arguments of a VH call as values: sorted lists of numbered data, and the records made of them. */
module VhCallSpec {
  import opened Bytes

  /** Intents, in the order the library's range check relies on. */
  const INTENT_IN: int := 0
  const INTENT_OUT: int := 2

  const VAL_SIZE: nat := 16
  const WORD: nat := 8

  /** A zeroed object has class `Int`: all the code needs is that it is not `Cdb`. */
  datatype Class = Int | Dbl | Cdb | Ptr | Hdl
  datatype Data = Data(cl: Class, inout: int, size: nat, val: seq<byte>)
  datatype Entry = Entry(num: int, data: Data)

  function Zeros(n: nat): (r: seq<byte>)
    ensures |r| == n
  {
    seq(n, _ => 0)
  }

  const ZERO: Data := Data(Int, 0, 0, Zeros(VAL_SIZE))

  /** One call of `vhcall_args_set`: a pointer argument brings the 8 bytes of the pointer, any
      other the `size` bytes it points to. */
  datatype SetOp = SetOp(num: int, cl: Class, inout: int, size: nat, val: seq<byte>)

  predicate WellFormed(op: SetOp) {
    if op.cl == Ptr then |op.val| == WORD else |op.val| == op.size <= VAL_SIZE
  }

  predicate Accepted(op: SetOp) { op.num >= 0 && INTENT_IN <= op.inout <= INTENT_OUT }

  /** The new value bytes are laid over the old ones; the bytes behind them stay. */
  function Overlay(d: Data, op: SetOp): Data
    requires WellFormed(op) && |d.val| == VAL_SIZE
  {
    Data(op.cl, op.inout, op.size, Blit(d.val, 0, op.val))
  }

  /** Every argument has its full field of value bytes. */
  predicate Framed(s: seq<Entry>) { forall i :: 0 <= i < |s| ==> |s[i].data.val| == VAL_SIZE }

  ghost predicate Sorted(s: seq<Entry>) {
    && (forall i, j :: 0 <= i < j < |s| ==> s[i].num < s[j].num)
    && (forall i :: 0 <= i < |s| ==> 0 <= s[i].num)
    && Framed(s)
  }

  /** The place of `num`: the first entry that is not below it. */
  function Place(s: seq<Entry>, num: int): (k: nat)
    ensures k <= |s|
  {
    if s == [] || s[0].num >= num then 0 else 1 + Place(s[1..], num)
  }

  lemma {:induction false} PlaceIs(s: seq<Entry>, num: int, k: nat)
    requires k <= |s| && forall i :: 0 <= i < k ==> s[i].num < num
    requires k < |s| ==> s[k].num >= num
    ensures Place(s, num) == k
    decreases k
  {
    if k > 0 { PlaceIs(s[1..], num, k - 1); }
  }

  lemma {:induction false} PlaceBounds(s: seq<Entry>, num: int)
    ensures forall i :: 0 <= i < Place(s, num) ==> s[i].num < num
    ensures Place(s, num) < |s| ==> s[Place(s, num)].num >= num
  {
    if s != [] && s[0].num < num { PlaceBounds(s[1..], num); }
  }

  predicate Has(s: seq<Entry>, num: int) {
    Place(s, num) < |s| && s[Place(s, num)].num == num
  }

  function InsertEntry(s: seq<Entry>, num: int): seq<Entry> {
    var k := Place(s, num);
    if Has(s, num) then s else s[..k] + [Entry(num, ZERO)] + s[k..]
  }

  function SetEntry(s: seq<Entry>, op: SetOp): seq<Entry>
    requires WellFormed(op) && Framed(s)
  {
    var k, s' := Place(s, op.num), InsertEntry(s, op.num);
    s'[k := Entry(op.num, Overlay(s'[k].data, op))]
  }

  // ---- the list is a map -------------------------------------------------------------------

  function AsMap(s: seq<Entry>): map<int, Data> {
    if s == [] then map[] else AsMap(s[..|s| - 1])[s[|s| - 1].num := s[|s| - 1].data]
  }

  lemma {:induction false} MapHas(s: seq<Entry>, i: nat)
    requires Sorted(s) && i < |s|
    ensures s[i].num in AsMap(s) && AsMap(s)[s[i].num] == s[i].data
    decreases |s|
  {
    if i < |s| - 1 { MapHas(s[..|s| - 1], i); }
  }

  lemma {:induction false} MapComesFrom(s: seq<Entry>, n: int) returns (i: nat)
    requires n in AsMap(s)
    ensures i < |s| && s[i] == Entry(n, AsMap(s)[n])
    decreases |s|
  {
    i := |s| - 1;
    if n != s[i].num { i := MapComesFrom(s[..i], n); }
  }

  lemma {:induction false} MapHolds(s: seq<Entry>)
    requires Sorted(s)
    ensures forall e :: e in s ==> e.num in AsMap(s) && AsMap(s)[e.num] == e.data
    ensures forall n :: n in AsMap(s) ==> Entry(n, AsMap(s)[n]) in s
  {
    forall e | e in s ensures e.num in AsMap(s) && AsMap(s)[e.num] == e.data {
      var i :| 0 <= i < |s| && s[i] == e;
      MapHas(s, i);
    }
    forall n | n in AsMap(s) ensures Entry(n, AsMap(s)[n]) in s {
      var i := MapComesFrom(s, n);
    }
  }

  lemma {:induction false} InsertKeepsSorted(s: seq<Entry>, num: int)
    requires Sorted(s) && num >= 0
    ensures Sorted(InsertEntry(s, num))
  {
    PlaceBounds(s, num);
  }

  lemma {:induction false} SetKeepsSorted(s: seq<Entry>, op: SetOp)
    requires Sorted(s) && WellFormed(op) && op.num >= 0
    ensures Sorted(SetEntry(s, op))
  {
    PlaceBounds(s, op.num);
    InsertKeepsSorted(s, op.num);
    var k, s' := Place(s, op.num), InsertEntry(s, op.num);
    assert s'[k].num == op.num;
    NewDataKeepsSorted(s', k, Overlay(s'[k].data, op));
  }

  /** The order is one of the numbers alone. */
  lemma {:induction false} NewDataKeepsSorted(s: seq<Entry>, k: nat, data: Data)
    requires Sorted(s) && k < |s| && |data.val| == VAL_SIZE
    ensures Sorted(s[k := Entry(s[k].num, data)])
  {
    var t := s[k := Entry(s[k].num, data)];
    assert forall i :: 0 <= i < |s| ==> t[i].num == s[i].num;
  }

  /** The entry a set leaves under its own number. */
  function NewEntry(s: seq<Entry>, op: SetOp): Entry
    requires WellFormed(op) && Framed(s)
  {
    Entry(op.num, Overlay(if Has(s, op.num) then s[Place(s, op.num)].data else ZERO, op))
  }

  /** A set puts one entry between those below and those above its number. */
  lemma {:induction false} SetSplits(s: seq<Entry>, op: SetOp)
    requires Sorted(s) && WellFormed(op)
    ensures var k := Place(s, op.num);
            SetEntry(s, op) == s[..k] + [NewEntry(s, op)] + s[if Has(s, op.num) then k + 1 else k..]
  {
  }

  lemma {:induction false} ElementsAfterSet(s: seq<Entry>, op: SetOp, e: Entry)
    requires Sorted(s) && WellFormed(op)
    ensures e in SetEntry(s, op) <==> e == NewEntry(s, op) || (e in s && e.num != op.num)
  {
    var k, h := Place(s, op.num), Has(s, op.num);
    var hi := if h then k + 1 else k;
    PlaceBounds(s, op.num);
    SetSplits(s, op);
    assert s == s[..k] + (if h then [s[k]] else []) + s[hi..];
    assert forall i :: 0 <= i < k ==> s[i].num < op.num;
    assert forall i :: hi <= i < |s| ==> s[i].num > op.num;
  }

  /** The entry `e` is what the call `op` on the list `s` is to leave: the call's class, intent, size
      and value; behind the value the bytes that were there, or zeros if the argument is new. */
  ghost predicate Stored(e: Entry, s: seq<Entry>, op: SetOp)
    requires WellFormed(op) && Framed(s)
  {
    && e.num == op.num && e.data.cl == op.cl && e.data.inout == op.inout && e.data.size == op.size
    && |e.data.val| == 16 && e.data.val[..|op.val|] == op.val
    && (forall i :: 0 <= i < |s| && s[i].num == op.num ==>
          forall j :: |op.val| <= j < 16 ==> e.data.val[j] == s[i].data.val[j])
    && ((forall i :: 0 <= i < |s| ==> s[i].num != op.num) ==> forall j :: |op.val| <= j < 16 ==> e.data.val[j] == 0)
  }

  /** The list `t` has that entry, and the other arguments of `s`. */
  ghost predicate Stores(s: seq<Entry>, t: seq<Entry>, op: SetOp)
    requires WellFormed(op) && Framed(s)
  {
    && (exists e :: e in t && Stored(e, s, op))
    && forall e: Entry :: e.num != op.num ==> (e in t <==> e in s)
  }

  /** A set stores the value. */
  lemma {:induction false} SetStores(s: seq<Entry>, op: SetOp)
    requires Sorted(s) && WellFormed(op)
    ensures Stores(s, SetEntry(s, op), op)
  {
    var e, k := NewEntry(s, op), Place(s, op.num);
    PlaceBounds(s, op.num);
    ElementsAfterSet(s, op, e);
    assert forall i :: 0 <= i < |s| && s[i].num == op.num ==> i == k;
    BlitParts(if Has(s, op.num) then s[k].data.val else ZERO.val, 0, op.val);
    assert Stored(e, s, op);
    forall f: Entry | f.num != op.num ensures f in SetEntry(s, op) <==> f in s { ElementsAfterSet(s, op, f); }
  }

  /** What a set makes of the argument it names. */
  function Updated(m: map<int, Data>, op: SetOp): Data
    requires WellFormed(op) && Shaped(m)
  {
    Overlay(if op.num in m then m[op.num] else ZERO, op)
  }

  predicate Shaped(m: map<int, Data>) { forall n :: n in m ==> |m[n].val| == VAL_SIZE }

  lemma {:induction false} MapShaped(s: seq<Entry>)
    requires Sorted(s)
    ensures Shaped(AsMap(s))
  {
    MapHolds(s);
  }

  lemma {:induction false} HasIsIn(s: seq<Entry>, num: int)
    requires Sorted(s)
    ensures Has(s, num) <==> num in AsMap(s)
    ensures Has(s, num) ==> AsMap(s)[num] == s[Place(s, num)].data
  {
    PlaceBounds(s, num);
    MapHolds(s);
    if Has(s, num) { assert s[Place(s, num)] in s; }
    if num in AsMap(s) {
      var i :| 0 <= i < |s| && s[i] == Entry(num, AsMap(s)[num]);
      PlaceIs(s, num, i);
    }
  }

  /** Setting an argument is updating a map, and no other argument is affected. */
  lemma {:induction false} SetIsMapUpdate(s: seq<Entry>, op: SetOp)
    requires Sorted(s) && WellFormed(op) && op.num >= 0
    ensures Sorted(SetEntry(s, op)) && Shaped(AsMap(s))
    ensures AsMap(SetEntry(s, op)) == AsMap(s)[op.num := Updated(AsMap(s), op)]
  {
    SetKeepsSorted(s, op);
    MapShaped(s);
    HasIsIn(s, op.num);
    assert NewEntry(s, op) == Entry(op.num, Updated(AsMap(s), op));
    MapHolds(s);
    var t, m := SetEntry(s, op), AsMap(s)[op.num := Updated(AsMap(s), op)];
    forall e ensures e in t <==> e.num in m && m[e.num] == e.data {
      ElementsAfterSet(s, op, e);
    }
    SameMap(t, m);
  }

  /** A map with the same bindings as a list is the list's map. */
  lemma {:induction false} SameMap(s: seq<Entry>, m: map<int, Data>)
    requires Sorted(s) && forall e :: e in s <==> e.num in m && m[e.num] == e.data
    ensures AsMap(s) == m
  {
    MapHolds(s);
    forall n ensures n in m <==> n in AsMap(s) {
      if n in m { assert Entry(n, m[n]) in s; }
      if n in AsMap(s) { assert Entry(n, AsMap(s)[n]) in s; }
    }
    forall n | n in m ensures m[n] == AsMap(s)[n] { assert Entry(n, m[n]) in s; }
  }

  /** A sorted list is determined by its entries, hence by the map it stands for. */
  lemma {:induction false} Canonical(s: seq<Entry>, t: seq<Entry>)
    requires Sorted(s) && Sorted(t) && AsMap(s) == AsMap(t)
    ensures s == t
  {
    MapHolds(s);
    MapHolds(t);
    SameEntries(s, t);
  }

  lemma {:induction false} SameEntries(s: seq<Entry>, t: seq<Entry>)
    requires Sorted(s) && Sorted(t) && forall e :: e in s <==> e in t
    ensures s == t
    decreases |s|
  {
    FirstIsIn(s);
    FirstIsIn(t);
    if s != [] && t != [] {
      LeastIsFirst(s, t[0]);
      LeastIsFirst(t, s[0]);
      forall e ensures e in s[1..] <==> e in t[1..] {
        TailEntries(s, e);
        TailEntries(t, e);
      }
      SameEntries(s[1..], t[1..]);
      assert s == [s[0]] + s[1..] && t == [t[0]] + t[1..];
    }
  }

  lemma {:induction false} LeastIsFirst(s: seq<Entry>, e: Entry)
    requires Sorted(s) && e in s
    ensures s[0] == e || s[0].num < e.num
  {
    var i :| 0 <= i < |s| && s[i] == e;
  }

  lemma {:induction false} FirstIsIn(s: seq<Entry>)
    ensures s != [] ==> s[0] in s
  {
  }

  lemma {:induction false} TailEntries(s: seq<Entry>, e: Entry)
    requires Sorted(s) && s != []
    ensures e in s[1..] <==> e in s && e != s[0]
  {
    assert s == [s[0]] + s[1..];
    if e in s[1..] {
      var i :| 0 <= i < |s| - 1 && s[1..][i] == e;
      assert s[0].num < s[i + 1].num;
    }
  }

  // ---- runs of calls -----------------------------------------------------------------------

  /** A call on an argument object: a set, which needs memory when the argument is new (`granted`
      tells whether it gets it), or a clear. */
  datatype Command = Set(op: SetOp, granted: bool) | Clear

  predicate Sensible(c: Command) { c.Set? ==> WellFormed(c.op) }

  /** The effect on the list: a refused set, or one without memory, changes nothing. */
  function Perform(s: seq<Entry>, c: Command): seq<Entry>
    requires Sensible(c) && Framed(s)
  {
    match c
    case Clear => []
    case Set(op, granted) => if Accepted(op) && (granted || Has(s, op.num)) then SetEntry(s, op) else s
  }

  /** The same on a map. */
  function PerformOnMap(m: map<int, Data>, c: Command): map<int, Data>
    requires Sensible(c) && Shaped(m)
  {
    match c
    case Clear => map[]
    case Set(op, granted) => if Accepted(op) && (granted || op.num in m) then m[op.num := Updated(m, op)] else m
  }

  lemma {:induction false} PerformRefines(s: seq<Entry>, c: Command)
    requires Sorted(s) && Sensible(c)
    ensures Sorted(Perform(s, c)) && Shaped(AsMap(s)) && AsMap(Perform(s, c)) == PerformOnMap(AsMap(s), c)
  {
    MapShaped(s);
    if c.Set? && Accepted(c.op) {
      SetIsMapUpdate(s, c.op);
      HasIsIn(s, c.op.num);
    }
  }

  ghost predicate AllSensible(cs: seq<Command>) { forall i :: 0 <= i < |cs| ==> Sensible(cs[i]) }

  ghost function RunFrom(s: seq<Entry>, cs: seq<Command>): seq<Entry>
    requires Sorted(s) && AllSensible(cs)
    decreases |cs|
  {
    if cs == [] then s
    else
      PerformRefines(s, cs[0]);
      RunFrom(Perform(s, cs[0]), cs[1..])
  }

  ghost function RunOnMap(m: map<int, Data>, cs: seq<Command>): map<int, Data>
    requires Shaped(m) && AllSensible(cs)
    decreases |cs|
  {
    if cs == [] then m
    else
      RunOnMap(PerformOnMap(m, cs[0]), cs[1..])
  }

  /** Any run of calls keeps the list sorted and the list stands for the map the run describes. */
  lemma {:induction false} RunRefinesMap(s: seq<Entry>, cs: seq<Command>)
    requires Sorted(s) && AllSensible(cs)
    ensures Sorted(RunFrom(s, cs)) && Shaped(AsMap(s)) && AsMap(RunFrom(s, cs)) == RunOnMap(AsMap(s), cs)
    decreases |cs|
  {
    MapShaped(s);
    if cs != [] {
      PerformRefines(s, cs[0]);
      RunRefinesMap(Perform(s, cs[0]), cs[1..]);
    }
  }

  // ---- order independence ------------------------------------------------------------------

  /** Successful sets of distinct arguments. */
  ghost predicate Distinct(ops: seq<SetOp>) {
    && (forall i :: 0 <= i < |ops| ==> WellFormed(ops[i]) && Accepted(ops[i]))
    && (forall i, j :: 0 <= i < j < |ops| ==> ops[i].num != ops[j].num)
  }

  /** What a set makes of an argument that was not there. */
  function Fresh(op: SetOp): Entry
    requires WellFormed(op)
  {
    Entry(op.num, Overlay(ZERO, op))
  }

  ghost function SetAll(ops: seq<SetOp>): (s: seq<Entry>)
    requires Distinct(ops)
    ensures Sorted(s)
    decreases |ops|
  {
    if ops == [] then []
    else
      var s := SetAll(ops[..|ops| - 1]);
      SetKeepsSorted(s, ops[|ops| - 1]);
      SetEntry(s, ops[|ops| - 1])
  }

  function FreshEntries(ops: seq<SetOp>): (r: seq<Entry>)
    requires forall i :: 0 <= i < |ops| ==> WellFormed(ops[i])
    ensures |r| == |ops| && forall i :: 0 <= i < |ops| ==> r[i] == Fresh(ops[i])
  {
    seq(|ops|, i requires 0 <= i < |ops| => Fresh(ops[i]))
  }

  lemma {:induction false} FreshSnoc(ops: seq<SetOp>)
    requires Distinct(ops) && ops != []
    ensures FreshEntries(ops) == FreshEntries(ops[..|ops| - 1]) + [Fresh(ops[|ops| - 1])]
    ensures forall e :: e in FreshEntries(ops[..|ops| - 1]) ==> e.num != ops[|ops| - 1].num
  {
  }

  lemma {:induction false} SetAllHolds(ops: seq<SetOp>)
    requires Distinct(ops)
    ensures forall e :: e in SetAll(ops) <==> e in FreshEntries(ops)
    decreases |ops|
  {
    if ops != [] {
      var before, op := ops[..|ops| - 1], ops[|ops| - 1];
      SetAllHolds(before);
      FreshSnoc(ops);
      NotYetSet(SetAll(before), op.num);
      forall e ensures e in SetAll(ops) <==> e in FreshEntries(ops) {
        ElementsAfterSet(SetAll(before), op, e);
      }
    }
  }

  lemma {:induction false} NotYetSet(s: seq<Entry>, num: int)
    requires forall e :: e in s ==> e.num != num
    ensures !Has(s, num)
  {
  }

  /** The order in which distinct arguments are set on a fresh object does not matter. */
  lemma {:induction false} OrderIndependence(ops: seq<SetOp>, ops': seq<SetOp>)
    requires Distinct(ops) && Distinct(ops') && multiset(ops) == multiset(ops')
    ensures SetAll(ops) == SetAll(ops')
  {
    SetAllHolds(ops);
    SetAllHolds(ops');
    forall e ensures e in SetAll(ops) <==> e in SetAll(ops') {
      if e in SetAll(ops) { PermutedEntry(ops, ops', e); }
      if e in SetAll(ops') { PermutedEntry(ops', ops, e); }
    }
    SameEntries(SetAll(ops), SetAll(ops'));
  }

  lemma {:induction false} PermutedEntry(ops: seq<SetOp>, ops': seq<SetOp>, e: Entry)
    requires Distinct(ops) && Distinct(ops') && multiset(ops) == multiset(ops') && e in FreshEntries(ops)
    ensures e in FreshEntries(ops')
  {
    var i :| 0 <= i < |ops| && FreshEntries(ops)[i] == e;
    assert ops[i] in multiset(ops');
    var j :| 0 <= j < |ops'| && ops'[j] == ops[i];
    assert FreshEntries(ops')[j] == e;
  }

  // ---- completing a list -------------------------------------------------------------------

  /** The call that fills a gap: an unsigned 64-bit zero. */
  function FillOp(num: int): SetOp { SetOp(num, Int, INTENT_IN, WORD, Zeros(WORD)) }

  const FILLER: Data := Data(Int, INTENT_IN, WORD, Zeros(VAL_SIZE))

  /** The arguments 0 to n - 1: those that were supplied, and zeros for those that were not. */
  function Dense(s: seq<Entry>, n: nat): (r: seq<Entry>)
    ensures |r| == n
    ensures forall i :: 0 <= i < n ==> r[i] == if Has(s, i) then s[Place(s, i)] else Entry(i, FILLER)
  {
    seq(n, i requires 0 <= i < n => if Has(s, i) then s[Place(s, i)] else Entry(i, FILLER))
  }

  /** Number `i` of a completed list is the argument supplied under that number or, if there is none,
      an integer for input of eight zero bytes. */
  lemma {:induction false} GapsAreZeros(s: seq<Entry>, n: nat, i: nat)
    requires Sorted(s) && i < n
    ensures var e := Dense(s, n)[i];
            && e.num == i
            && (e in s || ((forall f :: f in s ==> f.num != i)
                           && e.data.cl == Int && e.data.inout == INTENT_IN && e.data.size == 8
                           && |e.data.val| == 16 && forall j :: 0 <= j < 16 ==> e.data.val[j] == 0))
  {
    PlaceBounds(s, i);
    forall f | f in s && !Has(s, i) ensures f.num != i {
      var k :| 0 <= k < |s| && s[k] == f;
      if f.num == i { PlaceIs(s, i, k); }
    }
  }

  predicate GapFree(s: seq<Entry>) { forall i :: 0 <= i < |s| ==> s[i].num == i }

  /** A list whose first `n` entries have been completed; the others are as they were supplied. */
  ghost predicate CompletedTo(s0: seq<Entry>, s: seq<Entry>, n: nat) {
    n <= |s| && s[..n] == Dense(s0, n) && s[n..] == s0[Place(s0, n)..]
  }

  lemma {:induction false} CompletedStart(s: seq<Entry>)
    requires Sorted(s)
    ensures CompletedTo(s, s, 0)
  {
    PlaceIs(s, 0, 0);
  }

  /** The next number is there. */
  lemma {:induction false} CompletedKeep(s0: seq<Entry>, s: seq<Entry>, n: nat)
    requires Sorted(s0) && CompletedTo(s0, s, n) && n < |s| && s[n].num == n
    ensures CompletedTo(s0, s, n + 1)
  {
    var k := Place(s0, n);
    PlaceBounds(s0, n);
    assert s[n] == s[n..][0] == s0[k];
    PlaceIs(s0, n + 1, k + 1);
    assert s[..n + 1] == s[..n] + [s[n]];
    assert Dense(s0, n + 1) == Dense(s0, n) + [s0[k]];
    assert s[n + 1..] == s[n..][1..];
  }

  /** The next number is missing, and the gap is filled. */
  lemma {:induction false} CompletedFill(s0: seq<Entry>, s: seq<Entry>, n: nat)
    requires Sorted(s0) && Sorted(s) && CompletedTo(s0, s, n) && (n < |s| ==> s[n].num > n)
    ensures !Has(s, n) && Place(s, n) == n && CompletedTo(s0, SetEntry(s, FillOp(n)), n + 1)
    ensures SetEntry(s, FillOp(n)) == s[..n] + [Entry(n, FILLER)] + s[n..]
  {
    var k := Place(s0, n);
    PlaceBounds(s0, n);
    assert n < |s| ==> s[n] == s[n..][0] == s0[k];
    DenseNumbers(s0, n);
    forall i | 0 <= i < n ensures s[i].num < n { assert s[i] == s[..n][i]; }
    PlaceIs(s, n, n);
    assert |s[n..]| == |s0[k..]|;
    PlaceIs(s0, n + 1, k);
    SetSplits(s, FillOp(n));
    assert Overlay(ZERO, FillOp(n)).val == Zeros(VAL_SIZE);
    var t := SetEntry(s, FillOp(n));
    assert t == s[..n] + [Entry(n, FILLER)] + s[n..];
    assert t[..n + 1] == s[..n] + [Entry(n, FILLER)];
    assert Dense(s0, n + 1) == Dense(s0, n) + [Entry(n, FILLER)];
  }

  lemma {:induction false} DenseNumbers(s: seq<Entry>, n: nat)
    requires Sorted(s)
    ensures forall i :: 0 <= i < n ==> Dense(s, n)[i].num == i
  {
  }

  /** A completed list that reaches past the declared number has an argument out of range. */
  lemma {:induction false} Supplied(s0: seq<Entry>, s: seq<Entry>, n: nat)
    requires Sorted(s0) && CompletedTo(s0, s, n) && n < |s|
    ensures s[n] in s0
  {
    assert s[n] == s[n..][0] == s0[Place(s0, n)..][0];
  }

  /** If nothing is left behind a completed prefix, every argument is below its length. */
  lemma {:induction false} NothingBehind(s0: seq<Entry>, s: seq<Entry>, n: nat)
    requires Sorted(s0) && CompletedTo(s0, s, n) && n == |s|
    ensures s == Dense(s0, n) && forall e :: e in s0 ==> e.num < n
  {
    assert |s[n..]| == |s0[Place(s0, n)..]|;
    PlaceBounds(s0, n);
    assert s[..n] == s;
  }

  /** Completing a list never loses or alters an argument. */
  ghost predicate Kept(s0: seq<Entry>, s: seq<Entry>) { forall e :: e in s0 ==> e in s }

  lemma {:induction false} CompletedKeeps(s0: seq<Entry>, s: seq<Entry>, n: nat)
    requires Sorted(s0) && CompletedTo(s0, s, n)
    ensures Kept(s0, s)
  {
    var k := Place(s0, n);
    PlaceBounds(s0, n);
    forall e | e in s0 ensures e in s {
      var i :| 0 <= i < |s0| && s0[i] == e;
      if i < k {
        PlaceIs(s0, e.num, i);
        assert s[..n][e.num] == e;
      } else {
        assert s[n..][i - k] == e;
      }
    }
  }

  // ---- records -----------------------------------------------------------------------------

  /** One part of a double complex argument as a record of its own; the record's second value word
      is whatever the stack held. */
  function Half(d: Data, part: nat, junk: seq<byte>): Data
    requires |d.val| == VAL_SIZE && part <= 1
  {
    Data(Dbl, INTENT_IN, WORD, d.val[WORD * part..WORD * part + WORD] + junk)
  }

  /** The records of one argument: a double complex is sent as two doubles, real part first. */
  function Records(d: Data, junk: seq<byte>): seq<Data>
    requires |d.val| == VAL_SIZE
  {
    if d.cl == Cdb then [Half(d, 0, junk), Half(d, 1, junk)] else [d]
  }

  function RecordsOf(s: seq<Entry>, junk: seq<byte>): seq<Data>
    requires Framed(s)
  {
    if s == [] then [] else RecordsOf(s[..|s| - 1], junk) + Records(s[|s| - 1].data, junk)
  }

  /** The bytes of a list of records, each laid out by `enc`. */
  function EncodeAll(enc: Data -> seq<byte>, rs: seq<Data>): seq<byte> {
    if rs == [] then [] else EncodeAll(enc, rs[..|rs| - 1]) + enc(rs[|rs| - 1])
  }

  lemma {:induction false} EncodeSnoc(enc: Data -> seq<byte>, rs: seq<Data>, d: Data)
    ensures EncodeAll(enc, rs + [d]) == EncodeAll(enc, rs) + enc(d)
  {
    assert (rs + [d])[..|rs|] == rs;
  }

  /** The bytes of all records, each of `size` bytes. */
  function SizeOf(s: seq<Entry>, size: nat): nat {
    if s == [] then 0 else SizeOf(s[..|s| - 1], size) + if s[|s| - 1].data.cl == Cdb then 2 * size else size
  }

  ghost predicate FixedSize(enc: Data -> seq<byte>, size: nat) { forall d :: |enc(d)| == size }

  lemma {:induction false} SizePrefix(s: seq<Entry>, n: nat, size: nat)
    requires n <= |s|
    ensures SizeOf(s[..n], size) <= SizeOf(s, size)
    decreases |s| - n
  {
    if n < |s| {
      assert s[..n + 1][..n] == s[..n];
      SizePrefix(s, n + 1, size);
    } else {
      assert s[..n] == s;
    }
  }

  /** The bytes that one argument adds: one record, or two. */
  function Sent(enc: Data -> seq<byte>, d: Data, junk: seq<byte>): seq<byte>
    requires |d.val| == VAL_SIZE
  {
    if d.cl == Cdb then enc(Half(d, 0, junk)) + enc(Half(d, 1, junk)) else enc(d)
  }

  lemma {:induction false} RecordBytes(enc: Data -> seq<byte>, rs: seq<Data>, d: Data, junk: seq<byte>)
    requires |d.val| == VAL_SIZE
    ensures EncodeAll(enc, rs + Records(d, junk)) == EncodeAll(enc, rs) + Sent(enc, d, junk)
  {
    if d.cl == Cdb {
      EncodeSnoc(enc, rs, Half(d, 0, junk));
      EncodeSnoc(enc, rs + [Half(d, 0, junk)], Half(d, 1, junk));
      assert rs + Records(d, junk) == rs + [Half(d, 0, junk)] + [Half(d, 1, junk)];
    } else {
      EncodeSnoc(enc, rs, d);
    }
  }

  /** The bytes of all arguments, in order. */
  function Message(enc: Data -> seq<byte>, s: seq<Entry>, junk: seq<byte>): seq<byte>
    requires Framed(s)
  {
    if s == [] then [] else Message(enc, s[..|s| - 1], junk) + Sent(enc, s[|s| - 1].data, junk)
  }

  lemma {:induction false} MessageSnoc(enc: Data -> seq<byte>, s: seq<Entry>, k: nat, junk: seq<byte>)
    requires k < |s| && Framed(s)
    ensures Message(enc, s[..k + 1], junk) == Message(enc, s[..k], junk) + Sent(enc, s[k].data, junk)
  {
    assert s[..k + 1][..k] == s[..k];
  }

  /** The message is the records of the arguments one after the other. */
  lemma {:induction false} MessageIsRecords(enc: Data -> seq<byte>, s: seq<Entry>, junk: seq<byte>)
    requires Framed(s)
    ensures Message(enc, s, junk) == EncodeAll(enc, RecordsOf(s, junk))
  {
    if s != [] {
      var t := s[..|s| - 1];
      MessageIsRecords(enc, t, junk);
      RecordBytes(enc, RecordsOf(t, junk), s[|s| - 1].data, junk);
    }
  }

  /** The double that a record of eight value bytes stands for, whatever is in its second word. */
  ghost predicate DoubleRecord(d: Data, val: seq<byte>) {
    d.cl == Dbl && d.inout == INTENT_IN && d.size == 8 && |d.val| >= 8 && d.val[..8] == val
  }

  /** A double complex argument is sent as two records, doubles for input: the first eight bytes of
      its value, the real part, and then the other eight.  Any other argument is its own record. */
  lemma {:induction false} RealPartFirst(d: Data, junk: seq<byte>)
    requires |d.val| == VAL_SIZE
    ensures d.cl == Cdb ==> |Records(d, junk)| == 2 && DoubleRecord(Records(d, junk)[0], d.val[..8])
                            && DoubleRecord(Records(d, junk)[1], d.val[8..16])
    ensures d.cl != Cdb ==> Records(d, junk) == [d]
  {
    if d.cl == Cdb {
      assert Half(d, 0, junk).val[..8] == d.val[..8] && Half(d, 1, junk).val[..8] == d.val[8..16];
    }
  }

  lemma {:induction false} SentBehind(enc: Data -> seq<byte>, s: seq<Entry>, junk: seq<byte>, k: nat)
    requires Framed(s) && k < |s|
    ensures Message(enc, s[..k], junk) + Sent(enc, s[k].data, junk) <= Message(enc, s, junk)
    ensures |Message(enc, s[..k + 1], junk)| == |Message(enc, s[..k], junk)| + |Sent(enc, s[k].data, junk)|
  {
    MessageSnoc(enc, s, k, junk);
    MessagePrefix(enc, s, junk, k + 1);
  }

  lemma {:induction false} Located(msg: seq<byte>, pre: seq<byte>, sent: seq<byte>, at: nat)
    requires pre + sent <= msg && |pre| == at
    ensures at + |sent| <= |msg| && msg[at..at + |sent|] == sent
  {
    assert msg[..at + |sent|] == pre + sent;
    assert (pre + sent)[at..] == sent;
  }

  /** The message of argument `k` lies behind those of the arguments before it. */
  lemma {:induction false} SentInPlace(enc: Data -> seq<byte>, s: seq<Entry>, junk: seq<byte>, k: nat)
    requires Framed(s) && k < |s|
    ensures var msg, at, sent := Message(enc, s, junk), |Message(enc, s[..k], junk)|, Sent(enc, s[k].data, junk);
            at + |sent| <= |msg| && |Message(enc, s[..k + 1], junk)| == at + |sent| && msg[at..at + |sent|] == sent
  {
    SentBehind(enc, s, junk, k);
    var pre := Message(enc, s[..k], junk);
    Located(Message(enc, s, junk), pre, Sent(enc, s[k].data, junk), |pre|);
  }

  /** That is as far as the sizes before it add up to. */
  lemma {:induction false} SentAtSize(enc: Data -> seq<byte>, size: nat, s: seq<Entry>, junk: seq<byte>, k: nat)
    requires FixedSize(enc, size) && Framed(s) && k < |s|
    ensures var msg, at, sent := Message(enc, s, junk), SizeOf(s[..k], size), Sent(enc, s[k].data, junk);
            at + |sent| <= |msg| && SizeOf(s[..k + 1], size) == at + |sent| && msg[at..at + |sent|] == sent
  {
    SentInPlace(enc, s, junk, k);
    MessageSize(enc, size, s[..k], junk);
    MessageSize(enc, size, s[..k + 1], junk);
  }

  lemma {:induction false} SliceHalves(msg: seq<byte>, at: nat, re: seq<byte>, im: seq<byte>)
    requires at + |re| + |im| <= |msg| && msg[at..at + |re| + |im|] == re + im
    ensures msg[at..at + |re|] == re && msg[at + |re|..at + |re| + |im|] == im
  {
    var both := msg[at..at + |re| + |im|];
    assert both[..|re|] == msg[at..at + |re|] && both[|re|..] == msg[at + |re|..at + |re| + |im|];
  }

  /** Where the records of argument `k` are in the message: behind those of the arguments before it. */
  lemma {:induction false} RecordsInPlace(enc: Data -> seq<byte>, size: nat, s: seq<Entry>, junk: seq<byte>, k: nat)
    requires FixedSize(enc, size) && Framed(s) && k < |s|
    ensures var msg, at, d := Message(enc, s, junk), SizeOf(s[..k], size), s[k].data;
            if d.cl == Cdb then
              at + 2 * size <= |msg| && SizeOf(s[..k + 1], size) == at + 2 * size
              && exists re, im :: DoubleRecord(re, d.val[..8]) && DoubleRecord(im, d.val[8..16])
                                  && msg[at..at + size] == enc(re) && msg[at + size..at + 2 * size] == enc(im)
            else
              at + size <= |msg| && SizeOf(s[..k + 1], size) == at + size && msg[at..at + size] == enc(d)
  {
    var d, at, msg := s[k].data, SizeOf(s[..k], size), Message(enc, s, junk);
    SentAtSize(enc, size, s, junk, k);
    RealPartFirst(d, junk);
    if d.cl == Cdb {
      var re, im := Half(d, 0, junk), Half(d, 1, junk);
      assert |enc(re)| == |enc(im)| == size;
      SliceHalves(msg, at, enc(re), enc(im));
      assert DoubleRecord(re, d.val[..8]) && DoubleRecord(im, d.val[8..16]);
    } else {
      assert |enc(d)| == size;
    }
  }

  /** The message of the first arguments is the front of the message. */
  lemma {:induction false} MessagePrefix(enc: Data -> seq<byte>, s: seq<Entry>, junk: seq<byte>, k: nat)
    requires Framed(s) && k <= |s|
    ensures Message(enc, s[..k], junk) <= Message(enc, s, junk)
    decreases |s| - k
  {
    if k < |s| {
      MessageSnoc(enc, s, k, junk);
      MessagePrefix(enc, s, junk, k + 1);
    } else {
      assert s[..k] == s;
    }
  }

  /** Its length does not depend on what the records hold. */
  lemma {:induction false} MessageSize(enc: Data -> seq<byte>, size: nat, s: seq<Entry>, junk: seq<byte>)
    requires FixedSize(enc, size) && Framed(s)
    ensures |Message(enc, s, junk)| == SizeOf(s, size)
  {
    if s != [] {
      MessageSize(enc, size, s[..|s| - 1], junk);
    }
  }

  /** What the receiver of a record looks at: its class, intent and size, and the value bytes that
      the size covers, or the pointer. */
  function Meaning(d: Data): (Class, int, nat, seq<byte>)
    requires |d.val| >= WORD
  {
    var n := if d.cl == Ptr then WORD else if d.size <= |d.val| then d.size else |d.val|;
    (d.cl, d.inout, d.size, d.val[..n])
  }

  /** The uninitialised words of split records do not change what the records mean. */
  lemma {:induction false} JunkDoesNotMatter(s: seq<Entry>, junk: seq<byte>, junk': seq<byte>)
    requires Framed(s)
    ensures |RecordsOf(s, junk)| == |RecordsOf(s, junk')|
    ensures forall i :: 0 <= i < |RecordsOf(s, junk)| ==>
              && |RecordsOf(s, junk)[i].val| >= WORD && |RecordsOf(s, junk')[i].val| >= WORD
              && Meaning(RecordsOf(s, junk)[i]) == Meaning(RecordsOf(s, junk')[i])
  {
    if s != [] {
      JunkDoesNotMatter(s[..|s| - 1], junk, junk');
      var d := s[|s| - 1].data;
      assert Half(d, 0, junk).val[..WORD] == Half(d, 0, junk').val[..WORD] == d.val[..WORD];
      assert Half(d, 1, junk).val[..WORD] == Half(d, 1, junk').val[..WORD] == d.val[WORD..];
    }
  }
}
