/** The invariant of the descriptor ring, and its preservation by every step. */
module DmaRingInv {
  import opened Bytes
  import opened DmaRing

  predicate HoldsLock(pc: Pc) {
    pc != Idle && pc != Lock && pc != AwaitOwn && pc != ClearOwn && pc != Return
  }

  /** The descriptor has been started but `vedma_index` still names its slot. */
  predicate AfterStart(pc: Pc) { pc == InitStatus || pc == InitIndex || pc == SetStatus || pc == BumpIndex }

  /** The thread holding the lock is at one of the given points with slot `i`. */
  ghost predicate OwnerAt(s: State, i: int, a: Pc, b: Pc, c: Pc) {
    && s.lock.Some? && s.lock.value < |s.threads|
    && s.threads[s.lock.value].idx == i
    && (s.threads[s.lock.value].pc == a || s.threads[s.lock.value].pc == b || s.threads[s.lock.value].pc == c)
  }

  /** Slot `i` has been started and not yet marked. */
  ghost predicate Starting(s: State, i: int) { OwnerAt(s, i, InitStatus, InitIndex, SetStatus) }

  /** The result of slot `i` has been stored in its handle, and the mark is about to go. */
  ghost predicate Harvesting(s: State, i: int) { OwnerAt(s, i, ClearPrev, ClearPrev, ClearPrev) }

  /** A post that has marked its slot. */
  predicate Committed(th: Thread) {
    th.pc == BumpIndex || ((th.pc == Unlock || th.pc == Return) && th.ret == 0)
  }

  /** A poll that is about to return a result. */
  predicate HasResult(th: Thread) {
    (th.pc == Unlock || th.pc == Return) && th.ret != -EAGAIN
  }

  /** Request `k` is `owner`'s, its outcome is `code`, and no call has returned it yet. */
  ghost predicate Fresh(s: State, k: nat, owner: Owner) {
    k < |s.started| && s.started[k].owner == owner && k !in s.reported
  }

  ghost predicate Decided(s: State, k: nat, code: int) {
    k in s.outcome && s.outcome[k] == code
  }

  /** The request last posted with `h` is waiting to be reported: either its slot points to the
      handle, or the handle already holds the request's own exception code. */
  ghost predicate Pending(s: State, h: Hid)
    requires Shape(s) && h < |s.handles|
  {
    && Fresh(s, s.serialOf[h], ByHandle(h))
    && if s.handles[h].status == NO_RESULT then s.status[s.handles[h].index] == Ptr(h)
       else Decided(s, s.serialOf[h], s.handles[h].status)
  }

  /** Slot `idx` is the one `t` has marked 1 for its request. */
  ghost predicate OwnsSync(s: State, t: Tid)
    requires Shape(s) && t < |s.threads|
  {
    var th := s.threads[t];
    && s.status[th.idx] == Sync(t)
    && s.desc[th.idx].phase != Unused && s.desc[th.idx].phase.serial == th.serial
    && Fresh(s, th.serial, ByThread(t))
  }

  /** Slot `idx` holds the completed request of the handle it points to. */
  ghost predicate Harvestable(s: State, th: Thread)
    requires Shape(s)
  {
    && s.status[th.idx].Ptr?
    && s.desc[th.idx].phase.Complete? && s.desc[th.idx].phase.exc == th.word
    && s.desc[th.idx].phase.serial in s.seen
  }

  ghost predicate AtPc(s: State, t: Tid)
    requires Shape(s) && t < |s.threads|
  {
    var th := s.threads[t];
    match th.pc
    case Idle | Lock | ReadIndex | LoadStatus => true
    case CheckStatus => th.idx == s.index
    case CheckPrev => th.idx == s.index && s.status[th.idx].Ptr?
    case SavePrev =>
      th.idx == s.index && Harvestable(s, th) && s.handles[s.status[th.idx].handle].status == NO_RESULT
    case ClearPrev =>
      th.idx == s.index && Harvestable(s, th) && s.handles[s.status[th.idx].handle].status == th.word
    case WriteDst => th.idx == s.index && s.status[th.idx] == Free
    case WriteSrc =>
      th.idx == s.index && s.status[th.idx] == Free && s.desc[th.idx].dst == RequestOfAny(th.op).dst
    case WriteCtl =>
      && th.idx == s.index && s.status[th.idx] == Free
      && s.desc[th.idx].dst == RequestOfAny(th.op).dst && s.desc[th.idx].src == RequestOfAny(th.op).src
    case Start =>
      && th.idx == s.index && s.status[th.idx] == Free && Describes(s.desc[th.idx], RequestOfAny(th.op))
    case InitStatus => StartedOwn(s, t) && s.status[th.idx] == Free
    case InitIndex => StartedOwn(s, t) && s.status[th.idx] == Free && OwnHandle(s, th).status == NO_RESULT
    case SetStatus =>
      && StartedOwn(s, t) && s.status[th.idx] == Free
      && (th.op.Post? ==> OwnHandle(s, th) == Handle(NO_RESULT, th.idx))
    case BumpIndex => StartedOwn(s, t) && (th.op.PostWait? ==> OwnsSync(s, t))
    case Unlock => th.op.PostWait? ==> OwnsSync(s, t)
    case AwaitOwn => OwnsSync(s, t)
    case ClearOwn => OwnsSync(s, t) && th.serial in s.seen && Decided(s, th.serial, th.word)
    case Return =>
      th.op.PostWait? ==> Fresh(s, th.serial, ByThread(t)) && Decided(s, th.serial, th.ret)
    case LoadIndex => OwnHandle(s, th).status == NO_RESULT
    case CheckOwn => OwnHandle(s, th).status == NO_RESULT && OwnHandle(s, th).index == th.idx
    case ClearPolled =>
      && OwnHandle(s, th).status == NO_RESULT && OwnHandle(s, th).index == th.idx
      && Harvestable(s, th)
  }

  function RequestOfAny(op: Op): Request {
    if op.Poll? then Request(0, 0, 0) else RequestOf(op)
  }

  /** The handle a post or a poll was called with. */
  ghost function OwnHandle(s: State, th: Thread): Handle
    requires Shape(s) && OpShape(s, th.op)
  {
    match th.op
    case Post(h, _) => s.handles[h]
    case Poll(h) => s.handles[h]
    case PostWait(_) => Handle(0, 0)
  }

  predicate Describes(d: Desc, r: Request) {
    d.dst == r.dst && d.src == r.src && d.ctl == ControlWord(r.size)
  }

  /** `t` has just started the newest request, at the slot the index names. */
  ghost predicate StartedOwn(s: State, t: Tid)
    requires Shape(s) && t < |s.threads|
  {
    var th := s.threads[t];
    && th.idx == s.index
    && |s.started| > 0 && th.serial == |s.started| - 1
    && Fresh(s, th.serial, OwnerOf(t, th.op))
    && s.desc[th.idx].phase != Unused && s.desc[th.idx].phase.serial == th.serial
    && (th.op.Post? ==> s.serialOf[th.op.h] == th.serial)
  }

  ghost predicate ThreadInv(s: State, t: Tid)
    requires Shape(s) && t < |s.threads|
  {
    var th := s.threads[t];
    && (HoldsLock(th.pc) <==> s.lock == Some(t))
    && Fits(th.op, th.pc)
    && (th.pc != Idle ==>
          && (th.op.Post? ==> s.client[th.op.h] == Posting(t))
          && (th.op.Poll? ==> s.client[th.op.ph] == Polling(t)))
    && (th.pc == Unlock && th.op.PostWait? ==> th.ret == 0)
    && AtPc(s, t)
  }

  ghost predicate SlotInv(s: State, i: int)
    requires Shape(s) && 0 <= i < NDESC
  {
    && PhaseInv(s, i)
    && match s.status[i]
       case Free =>
         && (s.desc[i].phase.Running? ==> Starting(s, i))
         && (s.desc[i].phase.Complete? ==> s.desc[i].phase.serial in s.seen || Starting(s, i))
       case Sync(u) =>
         && u < |s.threads| && s.threads[u].op.PostWait? && s.threads[u].idx == i
         && (s.threads[u].pc == BumpIndex || s.threads[u].pc == Unlock
             || s.threads[u].pc == AwaitOwn || s.threads[u].pc == ClearOwn)
       case Ptr(h) =>
         && s.handles[h].index == i
         && s.desc[i].phase != Unused && s.desc[i].phase.serial == s.serialOf[h]
         && (s.handles[h].status == NO_RESULT || Harvesting(s, i))
         && PointedTo(s, h)
  }

  /** A descriptor holds the newest request of its slot, the hardware works on what was asked, and
      the recorded outcomes are the hardware's. */
  ghost predicate PhaseInv(s: State, i: int)
    requires Shape(s) && 0 <= i < NDESC
  {
    match s.desc[i].phase
    case Unused => |s.started| <= i
    case Running(k) =>
      && k < |s.started| <= k + NDESC && k % NDESC == i
      && k !in s.outcome && Describes(s.desc[i], s.started[k].req)
    case Complete(k, e) =>
      k < |s.started| <= k + NDESC && k % NDESC == i && Decided(s, k, e) && e < 0x1_0000
  }

  /** The caller's side of a handle that a slot points to. */
  ghost predicate PointedTo(s: State, h: Hid)
    requires Shape(s) && h < |s.handles|
  {
    match s.client[h]
    case Rest => false
    case Outstanding => true
    case Posting(t) => t < |s.threads| && Committed(s.threads[t])
    case Polling(t) => t < |s.threads| && !HasResult(s.threads[t])
  }

  ghost predicate HandleInv(s: State, h: int)
    requires Shape(s) && 0 <= h < |s.handles|
  {
    match s.client[h]
    case Rest => true
    case Outstanding => Pending(s, h)
    case Posting(t) =>
      && t < |s.threads| && s.threads[t].pc != Idle && s.threads[t].op.Post? && s.threads[t].op.h == h
      && (Committed(s.threads[t]) ==> Pending(s, h))
    case Polling(t) =>
      && t < |s.threads| && s.threads[t].pc != Idle && s.threads[t].op.Poll? && s.threads[t].op.ph == h
      && if HasResult(s.threads[t])
         then Fresh(s, s.serialOf[h], ByHandle(h)) && Decided(s, s.serialOf[h], s.threads[t].ret)
         else Pending(s, h)
  }

  /** The index counts the started requests modulo the ring size, once the starter has bumped it. */
  ghost predicate IndexInv(s: State) {
    if s.lock.Some? && s.lock.value < |s.threads| && AfterStart(s.threads[s.lock.value].pc)
    then |s.started| > 0 && s.index == (|s.started| - 1) % NDESC
    else s.index == |s.started| % NDESC
  }

  ghost predicate History(s: State) {
    && (forall k :: k in s.outcome ==> k < |s.started| && 0 <= s.outcome[k] < 0x1_0000)
    && (forall k :: k in s.seen ==> k in s.outcome)
    && (forall k :: k in s.reported ==> Decided(s, k, s.reported[k]))
  }

  ghost predicate Inv(s: State) {
    && Shape(s)
    && (s.lock.Some? ==> s.lock.value < |s.threads|)
    && IndexInv(s) && History(s)
    && (forall t :: 0 <= t < |s.threads| ==> ThreadInv(s, t))
    && (forall i :: 0 <= i < NDESC ==> SlotInv(s, i))
    && (forall h :: 0 <= h < |s.handles| ==> HandleInv(s, h))
  }

  lemma {:induction false} InvInitial(s: State)
    requires Initial(s)
    ensures Inv(s)
  {
  }

  // ---- steps that change registers only ----------------------------------------------------

  predicate ReadsOnly(pc: Pc) {
    || pc == ReadIndex || pc == CheckStatus || pc == CheckPrev || pc == AwaitOwn
    || pc == LoadStatus || pc == LoadIndex || pc == CheckOwn
  }

  predicate AfterRead(pc: Pc) {
    || pc == CheckStatus || pc == CheckPrev || pc == SavePrev || pc == WriteDst || pc == Unlock
    || pc == ClearOwn || pc == LoadIndex || pc == CheckOwn || pc == ClearPolled
  }

  /** Thread `t` has read shared memory and moved on; nothing but its registers has changed. */
  ghost predicate LocalStep(s: State, s': State, t: Tid)
    requires Shape(s) && t < |s.threads|
  {
    && s.seen <= s'.seen
    && s' == s.(seen := s'.seen, threads := s'.threads)
    && |s'.threads| == |s.threads|
    && (forall u :: 0 <= u < |s.threads| && u != t ==> s'.threads[u] == s.threads[u])
    && LocalMove(s, s.threads[t], s'.threads[t])
  }

  ghost predicate LocalMove(s: State, th: Thread, th': Thread)
    requires Shape(s)
  {
    && ReadsOnly(th.pc) && AfterRead(th'.pc)
    && th'.op == th.op && th'.serial == th.serial
    && (th.pc == AwaitOwn <==> th'.pc == ClearOwn)
    && (th.pc == AwaitOwn ==> th'.idx == th.idx)
    && (th'.op.Post? ==> !Committed(th'))
    && (th'.op.Poll? && HasResult(th') ==>
          th'.op.ph < |s.handles| && s.handles[th'.op.ph].status == th'.ret != NO_RESULT)
  }

  lemma {:induction false} LocalAtPc(s: State, s': State, t: Tid, u: Tid)
    requires Inv(s) && t < |s.threads| && LocalStep(s, s', t)
    requires u < |s.threads| && u != t
    ensures Shape(s') && AtPc(s', u)
  {
    assert ThreadInv(s, u);
  }

  lemma {:induction false} LocalThreads(s: State, s': State, t: Tid, u: Tid)
    requires Inv(s) && t < |s.threads| && LocalStep(s, s', t)
    requires u < |s.threads| && u != t
    ensures Shape(s') && ThreadInv(s', u)
  {
    assert ThreadInv(s, u);
    LocalAtPc(s, s', t, u);
  }

  lemma {:induction false} LocalSlots(s: State, s': State, t: Tid, i: Slot)
    requires Shape(s) && t < |s.threads| && LocalStep(s, s', t)
    requires ThreadInv(s, t) && SlotInv(s, i)
    requires s.status[i].Ptr? ==> HandleInv(s, s.status[i].handle)
    ensures Shape(s') && SlotInv(s', i)
  {
    assert Starting(s, i) ==> Starting(s', i);
    assert PhaseInv(s', i);
  }

  lemma {:induction false} LocalHandles(s: State, s': State, t: Tid, h: Hid)
    requires Inv(s) && t < |s.threads| && LocalStep(s, s', t)
    requires h < |s.handles|
    ensures Shape(s') && HandleInv(s', h)
  {
    assert ThreadInv(s, t);
    assert HandleInv(s, h);
  }

  lemma {:induction false} InvLocal(s: State, s': State, t: Tid)
    requires Inv(s) && t < |s.threads| && LocalStep(s, s', t)
    requires Shape(s') && ThreadInv(s', t) && History(s')
    ensures Inv(s')
  {
    forall u | 0 <= u < |s'.threads| ensures ThreadInv(s', u) { if u != t { LocalThreads(s, s', t, u); } }
    assert ThreadInv(s, t);
    forall i | 0 <= i < NDESC ensures SlotInv(s', i) {
      assert SlotInv(s, i);
      assert s.status[i].Ptr? ==> HandleInv(s, s.status[i].handle);
      LocalSlots(s, s', t, i);
    }
    forall h | 0 <= h < |s'.handles| ensures HandleInv(s', h) { LocalHandles(s, s', t, h); }
  }

  lemma {:induction false} InvReadIndex(s: State, t: Tid)
    requires Inv(s) && t < |s.threads| && s.threads[t].pc == ReadIndex
    ensures Inv(DoReadIndex(s, t))
  {
    assert ThreadInv(s, t);
    InvLocal(s, DoReadIndex(s, t), t);
  }

  lemma {:induction false} InvCheckStatus(s: State, t: Tid)
    requires Inv(s) && t < |s.threads| && s.threads[t].pc == CheckStatus
    ensures Inv(DoCheckStatus(s, t))
  {
    assert ThreadInv(s, t);
    var s' := DoCheckStatus(s, t);
    if s' != s { InvLocal(s, s', t); }
  }

  lemma {:induction false} InvCheckPrev(s: State, t: Tid)
    requires Inv(s) && t < |s.threads| && s.threads[t].pc == CheckPrev
    ensures Inv(DoCheckPrev(s, t))
  {
    assert ThreadInv(s, t);
    assert SlotInv(s, s.threads[t].idx);
    var s' := DoCheckPrev(s, t);
    if s' != s { InvLocal(s, s', t); }
  }

  lemma {:induction false} InvAwaitOwn(s: State, t: Tid)
    requires Inv(s) && t < |s.threads| && s.threads[t].pc == AwaitOwn
    ensures Inv(DoAwaitOwn(s, t))
  {
    assert ThreadInv(s, t);
    assert SlotInv(s, s.threads[t].idx);
    var s' := DoAwaitOwn(s, t);
    if s' != s { InvLocal(s, s', t); }
  }

  lemma {:induction false} InvLoadStatus(s: State, t: Tid)
    requires Inv(s) && t < |s.threads| && s.threads[t].pc == LoadStatus && s.threads[t].op.Poll?
    ensures Inv(DoLoadStatus(s, t))
  {
    assert ThreadInv(s, t);
    InvLocal(s, DoLoadStatus(s, t), t);
  }

  lemma {:induction false} InvLoadIndex(s: State, t: Tid)
    requires Inv(s) && t < |s.threads| && s.threads[t].pc == LoadIndex && s.threads[t].op.Poll?
    ensures Inv(DoLoadIndex(s, t))
  {
    assert ThreadInv(s, t);
    InvLocal(s, DoLoadIndex(s, t), t);
  }

  lemma {:induction false} CheckOwnIsLocal(s: State, t: Tid)
    requires Inv(s) && t < |s.threads| && s.threads[t].pc == CheckOwn
    ensures Shape(DoCheckOwn(s, t)) && LocalStep(s, DoCheckOwn(s, t), t)
  {
    assert ThreadInv(s, t);
    assert HandleInv(s, s.threads[t].op.ph);
    assert SlotInv(s, s.threads[t].idx);
  }

  lemma {:induction false} InvCheckOwn(s: State, t: Tid)
    requires Inv(s) && t < |s.threads| && s.threads[t].pc == CheckOwn
    ensures Inv(DoCheckOwn(s, t))
  {
    CheckOwnIsLocal(s, t);
    assert ThreadInv(s, t);
    assert HandleInv(s, s.threads[t].op.ph);
    assert SlotInv(s, s.threads[t].idx);
    InvLocal(s, DoCheckOwn(s, t), t);
  }

  // ---- steps of the lock holder that change the ring ---------------------------------------

  /** What the other threads can see of a step of the lock holder `t`. */
  ghost predicate HolderStep(s: State, s': State, t: Tid)
    requires Shape(s) && t < |s.threads|
  {
    && Shape(s')
    && s.lock == Some(t) && (s'.lock == s.lock || s'.lock == None)
    && |s'.threads| == |s.threads|
    && (forall u :: 0 <= u < |s.threads| && u != t ==> s'.threads[u] == s.threads[u])
    && s'.client == s.client && s'.reported == s.reported && s'.outcome == s.outcome
    && s.started <= s'.started && s.seen <= s'.seen
    && (forall i :: 0 <= i < NDESC && s.status[i].Sync? && s.status[i].owner != t ==>
          s'.status[i] == s.status[i] && s'.desc[i] == s.desc[i])
  }

  lemma {:induction false} HolderThreads(s: State, s': State, t: Tid, u: Tid)
    requires Inv(s) && t < |s.threads| && HolderStep(s, s', t)
    requires u < |s.threads| && u != t
    ensures ThreadInv(s', u)
  {
    assert ThreadInv(s, u);
  }

  /** Thread `t` has written a word of the descriptor it is about to start. */
  ghost predicate BodyWrite(s: State, s': State, t: Tid)
    requires Shape(s) && t < |s.threads|
  {
    && Shape(s')
    && (s.threads[t].pc == WriteDst || s.threads[t].pc == WriteSrc || s.threads[t].pc == WriteCtl)
    && s' == s.(desc := s'.desc, threads := s'.threads)
    && (forall i :: 0 <= i < NDESC ==>
          s'.desc[i].phase == s.desc[i].phase && (i != s.threads[t].idx ==> s'.desc[i] == s.desc[i]))
    && |s'.threads| == |s.threads|
    && (forall u :: 0 <= u < |s.threads| && u != t ==> s'.threads[u] == s.threads[u])
    && s'.threads[t] == s.threads[t].(pc := s'.threads[t].pc)
    && (s'.threads[t].pc == WriteSrc || s'.threads[t].pc == WriteCtl || s'.threads[t].pc == Start)
  }

  lemma {:induction false} BodyWriteSlots(s: State, s': State, t: Tid, i: Slot)
    requires Inv(s) && t < |s.threads| && BodyWrite(s, s', t)
    ensures SlotInv(s', i)
  {
    assert ThreadInv(s, t) && SlotInv(s, i);
  }

  lemma {:induction false} BodyWriteHandles(s: State, s': State, t: Tid, h: Hid)
    requires Inv(s) && t < |s.threads| && BodyWrite(s, s', t) && h < |s.handles|
    ensures HandleInv(s', h)
  {
    assert ThreadInv(s, t) && HandleInv(s, h);
  }

  lemma {:induction false} InvBodyWrite(s: State, s': State, t: Tid)
    requires Inv(s) && t < |s.threads| && BodyWrite(s, s', t) && ThreadInv(s', t)
    ensures Inv(s')
  {
    assert ThreadInv(s, t);
    forall u | 0 <= u < |s'.threads| ensures ThreadInv(s', u) { if u != t { HolderThreads(s, s', t, u); } }
    forall i | 0 <= i < NDESC ensures SlotInv(s', i) { BodyWriteSlots(s, s', t, i); }
    forall h | 0 <= h < |s'.handles| ensures HandleInv(s', h) { BodyWriteHandles(s, s', t, h); }
  }

  lemma {:induction false} InvWriteDst(s: State, t: Tid)
    requires Inv(s) && t < |s.threads| && s.threads[t].pc == WriteDst && !s.threads[t].op.Poll?
    ensures Inv(DoWriteDst(s, t))
  {
    assert ThreadInv(s, t);
    InvBodyWrite(s, DoWriteDst(s, t), t);
  }

  lemma {:induction false} InvWriteSrc(s: State, t: Tid)
    requires Inv(s) && t < |s.threads| && s.threads[t].pc == WriteSrc && !s.threads[t].op.Poll?
    ensures Inv(DoWriteSrc(s, t))
  {
    assert ThreadInv(s, t);
    InvBodyWrite(s, DoWriteSrc(s, t), t);
  }

  lemma {:induction false} InvWriteCtl(s: State, t: Tid)
    requires Inv(s) && t < |s.threads| && s.threads[t].pc == WriteCtl && !s.threads[t].op.Poll?
    ensures Inv(DoWriteCtl(s, t))
  {
    assert ThreadInv(s, t);
    InvBodyWrite(s, DoWriteCtl(s, t), t);
  }

  lemma {:induction false} SavePrevSlots(s: State, t: Tid, i: Slot)
    requires Inv(s) && t < |s.threads| && s.threads[t].pc == SavePrev
    ensures Shape(DoSavePrev(s, t)) && SlotInv(DoSavePrev(s, t), i)
  {
    assert ThreadInv(s, t) && SlotInv(s, i);
    assert SlotInv(s, s.threads[t].idx);
  }

  lemma {:induction false} SavePrevHandles(s: State, t: Tid, h: Hid)
    requires Inv(s) && t < |s.threads| && s.threads[t].pc == SavePrev && h < |s.handles|
    ensures Shape(DoSavePrev(s, t)) && HandleInv(DoSavePrev(s, t), h)
  {
    assert ThreadInv(s, t) && HandleInv(s, h);
    assert SlotInv(s, s.threads[t].idx);
  }

  lemma {:induction false} InvSavePrev(s: State, t: Tid)
    requires Inv(s) && t < |s.threads| && s.threads[t].pc == SavePrev
    ensures Inv(DoSavePrev(s, t))
  {
    var s' := DoSavePrev(s, t);
    assert ThreadInv(s, t) && SlotInv(s, s.threads[t].idx);
    forall u | 0 <= u < |s'.threads| ensures ThreadInv(s', u) { if u != t { HolderThreads(s, s', t, u); } }
    forall i | 0 <= i < NDESC ensures SlotInv(s', i) { SavePrevSlots(s, t, i); }
    forall h | 0 <= h < |s'.handles| ensures HandleInv(s', h) { SavePrevHandles(s, t, h); }
  }

  lemma {:induction false} ClearPrevSlots(s: State, t: Tid, i: Slot)
    requires Inv(s) && t < |s.threads| && s.threads[t].pc == ClearPrev
    ensures Shape(DoClearPrev(s, t)) && SlotInv(DoClearPrev(s, t), i)
  {
    assert ThreadInv(s, t) && SlotInv(s, i);
  }

  lemma {:induction false} ClearPrevHandles(s: State, t: Tid, h: Hid)
    requires Inv(s) && t < |s.threads| && s.threads[t].pc == ClearPrev && h < |s.handles|
    ensures Shape(DoClearPrev(s, t)) && HandleInv(DoClearPrev(s, t), h)
  {
    assert ThreadInv(s, t) && HandleInv(s, h);
    assert SlotInv(s, s.threads[t].idx);
  }

  lemma {:induction false} InvClearPrev(s: State, t: Tid)
    requires Inv(s) && t < |s.threads| && s.threads[t].pc == ClearPrev
    ensures Inv(DoClearPrev(s, t))
  {
    var s' := DoClearPrev(s, t);
    assert ThreadInv(s, t) && SlotInv(s, s.threads[t].idx);
    forall u | 0 <= u < |s'.threads| ensures ThreadInv(s', u) { if u != t { HolderThreads(s, s', t, u); } }
    forall i | 0 <= i < NDESC ensures SlotInv(s', i) { ClearPrevSlots(s, t, i); }
    forall h | 0 <= h < |s'.handles| ensures HandleInv(s', h) { ClearPrevHandles(s, t, h); }
  }

  /** Starting request `n` at slot `n % NDESC` leaves every slot with its newest request. */
  lemma {:induction false} StartPhases(s: State, t: Tid, i: Slot)
    requires Shape(s) && t < |s.threads| && s.threads[t].pc == Start && !s.threads[t].op.Poll?
    requires s.threads[t].idx == |s.started| % NDESC && History(s)
    requires Describes(s.desc[s.threads[t].idx], RequestOf(s.threads[t].op)) && PhaseInv(s, i)
    ensures Shape(DoStart(s, t)) && PhaseInv(DoStart(s, t), i)
  {
  }

  lemma {:induction false} StartSlots(s: State, t: Tid, i: Slot)
    requires Inv(s) && t < |s.threads| && s.threads[t].pc == Start && !s.threads[t].op.Poll?
    ensures Shape(DoStart(s, t)) && SlotInv(DoStart(s, t), i)
  {
    assert ThreadInv(s, t) && SlotInv(s, i);
    StartPhases(s, t, i);
  }

  lemma {:induction false} StartHandles(s: State, t: Tid, h: Hid)
    requires Inv(s) && t < |s.threads| && s.threads[t].pc == Start && !s.threads[t].op.Poll? && h < |s.handles|
    ensures Shape(DoStart(s, t)) && HandleInv(DoStart(s, t), h)
  {
    assert ThreadInv(s, t) && HandleInv(s, h);
  }

  lemma {:induction false} InvStart(s: State, t: Tid)
    requires Inv(s) && t < |s.threads| && s.threads[t].pc == Start && !s.threads[t].op.Poll?
    ensures Inv(DoStart(s, t))
  {
    var s' := DoStart(s, t);
    assert ThreadInv(s, t) && SlotInv(s, s.threads[t].idx);
    forall u | 0 <= u < |s'.threads| ensures ThreadInv(s', u) { if u != t { HolderThreads(s, s', t, u); } }
    forall i | 0 <= i < NDESC ensures SlotInv(s', i) { StartSlots(s, t, i); }
    forall h | 0 <= h < |s'.handles| ensures HandleInv(s', h) { StartHandles(s, t, h); }
  }

  lemma {:induction false} InitStatusSlots(s: State, t: Tid, i: Slot)
    requires Inv(s) && t < |s.threads| && s.threads[t].pc == InitStatus && s.threads[t].op.Post?
    ensures Shape(DoInitStatus(s, t)) && SlotInv(DoInitStatus(s, t), i)
  {
    assert ThreadInv(s, t) && SlotInv(s, i);
  }

  lemma {:induction false} InitStatusHandles(s: State, t: Tid, h: Hid)
    requires Inv(s) && t < |s.threads| && s.threads[t].pc == InitStatus && s.threads[t].op.Post? && h < |s.handles|
    ensures Shape(DoInitStatus(s, t)) && HandleInv(DoInitStatus(s, t), h)
  {
    assert ThreadInv(s, t) && HandleInv(s, h);
  }

  lemma {:induction false} InvInitStatus(s: State, t: Tid)
    requires Inv(s) && t < |s.threads| && s.threads[t].pc == InitStatus && s.threads[t].op.Post?
    ensures Inv(DoInitStatus(s, t))
  {
    var s' := DoInitStatus(s, t);
    assert ThreadInv(s, t) && SlotInv(s, s.threads[t].idx);
    forall u | 0 <= u < |s'.threads| ensures ThreadInv(s', u) { if u != t { HolderThreads(s, s', t, u); } }
    forall i | 0 <= i < NDESC ensures SlotInv(s', i) { InitStatusSlots(s, t, i); }
    forall h | 0 <= h < |s'.handles| ensures HandleInv(s', h) { InitStatusHandles(s, t, h); }
  }

  lemma {:induction false} InitIndexSlots(s: State, t: Tid, i: Slot)
    requires Inv(s) && t < |s.threads| && s.threads[t].pc == InitIndex && s.threads[t].op.Post?
    ensures Shape(DoInitIndex(s, t)) && SlotInv(DoInitIndex(s, t), i)
  {
    assert ThreadInv(s, t) && SlotInv(s, i);
  }

  lemma {:induction false} InitIndexHandles(s: State, t: Tid, h: Hid)
    requires Inv(s) && t < |s.threads| && s.threads[t].pc == InitIndex && s.threads[t].op.Post? && h < |s.handles|
    ensures Shape(DoInitIndex(s, t)) && HandleInv(DoInitIndex(s, t), h)
  {
    assert ThreadInv(s, t) && HandleInv(s, h);
  }

  lemma {:induction false} InvInitIndex(s: State, t: Tid)
    requires Inv(s) && t < |s.threads| && s.threads[t].pc == InitIndex && s.threads[t].op.Post?
    ensures Inv(DoInitIndex(s, t))
  {
    var s' := DoInitIndex(s, t);
    assert ThreadInv(s, t) && SlotInv(s, s.threads[t].idx);
    forall u | 0 <= u < |s'.threads| ensures ThreadInv(s', u) { if u != t { HolderThreads(s, s', t, u); } }
    forall i | 0 <= i < NDESC ensures SlotInv(s', i) { InitIndexSlots(s, t, i); }
    forall h | 0 <= h < |s'.handles| ensures HandleInv(s', h) { InitIndexHandles(s, t, h); }
  }

  lemma {:induction false} SetStatusSlots(s: State, t: Tid, i: Slot)
    requires Inv(s) && t < |s.threads| && s.threads[t].pc == SetStatus && !s.threads[t].op.Poll?
    ensures Shape(DoSetStatus(s, t)) && SlotInv(DoSetStatus(s, t), i)
  {
    assert ThreadInv(s, t) && SlotInv(s, i);
  }

  lemma {:induction false} SetStatusHandles(s: State, t: Tid, h: Hid)
    requires Inv(s) && t < |s.threads| && s.threads[t].pc == SetStatus && !s.threads[t].op.Poll? && h < |s.handles|
    ensures Shape(DoSetStatus(s, t)) && HandleInv(DoSetStatus(s, t), h)
  {
    assert ThreadInv(s, t) && HandleInv(s, h);
  }

  lemma {:induction false} InvSetStatus(s: State, t: Tid)
    requires Inv(s) && t < |s.threads| && s.threads[t].pc == SetStatus && !s.threads[t].op.Poll?
    ensures Inv(DoSetStatus(s, t))
  {
    var s' := DoSetStatus(s, t);
    assert ThreadInv(s, t) && SlotInv(s, s.threads[t].idx);
    forall u | 0 <= u < |s'.threads| ensures ThreadInv(s', u) { if u != t { HolderThreads(s, s', t, u); } }
    forall i | 0 <= i < NDESC ensures SlotInv(s', i) { SetStatusSlots(s, t, i); }
    forall h | 0 <= h < |s'.handles| ensures HandleInv(s', h) { SetStatusHandles(s, t, h); }
  }

  lemma {:induction false} NextIndex(k: nat)
    requires k > 0
    ensures ((k - 1) % NDESC + 1) % NDESC == k % NDESC
  {
  }

  lemma {:induction false} BumpIndexSlots(s: State, t: Tid, i: Slot)
    requires Inv(s) && t < |s.threads| && s.threads[t].pc == BumpIndex
    ensures Shape(DoBumpIndex(s, t)) && SlotInv(DoBumpIndex(s, t), i)
  {
    assert ThreadInv(s, t) && SlotInv(s, i);
    if s.status[i].Ptr? { assert HandleInv(s, s.status[i].handle); }
  }

  lemma {:induction false} BumpIndexHandles(s: State, t: Tid, h: Hid)
    requires Inv(s) && t < |s.threads| && s.threads[t].pc == BumpIndex && h < |s.handles|
    ensures Shape(DoBumpIndex(s, t)) && HandleInv(DoBumpIndex(s, t), h)
  {
    assert ThreadInv(s, t) && HandleInv(s, h);
  }

  lemma {:induction false} InvBumpIndex(s: State, t: Tid)
    requires Inv(s) && t < |s.threads| && s.threads[t].pc == BumpIndex
    ensures Inv(DoBumpIndex(s, t))
  {
    var s' := DoBumpIndex(s, t);
    assert ThreadInv(s, t) && SlotInv(s, s.threads[t].idx);
    NextIndex(|s.started|);
    forall u | 0 <= u < |s'.threads| ensures ThreadInv(s', u) { if u != t { HolderThreads(s, s', t, u); } }
    forall i | 0 <= i < NDESC ensures SlotInv(s', i) { BumpIndexSlots(s, t, i); }
    forall h | 0 <= h < |s'.handles| ensures HandleInv(s', h) { BumpIndexHandles(s, t, h); }
  }

  lemma {:induction false} UnlockSlots(s: State, t: Tid, i: Slot)
    requires Inv(s) && t < |s.threads| && s.threads[t].pc == Unlock
    ensures Shape(DoUnlock(s, t)) && SlotInv(DoUnlock(s, t), i)
  {
    assert ThreadInv(s, t) && SlotInv(s, i);
    if s.status[i].Ptr? { assert HandleInv(s, s.status[i].handle); }
  }

  lemma {:induction false} UnlockHandles(s: State, t: Tid, h: Hid)
    requires Inv(s) && t < |s.threads| && s.threads[t].pc == Unlock && h < |s.handles|
    ensures Shape(DoUnlock(s, t)) && HandleInv(DoUnlock(s, t), h)
  {
    assert ThreadInv(s, t) && HandleInv(s, h);
  }

  lemma {:induction false} InvUnlock(s: State, t: Tid)
    requires Inv(s) && t < |s.threads| && s.threads[t].pc == Unlock
    ensures Inv(DoUnlock(s, t))
  {
    var s' := DoUnlock(s, t);
    assert ThreadInv(s, t) && SlotInv(s, s.threads[t].idx);
    forall u | 0 <= u < |s'.threads| ensures ThreadInv(s', u) { if u != t { HolderThreads(s, s', t, u); } }
    forall i | 0 <= i < NDESC ensures SlotInv(s', i) { UnlockSlots(s, t, i); }
    forall h | 0 <= h < |s'.handles| ensures HandleInv(s', h) { UnlockHandles(s, t, h); }
  }

  lemma {:induction false} ClearPolledSlots(s: State, t: Tid, i: Slot)
    requires Inv(s) && t < |s.threads| && s.threads[t].pc == ClearPolled && s.threads[t].op.Poll?
    ensures Shape(DoClearPolled(s, t)) && SlotInv(DoClearPolled(s, t), i)
  {
    assert ThreadInv(s, t) && SlotInv(s, i);
    assert HandleInv(s, s.threads[t].op.ph);
    if s.status[i].Ptr? { assert HandleInv(s, s.status[i].handle); }
  }

  lemma {:induction false} ClearPolledHandles(s: State, t: Tid, h: Hid)
    requires Inv(s) && t < |s.threads| && s.threads[t].pc == ClearPolled && s.threads[t].op.Poll? && h < |s.handles|
    ensures Shape(DoClearPolled(s, t)) && HandleInv(DoClearPolled(s, t), h)
  {
    assert ThreadInv(s, t) && HandleInv(s, h) && SlotInv(s, s.threads[t].idx);
    assert HandleInv(s, s.threads[t].op.ph);
  }

  lemma {:induction false} InvClearPolled(s: State, t: Tid)
    requires Inv(s) && t < |s.threads| && s.threads[t].pc == ClearPolled && s.threads[t].op.Poll?
    ensures Inv(DoClearPolled(s, t))
  {
    var s' := DoClearPolled(s, t);
    assert ThreadInv(s, t) && SlotInv(s, s.threads[t].idx);
    forall u | 0 <= u < |s'.threads| ensures ThreadInv(s', u) { if u != t { HolderThreads(s, s', t, u); } }
    forall i | 0 <= i < NDESC ensures SlotInv(s', i) { ClearPolledSlots(s, t, i); }
    forall h | 0 <= h < |s'.handles| ensures HandleInv(s', h) { ClearPolledHandles(s, t, h); }
  }

  // ---- calls and returns, which leave the ring itself alone --------------------------------

  /** Only threads, the callers' view of the handles and the reported results differ. */
  ghost predicate SameRing(s: State, s': State) {
    && Shape(s) && Shape(s') && |s'.threads| == |s.threads|
    && s' == s.(threads := s'.threads, client := s'.client, reported := s'.reported)
  }

  lemma {:induction false} SameRingThread(s: State, s': State, u: Tid)
    requires Inv(s) && SameRing(s, s') && u < |s.threads| && s'.threads[u] == s.threads[u]
    requires s.threads[u].pc != Idle && s.threads[u].op.Post? ==>
               s'.client[s.threads[u].op.h] == s.client[s.threads[u].op.h]
    requires s.threads[u].pc != Idle && s.threads[u].op.Poll? ==>
               s'.client[s.threads[u].op.ph] == s.client[s.threads[u].op.ph]
    requires var k, o := s.threads[u].serial, OwnerOf(u, s.threads[u].op);
             !s.threads[u].op.Poll? && s.threads[u].pc != Idle && Fresh(s, k, o) ==> Fresh(s', k, o)
    ensures ThreadInv(s', u)
  {
    assert ThreadInv(s, u);
  }

  lemma {:induction false} SameRingSlot(s: State, s': State, i: Slot)
    requires SameRing(s, s') && SlotInv(s, i)
    requires s.lock.Some? && s.lock.value < |s.threads| ==> s'.threads[s.lock.value] == s.threads[s.lock.value]
    requires s.status[i].Sync? && s.status[i].owner < |s.threads| ==>
               s'.threads[s.status[i].owner] == s.threads[s.status[i].owner]
    requires s.status[i].Ptr? ==> PointedTo(s', s.status[i].handle)
    ensures SlotInv(s', i)
  {
    assert PhaseInv(s', i);
  }

  lemma {:induction false} SameRingHandle(s: State, s': State, h: Hid)
    requires SameRing(s, s') && h < |s.handles| && HandleInv(s, h)
    requires s'.client[h] == s.client[h]
    requires s.client[h].Posting? || s.client[h].Polling? ==>
               s.client[h].caller < |s.threads|
               && s'.threads[s.client[h].caller] == s.threads[s.client[h].caller]
    requires Fresh(s, s.serialOf[h], ByHandle(h)) ==> Fresh(s', s.serialOf[h], ByHandle(h))
    ensures HandleInv(s', h)
  {
  }

  // ---- steps taken without the lock --------------------------------------------------------

  lemma {:induction false} LockSelf(s: State, t: Tid)
    requires Inv(s) && t < |s.threads| && s.threads[t].pc == Lock
    ensures Shape(DoLock(s, t)) && ThreadInv(DoLock(s, t), t)
  {
    assert ThreadInv(s, t);
  }

  lemma {:induction false} LockThreads(s: State, t: Tid, u: Tid)
    requires Inv(s) && t < |s.threads| && s.threads[t].pc == Lock && u < |s.threads| && u != t
    ensures Shape(DoLock(s, t)) && ThreadInv(DoLock(s, t), u)
  {
    assert ThreadInv(s, u);
  }

  lemma {:induction false} LockSlots(s: State, t: Tid, i: Slot)
    requires Inv(s) && t < |s.threads| && s.threads[t].pc == Lock
    ensures Shape(DoLock(s, t)) && SlotInv(DoLock(s, t), i)
  {
    assert ThreadInv(s, t) && SlotInv(s, i);
  }

  lemma {:induction false} LockHandles(s: State, t: Tid, h: Hid)
    requires Inv(s) && t < |s.threads| && s.threads[t].pc == Lock && h < |s.handles|
    ensures Shape(DoLock(s, t)) && HandleInv(DoLock(s, t), h)
  {
    assert ThreadInv(s, t) && HandleInv(s, h);
  }

  lemma {:induction false} InvLock(s: State, t: Tid)
    requires Inv(s) && t < |s.threads| && s.threads[t].pc == Lock
    ensures Inv(DoLock(s, t))
  {
    var s' := DoLock(s, t);
    assert ThreadInv(s, t) && SlotInv(s, s.threads[t].idx);
    forall u | 0 <= u < |s'.threads| ensures ThreadInv(s', u) {
      if u == t { LockSelf(s, t); } else { LockThreads(s, t, u); }
    }
    forall i | 0 <= i < NDESC ensures SlotInv(s', i) { LockSlots(s, t, i); }
    forall h | 0 <= h < |s'.handles| ensures HandleInv(s', h) { LockHandles(s, t, h); }
  }

  lemma {:induction false} ClearOwnThreads(s: State, t: Tid, u: Tid)
    requires Inv(s) && t < |s.threads| && s.threads[t].pc == ClearOwn && u < |s.threads|
    ensures Shape(DoClearOwn(s, t)) && ThreadInv(DoClearOwn(s, t), u)
  {
    assert ThreadInv(s, t) && ThreadInv(s, u) && SlotInv(s, s.threads[t].idx);
  }

  lemma {:induction false} ClearOwnSlots(s: State, t: Tid, i: Slot)
    requires Inv(s) && t < |s.threads| && s.threads[t].pc == ClearOwn
    ensures Shape(DoClearOwn(s, t)) && SlotInv(DoClearOwn(s, t), i)
  {
    assert ThreadInv(s, t) && SlotInv(s, i);
    if s.status[i].Ptr? { assert HandleInv(s, s.status[i].handle); }
  }

  lemma {:induction false} ClearOwnHandles(s: State, t: Tid, h: Hid)
    requires Inv(s) && t < |s.threads| && s.threads[t].pc == ClearOwn && h < |s.handles|
    ensures Shape(DoClearOwn(s, t)) && HandleInv(DoClearOwn(s, t), h)
  {
    assert ThreadInv(s, t) && HandleInv(s, h);
  }

  lemma {:induction false} InvClearOwn(s: State, t: Tid)
    requires Inv(s) && t < |s.threads| && s.threads[t].pc == ClearOwn
    ensures Inv(DoClearOwn(s, t))
  {
    var s' := DoClearOwn(s, t);
    assert ThreadInv(s, t) && SlotInv(s, s.threads[t].idx);
    forall u | 0 <= u < |s'.threads| ensures ThreadInv(s', u) { ClearOwnThreads(s, t, u); }
    forall i | 0 <= i < NDESC ensures SlotInv(s', i) { ClearOwnSlots(s, t, i); }
    forall h | 0 <= h < |s'.handles| ensures HandleInv(s', h) { ClearOwnHandles(s, t, h); }
  }

  /** The request whose result a returning call reports. */
  ghost predicate Reports(s: State, t: Tid)
    requires Shape(s) && t < |s.threads|
  {
    s.threads[t].op.PostWait? || (s.threads[t].op.Poll? && s.threads[t].ret != -EAGAIN)
  }

  ghost function ReportedOwner(t: Tid, op: Op): Owner {
    match op
    case Post(h, _) => ByHandle(h)
    case PostWait(_) => ByThread(t)
    case Poll(h) => ByHandle(h)
  }

  /** A result is reported once: the request reported is fresh, decided, and its owner's. */
  lemma {:induction false} ReportIsOwn(s: State, t: Tid)
    requires Inv(s) && t < |s.threads| && s.threads[t].pc == Return && Reports(s, t)
    ensures exists k ::
              && Fresh(s, k, ReportedOwner(t, s.threads[t].op)) && Decided(s, k, s.threads[t].ret)
              && DoReturn(s, t).reported == s.reported[k := s.threads[t].ret]
  {
    assert ThreadInv(s, t);
    if s.threads[t].op.Poll? {
      var h := s.threads[t].op.ph;
      assert HandleInv(s, h);
      assert Fresh(s, s.serialOf[h], ByHandle(h));
    } else {
      assert Fresh(s, s.threads[t].serial, ByThread(t));
    }
  }

  /** ... so requests of other owners stay unreported. */
  lemma {:induction false} OthersStayFresh(s: State, t: Tid, k: nat, o: Owner)
    requires Inv(s) && t < |s.threads| && s.threads[t].pc == Return
    requires Fresh(s, k, o) && o != ReportedOwner(t, s.threads[t].op)
    ensures Fresh(DoReturn(s, t), k, o)
  {
    if Reports(s, t) { ReportIsOwn(s, t); }
  }

  /** A return releases the handles of its own call only, and never one a slot points to. */
  lemma {:induction false} ReturnPointed(s: State, t: Tid, h: Hid)
    requires Inv(s) && t < |s.threads| && s.threads[t].pc == Return
    requires h < |s.handles| && PointedTo(s, h)
    ensures Shape(DoReturn(s, t)) && PointedTo(DoReturn(s, t), h)
  {
    assert ThreadInv(s, t) && HandleInv(s, h);
  }

  lemma {:induction false} ReturnKeepsLockHolder(s: State, t: Tid)
    requires Inv(s) && t < |s.threads| && s.threads[t].pc == Return
    ensures s.lock != Some(t)
    ensures s.lock.Some? ==> DoReturn(s, t).threads[s.lock.value] == s.threads[s.lock.value]
  {
    assert ThreadInv(s, t);
  }

  /** A return changes the caller's view of the handle of its own call only. */
  lemma {:induction false} ReturnClient(s: State, t: Tid, h: Hid)
    requires Shape(s) && t < |s.threads| && ThreadInv(s, t) && s.threads[t].pc == Return
    requires h < |s.client| && s.client[h] != Posting(t) && s.client[h] != Polling(t)
    ensures DoReturn(s, t).client[h] == s.client[h]
  {
  }

  lemma {:induction false} ReturnFresh(s: State, t: Tid, u: Tid)
    requires Inv(s) && t < |s.threads| && s.threads[t].pc == Return && u < |s.threads| && u != t
    ensures var k, o := s.threads[u].serial, OwnerOf(u, s.threads[u].op);
            s.threads[u].pc != Idle && !s.threads[u].op.Poll? && Fresh(s, k, o) ==> Fresh(DoReturn(s, t), k, o)
  {
    assert ThreadInv(s, t) && ThreadInv(s, u);
    var o := OwnerOf(u, s.threads[u].op);
    if Fresh(s, s.threads[u].serial, o) && s.threads[u].pc != Idle && !s.threads[u].op.Poll? {
      OthersStayFresh(s, t, s.threads[u].serial, o);
    }
  }

  /** What the handle of another thread's call looks like to its caller does not change. */
  lemma {:induction false} ReturnKeepsOthers(s: State, t: Tid, u: Tid)
    requires Inv(s) && t < |s.threads| && s.threads[t].pc == Return && u < |s.threads| && u != t
    ensures var th, s' := s.threads[u], DoReturn(s, t);
            && (th.pc != Idle && th.op.Post? ==> s'.client[th.op.h] == s.client[th.op.h])
            && (th.pc != Idle && th.op.Poll? ==> s'.client[th.op.ph] == s.client[th.op.ph])
  {
    assert ThreadInv(s, t) && ThreadInv(s, u);
  }

  lemma {:induction false} ReturnThreads(s: State, t: Tid, u: Tid)
    requires Inv(s) && t < |s.threads| && s.threads[t].pc == Return && u < |s.threads| && u != t
    ensures Shape(DoReturn(s, t)) && ThreadInv(DoReturn(s, t), u)
  {
    ReturnKeepsOthers(s, t, u);
    ReturnFresh(s, t, u);
    SameRingThread(s, DoReturn(s, t), u);
  }

  lemma {:induction false} ReturnSlots(s: State, t: Tid, i: Slot)
    requires Inv(s) && t < |s.threads| && s.threads[t].pc == Return
    ensures Shape(DoReturn(s, t)) && SlotInv(DoReturn(s, t), i)
  {
    var s' := DoReturn(s, t);
    ReturnKeepsLockHolder(s, t);
    assert SlotInv(s, i);
    if s.status[i].Ptr? { ReturnPointed(s, t, s.status[i].handle); }
    SameRingSlot(s, s', i);
  }

  lemma {:induction false} ReturnHandles(s: State, t: Tid, h: Hid)
    requires Inv(s) && t < |s.threads| && s.threads[t].pc == Return && h < |s.handles|
    ensures Shape(DoReturn(s, t)) && HandleInv(DoReturn(s, t), h)
  {
    var s' := DoReturn(s, t);
    assert ThreadInv(s, t) && HandleInv(s, h);
    if s.client[h] != Posting(t) && s.client[h] != Polling(t) {
      if Fresh(s, s.serialOf[h], ByHandle(h)) && ReportedOwner(t, s.threads[t].op) != ByHandle(h) {
        OthersStayFresh(s, t, s.serialOf[h], ByHandle(h));
      }
      SameRingHandle(s, s', h);
    }
  }

  lemma {:induction false} ReturnHistory(s: State, t: Tid)
    requires Inv(s) && t < |s.threads| && s.threads[t].pc == Return
    ensures History(DoReturn(s, t))
  {
    if Reports(s, t) { ReportIsOwn(s, t); }
  }

  lemma {:induction false} ReturnSelf(s: State, t: Tid)
    requires Shape(s) && t < |s.threads| && ThreadInv(s, t) && s.threads[t].pc == Return
    ensures Shape(DoReturn(s, t)) && ThreadInv(DoReturn(s, t), t)
  {
  }

  lemma {:induction false} ReturnIndex(s: State, t: Tid)
    requires Inv(s) && t < |s.threads| && s.threads[t].pc == Return
    ensures Shape(DoReturn(s, t)) && IndexInv(DoReturn(s, t))
  {
    ReturnKeepsLockHolder(s, t);
  }

  lemma {:induction false} InvReturn(s: State, t: Tid)
    requires Inv(s) && t < |s.threads| && s.threads[t].pc == Return
    ensures Inv(DoReturn(s, t))
  {
    var s' := DoReturn(s, t);
    assert ThreadInv(s, t);
    ReturnSelf(s, t);
    ReturnIndex(s, t);
    ReturnHistory(s, t);
    forall u | 0 <= u < |s'.threads| ensures ThreadInv(s', u) { if u != t { ReturnThreads(s, t, u); } }
    forall i | 0 <= i < NDESC ensures SlotInv(s', i) { ReturnSlots(s, t, i); }
    forall h | 0 <= h < |s'.handles| ensures HandleInv(s', h) { ReturnHandles(s, t, h); }
  }

  lemma {:induction false} EnterThreads(s: State, t: Tid, op: Op, u: Tid)
    requires Inv(s) && MayCall(s, t, op) && u < |s.threads|
    ensures Shape(Enter(s, t, op)) && ThreadInv(Enter(s, t, op), u)
  {
    assert ThreadInv(s, t) && ThreadInv(s, u);
    if u != t { SameRingThread(s, Enter(s, t, op), u); }
  }

  lemma {:induction false} EnterSlots(s: State, t: Tid, op: Op, i: Slot)
    requires Inv(s) && MayCall(s, t, op)
    ensures Shape(Enter(s, t, op)) && SlotInv(Enter(s, t, op), i)
  {
    assert ThreadInv(s, t) && SlotInv(s, i);
    if s.status[i].Ptr? { assert HandleInv(s, s.status[i].handle); }
    SameRingSlot(s, Enter(s, t, op), i);
  }

  lemma {:induction false} EnterHandles(s: State, t: Tid, op: Op, h: Hid)
    requires Inv(s) && MayCall(s, t, op) && h < |s.handles|
    ensures Shape(Enter(s, t, op)) && HandleInv(Enter(s, t, op), h)
  {
    assert HandleInv(s, h);
    if Enter(s, t, op).client[h] == s.client[h] { SameRingHandle(s, Enter(s, t, op), h); }
  }

  /** A call allowed by the discipline keeps the invariant. */
  lemma {:induction false} InvEnter(s: State, t: Tid, op: Op)
    requires Inv(s) && MayCall(s, t, op)
    ensures Inv(Enter(s, t, op))
  {
    var s' := Enter(s, t, op);
    assert ThreadInv(s, t);
    forall u | 0 <= u < |s'.threads| ensures ThreadInv(s', u) { EnterThreads(s, t, op, u); }
    forall i | 0 <= i < NDESC ensures SlotInv(s', i) { EnterSlots(s, t, op, i); }
    forall h | 0 <= h < |s'.handles| ensures HandleInv(s', h) { EnterHandles(s, t, op, h); }
  }

  // ---- the hardware ------------------------------------------------------------------------

  lemma {:induction false} FinishThreads(s: State, j: Slot, e: nat, u: Tid)
    requires Shape(s) && s.desc[j].phase.Running? && e < 0x1_0000 && u < |s.threads|
    requires ThreadInv(s, u) && PhaseInv(s, j)
    ensures Shape(Finish(s, j, e)) && ThreadInv(Finish(s, j, e), u)
  {
  }

  lemma {:induction false} FinishSlots(s: State, j: Slot, e: nat, i: Slot)
    requires Inv(s) && s.desc[j].phase.Running? && e < 0x1_0000
    ensures Shape(Finish(s, j, e)) && SlotInv(Finish(s, j, e), i)
  {
    assert SlotInv(s, i) && SlotInv(s, j);
  }

  lemma {:induction false} FinishHandles(s: State, j: Slot, e: nat, h: Hid)
    requires Inv(s) && s.desc[j].phase.Running? && e < 0x1_0000 && h < |s.handles|
    ensures Shape(Finish(s, j, e)) && HandleInv(Finish(s, j, e), h)
  {
    assert HandleInv(s, h) && SlotInv(s, j);
  }

  lemma {:induction false} InvFinish(s: State, j: Slot, e: nat)
    requires Inv(s) && s.desc[j].phase.Running? && e < 0x1_0000
    ensures Inv(Finish(s, j, e))
  {
    var s' := Finish(s, j, e);
    assert SlotInv(s, j);
    forall u | 0 <= u < |s'.threads| ensures ThreadInv(s', u) {
      assert ThreadInv(s, u);
      FinishThreads(s, j, e, u);
    }
    forall i | 0 <= i < NDESC ensures SlotInv(s', i) { FinishSlots(s, j, e, i); }
    forall h | 0 <= h < |s'.handles| ensures HandleInv(s', h) { FinishHandles(s, j, e, h); }
  }

  // ---- every step --------------------------------------------------------------------------

  lemma {:induction false} InvStep(s: State, t: Tid)
    requires Inv(s) && t < |s.threads| && Fits(s.threads[t].op, s.threads[t].pc)
    ensures Inv(Step(s, t))
  {
    match s.threads[t].pc
    case Idle =>
    case Lock => InvLock(s, t);
    case ReadIndex => InvReadIndex(s, t);
    case CheckStatus => InvCheckStatus(s, t);
    case CheckPrev => InvCheckPrev(s, t);
    case SavePrev => InvSavePrev(s, t);
    case ClearPrev => InvClearPrev(s, t);
    case WriteDst => InvWriteDst(s, t);
    case WriteSrc => InvWriteSrc(s, t);
    case WriteCtl => InvWriteCtl(s, t);
    case Start => InvStart(s, t);
    case InitStatus => InvInitStatus(s, t);
    case InitIndex => InvInitIndex(s, t);
    case SetStatus => InvSetStatus(s, t);
    case BumpIndex => InvBumpIndex(s, t);
    case Unlock => InvUnlock(s, t);
    case AwaitOwn => InvAwaitOwn(s, t);
    case ClearOwn => InvClearOwn(s, t);
    case LoadStatus => InvLoadStatus(s, t);
    case LoadIndex => InvLoadIndex(s, t);
    case CheckOwn => InvCheckOwn(s, t);
    case ClearPolled => InvClearPolled(s, t);
    case Return => InvReturn(s, t);
  }

  /** Whatever an enabled action does, the invariant survives it. */
  lemma {:induction false} InvApply(s: State, a: Action)
    requires Inv(s) && Enabled(s, a)
    ensures Inv(Apply(s, a))
  {
    match a
    case Call(t, op) => InvEnter(s, t, op);
    case Run(t) => InvStep(s, t);
    case Hardware(i, e) => InvFinish(s, i, e);
  }
}
