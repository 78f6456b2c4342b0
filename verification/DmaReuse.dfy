/** Polling a handle again after its completion was reported: what it does to others. */
module DmaReuse {
  import opened Bytes
  import opened DmaRing
  import opened DmaRingInv
  import opened DmaRingTheorems
  import opened DmaRequests

  // ---- a handle at rest has nothing left to report -----------------------------------------

  /** The handle's last request, if any, has been reported, unless its caller is between the start
      of a request and the report of it. */
  ghost predicate SettledAt(s: State, h: Hid)
    requires Shape(s) && h < |s.handles|
  {
    match s.client[h]
    case Rest => !Fresh(s, s.serialOf[h], ByHandle(h))
    case Posting(t) =>
      t < |s.threads| && (HasStarted(s.threads[t]) || !Fresh(s, s.serialOf[h], ByHandle(h)))
    case _ => true
  }

  ghost predicate Settled(s: State) {
    Shape(s) && forall h :: 0 <= h < |s.handles| ==> SettledAt(s, h)
  }

  lemma {:induction false} SettledInitial(s: State)
    requires Initial(s)
    ensures Settled(s)
  {
  }

  lemma {:induction false} InnerSettles(s: State, t: Tid, h: Hid)
    requires Inv(s) && t < |s.threads| && h < |s.handles| && SettledAt(s, h)
    requires Fits(s.threads[t].op, s.threads[t].pc)
    requires s.threads[t].pc != Start && s.threads[t].pc != Return && Shape(Step(s, t)) && h < |Step(s, t).handles|
    ensures SettledAt(Step(s, t), h)
  {
    InnerStep(s, t);
    if s.client[h] == Posting(t) && s.threads[t].pc != Idle {
      assert ThreadInv(s, t) && HandleInv(s, h);
      OwnStep(s, t);
    }
  }

  lemma {:induction false} StartSettles(s: State, t: Tid, h: Hid)
    requires Inv(s) && t < |s.threads| && h < |s.handles| && SettledAt(s, h) && s.threads[t].pc == Start
    requires !s.threads[t].op.Poll?
    ensures Shape(DoStart(s, t)) && SettledAt(DoStart(s, t), h)
  {
    assert ThreadInv(s, t) && HandleInv(s, h);
  }

  /** What a return reports stays reported, and so does all else. */
  lemma {:induction false} ReturnForgetsNothing(s: State, t: Tid)
    requires Shape(s) && t < |s.threads|
    ensures var s' := DoReturn(s, t);
            && Shape(s') && |s'.handles| == |s.handles| && s'.started == s.started && s'.serialOf == s.serialOf
            && (forall k :: k in s.reported ==> k in s'.reported)
            && |s'.threads| == |s.threads|
            && forall u :: 0 <= u < |s.threads| && u != t ==> s'.threads[u] == s.threads[u]
  {
  }

  /** The handle of the call itself. */
  lemma {:induction false} ReturnSettlesOwn(s: State, t: Tid, h: Hid)
    requires Inv(s) && t < |s.threads| && h < |s.handles| && SettledAt(s, h) && s.threads[t].pc == Return
    requires s.client[h] == Posting(t) || s.client[h] == Polling(t)
    ensures Shape(DoReturn(s, t)) && SettledAt(DoReturn(s, t), h)
  {
    assert HandleInv(s, h);
  }

  lemma {:induction false} ReturnSettles(s: State, t: Tid, h: Hid)
    requires Inv(s) && t < |s.threads| && h < |s.handles| && SettledAt(s, h) && s.threads[t].pc == Return
    ensures Shape(DoReturn(s, t)) && SettledAt(DoReturn(s, t), h)
  {
    if s.client[h] == Posting(t) || s.client[h] == Polling(t) {
      ReturnSettlesOwn(s, t, h);
    } else {
      ReturnForgetsNothing(s, t);
      assert ThreadInv(s, t);
      ReturnClient(s, t, h);
    }
  }

  lemma {:induction false} StepSettles(s: State, t: Tid, h: Hid)
    requires Inv(s) && t < |s.threads| && h < |s.handles| && SettledAt(s, h)
    requires Fits(s.threads[t].op, s.threads[t].pc)
    requires Shape(Step(s, t)) && h < |Step(s, t).handles|
    ensures SettledAt(Step(s, t), h)
  {
    if s.threads[t].pc == Start {
      StartSettles(s, t, h);
    } else if s.threads[t].pc == Return {
      ReturnSettles(s, t, h);
    } else {
      InnerSettles(s, t, h);
    }
  }

  lemma {:induction false} CallSettles(s: State, t: Tid, op: Op, h: Hid)
    requires Inv(s) && Shape(s) && MayCall(s, t, op) && h < |s.handles| && SettledAt(s, h)
    ensures Shape(Enter(s, t, op)) && SettledAt(Enter(s, t, op), h)
  {
    assert HandleInv(s, h);
  }

  lemma {:induction false} FinishSettles(s: State, i: Slot, e: nat, h: Hid)
    requires Shape(s) && s.desc[i].phase.Running? && e < 0x1_0000 && h < |s.handles| && SettledAt(s, h)
    ensures Shape(Finish(s, i, e)) && SettledAt(Finish(s, i, e), h)
  {
  }

  lemma {:induction false} ApplySettlesAt(s: State, a: Action, h: Hid)
    requires Inv(s) && Enabled(s, a) && h < |s.handles| && SettledAt(s, h)
    requires Shape(Apply(s, a)) && h < |Apply(s, a).handles|
    ensures SettledAt(Apply(s, a), h)
  {
    match a
    case Call(t, op) => CallSettles(s, t, op, h);
    case Run(t) => StepSettles(s, t, h);
    case Hardware(i, e) => FinishSettles(s, i, e, h);
  }

  lemma {:induction false} ApplySettles(s: State, a: Action)
    requires Inv(s) && Enabled(s, a) && Settled(s)
    ensures Settled(Apply(s, a))
  {
    InvApply(s, a);
    ApplyKeepsHandles(s, a);
    forall h | 0 <= h < |s.handles| ensures SettledAt(Apply(s, a), h) {
      assert SettledAt(s, h);
      ApplySettlesAt(s, a, h);
    }
  }

  lemma {:induction false} ApplyKeepsHandles(s: State, a: Action)
    requires Enabled(s, a)
    ensures |Apply(s, a).handles| == |s.handles|
  {
    if a.Run? {
      match s.threads[a.tid].pc
      case Start => assert Step(s, a.tid) == DoStart(s, a.tid);
      case Return => assert Step(s, a.tid) == DoReturn(s, a.tid);
      case _ => InnerStep(s, a.tid);
    }
  }

  /** In every state of every run, the last request of a handle at rest has been reported. */
  lemma {:induction false} RunSettled(run: seq<State>, acts: seq<Action>, n: nat)
    requires IsRun(run, acts) && n < |run|
    ensures Settled(run[n])
    decreases n
  {
    if n == 0 {
      SettledInitial(run[0]);
    } else {
      RunSettled(run, acts, n - 1);
      RunInv(run, acts, n - 1);
      RunStep(run, acts, n - 1);
      ApplySettles(run[n - 1], acts[n - 1]);
    }
  }

  // ---- a poll, whether the discipline allows it or not -------------------------------------

  /** A poll of `h` up to its answer. */
  ghost function PollLooks(s: State, t: Tid, h: Hid): (s': State)
    requires Shape(s) && t < |s.threads| && s.lock == None && h < |s.handles|
    ensures Shape(s') && |s'.threads| == |s.threads|
  {
    var s1 := DoLoadStatus(DoLock(Enter(s, t, Poll(h)), t), t);
    if s1.threads[t].pc == LoadIndex then DoCheckOwn(DoLoadIndex(s1, t), t) else s1
  }

  /** The state after a poll of `h` that nothing interrupts. */
  ghost function UninterruptedPoll(s: State, t: Tid, h: Hid): State
    requires Shape(s) && t < |s.threads| && s.lock == None && h < |s.handles|
  {
    var s1 := PollLooks(s, t, h);
    DoUnlock(if s1.threads[t].pc == ClearPolled then DoClearPolled(s1, t) else s1, t)
  }

  /** What the poll returns: a stored result, the code in the descriptor, or nothing yet. */
  function PollAnswer(s: State, h: Hid): int
    requires Shape(s) && h < |s.handles|
  {
    var hd := s.handles[h];
    if hd.status != NO_RESULT then hd.status
    else if s.desc[hd.index].phase.Complete? then s.desc[hd.index].phase.exc
    else -EAGAIN
  }

  lemma {:induction false} PollLooksUp(s: State, t: Tid, h: Hid)
    requires Shape(s) && t < |s.threads| && s.lock == None && h < |s.handles|
    ensures var s', th := PollLooks(s, t, h), PollLooks(s, t, h).threads[t];
            && s'.handles == s.handles && s'.status == s.status && th.op == Poll(h)
            && (forall u :: 0 <= u < |s.threads| && u != t ==> s'.threads[u] == s.threads[u])
            && if s.handles[h].status == NO_RESULT && s.desc[s.handles[h].index].phase.Complete?
               then th.pc == ClearPolled && th.word == PollAnswer(s, h) && th.idx == s.handles[h].index
               else th.pc == Unlock && th.ret == PollAnswer(s, h)
  {
  }

  lemma {:induction false} PollDoes(s: State, t: Tid, h: Hid)
    requires Shape(s) && t < |s.threads| && s.lock == None && h < |s.handles|
    ensures var s', i := UninterruptedPoll(s, t, h), s.handles[h].index;
            && Shape(s') && |s'.threads| == |s.threads|
            && s'.threads[t].pc == Return && s'.threads[t].ret == PollAnswer(s, h)
            && s'.handles == s.handles && s'.lock == None
            && (forall u :: 0 <= u < |s.threads| && u != t ==> s'.threads[u] == s.threads[u])
            && s'.status == if s.handles[h].status == NO_RESULT && s.desc[i].phase.Complete?
                            then s.status[i := Free] else s.status
  {
    PollLooksUp(s, t, h);
  }

  /** The answer is the code of the request last posted with the handle, which no call has returned
      before, and no mark is taken away but the handle's own. */
  ghost predicate Proper(s: State, t: Tid, h: Hid)
    requires Shape(s) && t < |s.threads| && s.lock == None && h < |s.handles|
  {
    && Fresh(s, s.serialOf[h], ByHandle(h)) && Decided(s, s.serialOf[h], PollAnswer(s, h))
    && |UninterruptedPoll(s, t, h).status| == NDESC
    && forall i :: 0 <= i < NDESC && UninterruptedPoll(s, t, h).status[i] != s.status[i] ==> s.status[i] == Ptr(h)
  }

  lemma {:induction false} ProperWhenOutstanding(s: State, t: Tid, h: Hid)
    requires Inv(s) && t < |s.threads| && s.lock == None && h < |s.handles|
    requires s.client[h] == Outstanding && PollAnswer(s, h) != -EAGAIN
    ensures Proper(s, t, h)
  {
    PollDoes(s, t, h);
    assert HandleInv(s, h) && SlotInv(s, s.handles[h].index);
  }

  /** Only the first report is news: a poll that answers with a result answers with one that no call
      has returned before, its handle's own, if and only if the completion of its handle has not
      been reported yet. */
  lemma {:induction false} ProperIffUnreported(run: seq<State>, acts: seq<Action>, n: nat, t: Tid, h: Hid)
    requires IsRun(run, acts) && n < |run| && run[n].lock == None
    requires t < |run[n].threads| && run[n].threads[t].pc == Idle
    requires h < |run[n].client| && (run[n].client[h] == Rest || run[n].client[h] == Outstanding)
    requires Shape(run[n]) && PollAnswer(run[n], h) != -EAGAIN
    ensures Proper(run[n], t, h) <==> run[n].client[h] == Outstanding
  {
    RunInv(run, acts, n);
    if run[n].client[h] == Outstanding {
      ProperWhenOutstanding(run[n], t, h);
    } else {
      RunSettled(run, acts, n);
      assert SettledAt(run[n], h);
    }
  }

  /** What a second poll does to others, when it finds a complete descriptor: nothing if and only if
      the slot is unmarked.  Otherwise it returns the code of the handle or of the post_wait that
      has the slot now, and takes away the mark that leads to it. */
  lemma {:induction false} SecondPoll(s: State, t: Tid, h: Hid)
    requires Inv(s) && t < |s.threads| && s.threads[t].pc == Idle && s.lock == None
    requires h < |s.handles| && s.client[h] == Rest
    requires s.handles[h].status == NO_RESULT && s.desc[s.handles[h].index].phase.Complete?
    ensures var i, s' := s.handles[h].index, UninterruptedPoll(s, t, h);
            var k := s.desc[i].phase.serial;
            && t < |s'.threads| && |s'.threads| == |s.threads| && Shape(s')
            && s'.threads[t].ret == PollAnswer(s, h) && Decided(s, k, PollAnswer(s, h))
            && (s'.status == s.status <==> s.status[i] == Free)
            && match s.status[i]
               case Free => true
               case Ptr(g) =>
                 g != h && s.serialOf[g] == k && s'.status[i] == Free
                 && s'.handles[g] == s.handles[g] == Handle(NO_RESULT, i)
               case Sync(u) =>
                 && u < |s.threads| && s.threads[u].serial == k && s'.status[i] == Free
                 && s'.threads[u] == s.threads[u] && (s.threads[u].pc == AwaitOwn || s.threads[u].pc == ClearOwn)
  {
    var i := s.handles[h].index;
    assert SlotInv(s, i);
    PollDoes(s, t, h);
    if s.status[i].Sync? { assert ThreadInv(s, s.status[i].owner); }
  }
}
