/** Polling a handle again after its completion was reported: exactly how long it may be done. */
module DmaRecall {
  import opened Bytes
  import opened DmaRing
  import opened DmaRingInv
  import opened DmaRingTheorems
  import opened DmaRequests
  import opened DmaReuse

  // ---- what a handle remembers of its last request -----------------------------------------

  /** The handle's serial is that of a request posted with it. */
  ghost predicate WasPosted(s: State, h: Hid)
    requires Shape(s) && h < |s.handles|
  {
    s.serialOf[h] < |s.started| && s.started[s.serialOf[h]].owner == ByHandle(h)
  }

  /** The handle holds the code of its last request, or the number of the slot it was started in. */
  ghost predicate Recalls(s: State, h: Hid)
    requires Shape(s) && h < |s.handles|
  {
    WasPosted(s, h) ==>
      if s.handles[h].status == NO_RESULT then s.handles[h].index == s.serialOf[h] % NDESC
      else Decided(s, s.serialOf[h], s.handles[h].status)
  }

  /** So it does, unless its post has started the request and is still to fill the handle in. */
  ghost predicate RecallAt(s: State, h: Hid)
    requires Shape(s) && h < |s.handles|
  {
    match s.client[h]
    case Posting(t) => t < |s.threads| && (HasStarted(s.threads[t]) || Recalls(s, h))
    case _ => Recalls(s, h)
  }

  ghost predicate AllRecall(s: State) {
    Shape(s) && forall h :: 0 <= h < |s.handles| ==> RecallAt(s, h)
  }

  lemma {:induction false} PendingRecalls(s: State, h: Hid)
    requires Inv(s) && h < |s.handles| && Pending(s, h)
    ensures Recalls(s, h)
  {
    if s.handles[h].status == NO_RESULT { assert SlotInv(s, s.handles[h].index); }
  }

  /** Nothing the handle's memory depends on is changed. */
  ghost predicate Kept(s: State, s': State, h: Hid)
    requires Shape(s) && h < |s.handles|
  {
    && Shape(s') && |s'.handles| == |s.handles| && s'.handles[h] == s.handles[h] && s'.serialOf[h] == s.serialOf[h]
    && s.started <= s'.started
    && (forall k :: |s.started| <= k < |s'.started| ==> s'.started[k].owner != ByHandle(h))
    && (forall k :: k in s.outcome ==> Decided(s', k, s.outcome[k]))
  }

  lemma {:induction false} KeptRecalls(s: State, s': State, h: Hid)
    requires Shape(s) && h < |s.handles| && Recalls(s, h) && Kept(s, s', h)
    ensures Recalls(s', h)
  {
  }

  // ---- the steps ---------------------------------------------------------------------------

  /** What thread `t` does next writes to handle `h`. */
  ghost predicate WritesHandle(s: State, t: Tid, h: Hid)
    requires Shape(s) && t < |s.threads|
  {
    var th := s.threads[t];
    || (th.pc == SavePrev && s.status[th.idx] == Ptr(h))
    || ((th.pc == InitStatus || th.pc == InitIndex) && th.op.Post? && th.op.h == h)
  }

  lemma {:induction false} InnerKeeps(s: State, t: Tid, h: Hid)
    requires Shape(s) && t < |s.threads| && Fits(s.threads[t].op, s.threads[t].pc) && h < |s.handles|
    requires s.threads[t].pc != Start && s.threads[t].pc != Return && !WritesHandle(s, t, h)
    ensures Step(s, t).outcome == s.outcome && |Step(s, t).handles| == |s.handles|
    ensures Step(s, t).handles[h] == s.handles[h]
  {
    match s.threads[t].pc
    case Lock => assert Step(s, t) == DoLock(s, t);
    case CheckStatus => assert Step(s, t) == DoCheckStatus(s, t);
    case CheckPrev => assert Step(s, t) == DoCheckPrev(s, t);
    case SavePrev => assert Step(s, t) == DoSavePrev(s, t);
    case AwaitOwn => assert Step(s, t) == DoAwaitOwn(s, t);
    case CheckOwn => assert Step(s, t) == DoCheckOwn(s, t);
    case _ =>
  }

  /** A handle that is at rest, or in a poll that has its result, or in a post that has started
      nothing yet: no slot points to it and nobody writes to it. */
  ghost predicate Quiet(s: State, h: Hid)
    requires Shape(s) && h < |s.handles|
  {
    match s.client[h]
    case Rest => true
    case Outstanding => false
    case Posting(t) => t < |s.threads| && !HasStarted(s.threads[t])
    case Polling(t) => t < |s.threads| && HasResult(s.threads[t])
  }

  /** All other handles recall by the invariant. */
  lemma {:induction false} QuietOrPending(s: State, h: Hid)
    requires Inv(s) && h < |s.handles| && (Quiet(s, h) ==> Recalls(s, h))
    ensures RecallAt(s, h)
  {
    assert HandleInv(s, h);
    match s.client[h]
    case Rest =>
    case Outstanding => PendingRecalls(s, h);
    case Posting(t) =>
    case Polling(t) => if !HasResult(s.threads[t]) { PendingRecalls(s, h); }
  }

  lemma {:induction false} QuietIsUntouched(s: State, t: Tid, h: Hid)
    requires Inv(s) && t < |s.threads| && h < |s.handles| && Fits(s.threads[t].op, s.threads[t].pc)
    requires s.threads[t].pc != Start && s.threads[t].pc != Return
    requires Shape(Step(s, t)) && |Step(s, t).handles| == |s.handles| && Quiet(Step(s, t), h)
    ensures !WritesHandle(s, t, h)
  {
    InnerStep(s, t);
    assert ThreadInv(s, t) && SlotInv(s, s.threads[t].idx);
  }

  lemma {:induction false} InnerQuiet(s: State, t: Tid, h: Hid)
    requires Inv(s) && t < |s.threads| && h < |s.handles| && Fits(s.threads[t].op, s.threads[t].pc)
    requires s.threads[t].pc != Start && s.threads[t].pc != Return
    requires Shape(Step(s, t)) && |Step(s, t).handles| == |s.handles| && Quiet(Step(s, t), h) && RecallAt(s, h)
    ensures Recalls(Step(s, t), h)
  {
    InnerStep(s, t);
    assert ThreadInv(s, t) && HandleInv(s, h);
    if s.client[h] == Posting(t) { OwnStep(s, t); }
    QuietIsUntouched(s, t, h);
    InnerKeeps(s, t, h);
    KeptRecalls(s, Step(s, t), h);
  }

  lemma {:induction false} StartQuiet(s: State, t: Tid, h: Hid)
    requires Inv(s) && t < |s.threads| && h < |s.handles| && s.threads[t].pc == Start && !s.threads[t].op.Poll?
    requires Shape(DoStart(s, t)) && Quiet(DoStart(s, t), h) && RecallAt(s, h)
    ensures Recalls(DoStart(s, t), h)
  {
    assert ThreadInv(s, t) && HandleInv(s, h);
    KeptRecalls(s, DoStart(s, t), h);
  }

  lemma {:induction false} ReturnQuiet(s: State, t: Tid, h: Hid)
    requires Inv(s) && t < |s.threads| && h < |s.handles| && s.threads[t].pc == Return
    requires Shape(DoReturn(s, t)) && Quiet(DoReturn(s, t), h) && RecallAt(s, h)
    ensures Recalls(DoReturn(s, t), h)
  {
    assert ThreadInv(s, t) && HandleInv(s, h);
    KeptRecalls(s, DoReturn(s, t), h);
  }

  lemma {:induction false} CallQuiet(s: State, t: Tid, op: Op, h: Hid)
    requires Inv(s) && MayCall(s, t, op) && h < |s.handles|
    requires Shape(Enter(s, t, op)) && Quiet(Enter(s, t, op), h) && RecallAt(s, h)
    ensures Recalls(Enter(s, t, op), h)
  {
    assert HandleInv(s, h);
    KeptRecalls(s, Enter(s, t, op), h);
  }

  lemma {:induction false} FinishQuiet(s: State, i: Slot, e: nat, h: Hid)
    requires Inv(s) && s.desc[i].phase.Running? && h < |s.handles|
    requires Shape(Finish(s, i, e)) && Quiet(Finish(s, i, e), h) && RecallAt(s, h)
    ensures Recalls(Finish(s, i, e), h)
  {
    assert SlotInv(s, i);
    KeptRecalls(s, Finish(s, i, e), h);
  }

  lemma {:induction false} ApplyQuiet(s: State, a: Action, h: Hid)
    requires Inv(s) && Enabled(s, a) && h < |s.handles| && RecallAt(s, h)
    requires Shape(Apply(s, a)) && |Apply(s, a).handles| == |s.handles| && Quiet(Apply(s, a), h)
    ensures Recalls(Apply(s, a), h)
  {
    match a
    case Call(t, op) => CallQuiet(s, t, op, h);
    case Hardware(i, e) => FinishQuiet(s, i, e, h);
    case Run(t) =>
      match s.threads[t].pc
      case Start => StartQuiet(s, t, h);
      case Return => ReturnQuiet(s, t, h);
      case _ => InnerQuiet(s, t, h);
  }

  lemma {:induction false} ApplyRecalls(s: State, a: Action)
    requires Inv(s) && Enabled(s, a) && AllRecall(s)
    ensures AllRecall(Apply(s, a))
  {
    InvApply(s, a);
    ApplyKeepsHandles(s, a);
    forall h | 0 <= h < |s.handles| ensures RecallAt(Apply(s, a), h) {
      assert RecallAt(s, h);
      if Quiet(Apply(s, a), h) { ApplyQuiet(s, a, h); }
      QuietOrPending(Apply(s, a), h);
    }
  }

  lemma {:induction false} InitialRecalls(s: State)
    requires Initial(s)
    ensures AllRecall(s)
  {
  }

  /** In every state of every run a handle that is not being posted knows the code of the request
      last posted with it, or its slot. */
  lemma {:induction false} RunRecalls(run: seq<State>, acts: seq<Action>, n: nat)
    requires IsRun(run, acts) && n < |run|
    ensures AllRecall(run[n])
    decreases n
  {
    if n == 0 {
      InitialRecalls(run[0]);
    } else {
      RunRecalls(run, acts, n - 1);
      RunInv(run, acts, n - 1);
      RunStep(run, acts, n - 1);
      ApplyRecalls(run[n - 1], acts[n - 1]);
    }
  }

  // ---- whose answer a second poll gives ----------------------------------------------------

  /** A poll of `h` finds the result of the request last posted with it: the code that the handle
      holds, or else the completion that its slot holds. */
  ghost predicate FindsOwn(s: State, h: Hid)
    requires Shape(s) && h < |s.handles|
  {
    var hd := s.handles[h];
    if hd.status != NO_RESULT then Decided(s, s.serialOf[h], hd.status)
    else s.desc[hd.index].phase.Complete? && s.desc[hd.index].phase.serial == s.serialOf[h]
  }

  /** The result is stored, or fewer than 128 requests have been started since. */
  ghost predicate InTime(s: State, h: Hid)
    requires Shape(s) && h < |s.handles|
  {
    s.handles[h].status != NO_RESULT || |s.started| <= s.serialOf[h] + NDESC
  }

  /** Two numbers of the last 128 with the same remainder are the same. */
  lemma {:induction false} OneOfTheLast(j: nat, k: nat, n: nat)
    requires j < n <= j + NDESC && k < n <= k + NDESC && j % NDESC == k % NDESC
    ensures j == k
  {
  }

  /** The slot that a handle without a result names holds its own request as long as it is in time,
      and afterwards the newest request of that slot. */
  lemma {:induction false} SlotHolds(s: State, h: Hid)
    requires Inv(s) && h < |s.handles| && WasPosted(s, h) && Recalls(s, h) && s.handles[h].status == NO_RESULT
    ensures var k := s.serialOf[h];
            var p := s.desc[k % NDESC].phase;
            && s.handles[h].index == k % NDESC && p != Unused
            && (InTime(s, h) <==> p.serial == k)
            && (!InTime(s, h) ==> k + NDESC <= p.serial < |s.started| <= p.serial + NDESC
                                  && p.serial % NDESC == k % NDESC)
  {
    var k := s.serialOf[h];
    assert SlotInv(s, k % NDESC);
    var p := s.desc[k % NDESC].phase;
    if InTime(s, h) { OneOfTheLast(k, p.serial, |s.started|); } else { Later(k, p.serial); }
  }

  lemma {:induction false} Later(j: nat, k: nat)
    requires j < k && j % NDESC == k % NDESC
    ensures j + NDESC <= k
  {
  }

  /** A mark leads to a request that no call has reported yet. */
  lemma {:induction false} MarkedIsUnreported(s: State, i: Slot)
    requires Inv(s) && s.lock == None && s.status[i] != Free
    ensures s.desc[i].phase != Unused && s.desc[i].phase.serial !in s.reported
  {
    assert SlotInv(s, i);
    match s.status[i]
    case Ptr(g) => assert HandleInv(s, g);
    case Sync(u) => assert ThreadInv(s, u);
  }

  /** What the poll finds in time, and that the slot, if it looks there, is unmarked. */
  lemma {:induction false} InTimeFindsOwn(s: State, h: Hid)
    requires Inv(s) && s.lock == None && h < |s.handles| && s.client[h] == Rest && WasPosted(s, h)
    requires Recalls(s, h) && SettledAt(s, h) && InTime(s, h)
    ensures FindsOwn(s, h) && Decided(s, s.serialOf[h], PollAnswer(s, h))
    ensures s.handles[h].status == NO_RESULT ==> s.status[s.handles[h].index] == Free
  {
    if s.handles[h].status == NO_RESULT {
      var i := s.handles[h].index;
      SlotHolds(s, h);
      assert SlotInv(s, i);
      if s.status[i] != Free { MarkedIsUnreported(s, i); }
    }
  }

  /** A poll of a handle at rest, in any state of any run, answers with the result of the request
      last posted with the handle if and only if that result is stored or fewer than 128 requests
      have been started since.  Then it changes no mark. */
  lemma {:induction false} OwnAnswerIffInTime(run: seq<State>, acts: seq<Action>, n: nat, t: Tid, h: Hid)
    requires IsRun(run, acts) && n < |run| && t < |run[n].threads| && h < |run[n].client|
    requires run[n].lock == None && run[n].client[h] == Rest
    requires Shape(run[n]) && WasPosted(run[n], h)
    ensures FindsOwn(run[n], h) <==> InTime(run[n], h)
    ensures InTime(run[n], h) ==> Decided(run[n], run[n].serialOf[h], PollAnswer(run[n], h))
                                  && UninterruptedPoll(run[n], t, h).status == run[n].status
    ensures t < |UninterruptedPoll(run[n], t, h).threads|
            && UninterruptedPoll(run[n], t, h).threads[t].ret == PollAnswer(run[n], h)
  {
    var s := run[n];
    RunInv(run, acts, n);
    RunSettled(run, acts, n);
    RunRecalls(run, acts, n);
    assert SettledAt(s, h) && RecallAt(s, h);
    PollDoes(s, t, h);
    if InTime(s, h) {
      InTimeFindsOwn(s, h);
      assert s.status[s.handles[h].index] == Free ==> s.status[s.handles[h].index := Free] == s.status;
    } else {
      SlotHolds(s, h);
    }
  }

  /** Afterwards the poll looks at a newer request, at least 128 later: it answers with that one's
      code once the hardware is done with it, and -EAGAIN before. */
  lemma {:induction false} LateAnswer(run: seq<State>, acts: seq<Action>, n: nat, h: Hid)
    requires IsRun(run, acts) && n < |run| && h < |run[n].client| && run[n].client[h] == Rest
    requires Shape(run[n]) && WasPosted(run[n], h) && !InTime(run[n], h)
    ensures var s, j := run[n], run[n].serialOf[h];
            exists k :: j + NDESC <= k < |s.started| <= k + NDESC && k % NDESC == j % NDESC
                        && if k in s.outcome then PollAnswer(s, h) == s.outcome[k] else PollAnswer(s, h) == -EAGAIN
  {
    RunInv(run, acts, n);
    RunRecalls(run, acts, n);
    assert RecallAt(run[n], h);
    SlotHolds(run[n], h);
    assert SlotInv(run[n], run[n].handles[h].index);
  }

  /** A handle whose completion has not been reported is always in time. */
  lemma {:induction false} OutstandingIsInTime(run: seq<State>, acts: seq<Action>, n: nat, h: Hid)
    requires IsRun(run, acts) && n < |run| && h < |run[n].client| && run[n].client[h] == Outstanding
    ensures Shape(run[n]) && WasPosted(run[n], h) && InTime(run[n], h)
  {
    RunInv(run, acts, n);
    assert HandleInv(run[n], h) && SlotInv(run[n], run[n].handles[h].index);
  }
}
