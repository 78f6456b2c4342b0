/** A run of the ring that ends where a second poll of a handle takes the result of another request. */
module DmaReuseRun {
  import opened Bytes
  import opened DmaRing
  import opened DmaRingInv
  import opened DmaRingTheorems
  import opened DmaReuse

  // ---- states that runs reach --------------------------------------------------------------

  ghost predicate Reached(s: State) {
    exists run, acts :: IsRun(run, acts) && run[|acts|] == s
  }

  lemma {:induction false} ReachedInv(s: State)
    requires Reached(s)
    ensures Inv(s)
  {
    var run, acts :| IsRun(run, acts) && run[|acts|] == s;
    RunInv(run, acts, |acts|);
  }

  lemma {:induction false} ReachedInitial(s: State)
    requires Initial(s)
    ensures Reached(s)
  {
    var run: seq<State>, acts: seq<Action> := [s], [];
    assert IsRun(run, acts) && run[|acts|] == s;
  }

  lemma {:induction false} Act(s: State, a: Action) returns (s': State)
    requires Reached(s) && Enabled(s, a)
    ensures s' == Apply(s, a) && Reached(s')
  {
    s' := Apply(s, a);
    var run, acts :| IsRun(run, acts) && run[|acts|] == s;
    var run', acts' := run + [s'], acts + [a];
    forall n | 0 <= n < |acts'| ensures StepAt(run', acts', n) {
      if n < |acts| { assert StepAt(run, acts, n); }
    }
    assert IsRun(run', acts') && run'[|acts'|] == s';
  }

  lemma {:induction false} Go(s: State, t: Tid) returns (s': State)
    requires Reached(s) && t < |s.threads|
    ensures Shape(s) && Fits(s.threads[t].op, s.threads[t].pc) && s' == Step(s, t) && Reached(s')
  {
    ReachedInv(s);
    assert ThreadInv(s, t);
    s' := Act(s, Run(t));
  }

  // ---- whole calls that nothing interrupts -------------------------------------------------

  /** The call, and the lock. */
  lemma {:induction false} Take(s: State, t: Tid, op: Op) returns (s': State)
    requires Reached(s) && s.lock == None && MayCall(s, t, op) && Shape(s)
    ensures Reached(s') && Shape(s')
    ensures var th := s.threads[t].(op := op, pc := if op.Poll? then LoadStatus else ReadIndex);
            s' == Enter(s, t, op).(lock := Some(t), threads := s.threads[t := th])
  {
    s' := Act(s, Call(t, op));
    s' := Go(s', t);
    ReachedInv(s');
  }

  /** From the call to the first write: the slot is unmarked. */
  lemma {:induction false} Begin(s: State, t: Tid, op: Op) returns (s': State)
    requires Reached(s) && s.lock == None && MayCall(s, t, op) && !op.Poll?
    requires Shape(s) && s.status[s.index] == Free
    ensures Reached(s')
    ensures s' == Enter(s, t, op).(lock := Some(t),
                                   threads := s.threads[t := s.threads[t].(op := op, pc := WriteDst, idx := s.index)])
  {
    s' := Take(s, t, op);
    s' := Go(s', t);
    s' := Go(s', t);
  }

  /** The descriptor is written. */
  lemma {:induction false} Write(s: State, t: Tid) returns (s': State)
    requires Reached(s) && t < |s.threads| && s.threads[t].pc == WriteDst && !s.threads[t].op.Poll? && Shape(s)
    ensures Reached(s')
    ensures var th := s.threads[t];
            var req := RequestOf(th.op);
            s' == s.(desc := s.desc[th.idx := Desc(req.dst, req.src, ControlWord(req.size), s.desc[th.idx].phase)],
                     threads := s.threads[t := th.(pc := Start)])
  {
    s' := Go(s, t);
    s' := Go(s', t);
    s' := Go(s', t);
  }

  /** The descriptor is written and started. */
  lemma {:induction false} Fill(s: State, t: Tid) returns (s': State)
    requires Reached(s) && t < |s.threads| && s.threads[t].pc == WriteDst && !s.threads[t].op.Poll? && Shape(s)
    ensures Reached(s')
    ensures var th, k := s.threads[t], |s.started|;
            var req := RequestOf(th.op);
            s' == s.(desc := s.desc[th.idx := Desc(req.dst, req.src, ControlWord(req.size), Running(k))],
                     started := s.started + [Started(req, OwnerOf(t, th.op))],
                     serialOf := if th.op.Post? then s.serialOf[th.op.h := k] else s.serialOf,
                     threads := s.threads[t := th.(serial := k, pc := if th.op.Post? then InitStatus else SetStatus)])
  {
    s' := Write(s, t);
    s' := Go(s', t);
  }

  /** A post fills in its handle and marks the slot. */
  lemma {:induction false} Name(s: State, t: Tid) returns (s': State)
    requires Reached(s) && t < |s.threads| && s.threads[t].pc == InitStatus && s.threads[t].op.Post? && Shape(s)
    ensures Reached(s')
    ensures var th, h, i := s.threads[t], s.threads[t].op.h, s.threads[t].idx;
            s' == s.(handles := s.handles[h := Handle(NO_RESULT, i)], status := s.status[i := Ptr(h)],
                     threads := s.threads[t := th.(pc := BumpIndex)])
  {
    s' := Go(s, t);
    s' := Go(s', t);
    s' := Go(s', t);
  }

  /** The rest of a post. */
  lemma {:induction false} Mark(s: State, t: Tid) returns (s': State)
    requires Reached(s) && t < |s.threads| && s.threads[t].pc == InitStatus && s.threads[t].op.Post? && Shape(s)
    ensures Reached(s')
    ensures var th, h, i := s.threads[t], s.threads[t].op.h, s.threads[t].idx;
            s' == s.(handles := s.handles[h := Handle(NO_RESULT, i)], status := s.status[i := Ptr(h)],
                     index := (i + 1) % NDESC, lock := None, client := s.client[h := Outstanding],
                     threads := s.threads[t := th.(ret := 0, pc := Idle)])
  {
    s' := Name(s, t);
    s' := Go(s', t);
    s' := Go(s', t);
    s' := Go(s', t);
  }

  /** A post_wait up to the point where it waits without the lock. */
  lemma {:induction false} MarkSync(s: State, t: Tid) returns (s': State)
    requires Reached(s) && t < |s.threads| && s.threads[t].pc == SetStatus && s.threads[t].op.PostWait? && Shape(s)
    ensures Reached(s')
    ensures var th, i := s.threads[t], s.threads[t].idx;
            s' == s.(status := s.status[i := Sync(t)], index := (i + 1) % NDESC, lock := None,
                     threads := s.threads[t := th.(ret := 0, pc := AwaitOwn)])
  {
    s' := Go(s, t);
    s' := Go(s', t);
    s' := Go(s', t);
  }

  /** The rest of a post_wait whose descriptor is complete. */
  lemma {:induction false} Leave(s: State, t: Tid) returns (s': State)
    requires Reached(s) && t < |s.threads| && s.threads[t].pc == AwaitOwn && s.threads[t].op.PostWait? && Shape(s)
    requires s.desc[s.threads[t].idx].phase.Complete?
    ensures Reached(s') && |s'.threads| == |s.threads| && s'.threads[t].pc == Idle
    ensures var th, i := s.threads[t], s.threads[t].idx;
            s' == s.(status := s.status[i := Free], seen := s'.seen, reported := s'.reported,
                     threads := s.threads[t := s'.threads[t]])
  {
    s' := Go(s, t);
    s' := Go(s', t);
    s' := Go(s', t);
  }

  /** A poll up to its look at the descriptor. */
  lemma {:induction false} PollLoads(s: State, t: Tid, h: Hid) returns (s': State)
    requires Reached(s) && s.lock == None && MayCall(s, t, Poll(h)) && Shape(s)
    requires s.handles[h].status == NO_RESULT
    ensures Reached(s') && Shape(s')
    ensures s' == s.(lock := Some(t), client := s.client[h := Polling(t)],
                     threads := s.threads[t := s.threads[t].(op := Poll(h), idx := s.handles[h].index, pc := CheckOwn)])
  {
    s' := Take(s, t, Poll(h));
    s' := Go(s', t);
    s' := Go(s', t);
    ReachedInv(s');
  }

  /** A poll up to the point where it has found the completion itself. */
  lemma {:induction false} PollReads(s: State, t: Tid, h: Hid) returns (s': State)
    requires Reached(s) && s.lock == None && MayCall(s, t, Poll(h)) && Shape(s)
    requires s.handles[h].status == NO_RESULT && s.desc[s.handles[h].index].phase.Complete?
    ensures Reached(s') && Shape(s') && |s'.threads| == |s.threads|
    ensures s'.threads[t].pc == ClearPolled && s'.threads[t].op == Poll(h) && s'.threads[t].idx == s.handles[h].index
    ensures 0 <= s'.threads[t].word
    ensures s' == s.(lock := Some(t), seen := s'.seen, client := s.client[h := Polling(t)],
                     threads := s.threads[t := s'.threads[t]])
  {
    s' := PollLoads(s, t, h);
    s' := Go(s', t);
    ReachedInv(s');
  }

  /** A poll that finds the completion itself. */
  lemma {:induction false} PollFinds(s: State, t: Tid, h: Hid) returns (s': State)
    requires Reached(s) && s.lock == None && MayCall(s, t, Poll(h)) && Shape(s)
    requires s.handles[h].status == NO_RESULT && s.desc[s.handles[h].index].phase.Complete?
    ensures Reached(s') && |s'.threads| == |s.threads| && s'.threads[t].pc == Idle
    ensures s' == s.(status := s.status[s.handles[h].index := Free], seen := s'.seen, reported := s'.reported,
                     client := s.client[h := Rest], threads := s.threads[t := s'.threads[t]])
  {
    s' := PollReads(s, t, h);
    s' := Go(s', t);
    s' := Go(s', t);
    s' := Go(s', t);
  }

  // ---- the run -----------------------------------------------------------------------------

  const REQUEST: Request := Request(0, 0, 4)

  /** Two threads and two handles at rest, no slot marked, `n` requests started.  The first of them
      was posted with handle 0, completed with code 0, and reported by a poll of handle 0. */
  ghost predicate Scene(s: State, n: nat) {
    && Reached(s) && Shape(s) && s.lock == None && |s.threads| >= 2 && |s.handles| >= 2
    && s.threads[0].pc == Idle && s.threads[1].pc == Idle
    && |s.started| == n && (forall i :: 0 <= i < NDESC ==> s.status[i] == Free)
    && s.client[0] == Rest && s.client[1] == Rest && s.handles[0] == Handle(NO_RESULT, 0)
    && s.serialOf[0] == 0 && Decided(s, 0, 0)
  }

  /** An unmarked ring's index counts its requests. */
  lemma {:induction false} IndexCounts(s: State)
    requires Reached(s) && s.lock == None
    ensures s.index == |s.started| % NDESC
  {
    ReachedInv(s);
  }

  /** A request of thread `t` up to the start of its descriptor, while no slot is marked. */
  lemma {:induction false} Launch(s: State, t: Tid, op: Op) returns (s': State)
    requires Reached(s) && Shape(s) && s.lock == None && MayCall(s, t, op) && !op.Poll? && RequestOf(op) == REQUEST
    requires forall i :: 0 <= i < NDESC ==> s.status[i] == Free
    ensures Reached(s') && Shape(s')
    ensures var k, i := |s.started|, s.index;
            s' == Enter(s, t, op).(
                    lock := Some(t), started := s.started + [Started(REQUEST, OwnerOf(t, op))],
                    serialOf := if op.Post? then s.serialOf[op.h := k] else s.serialOf,
                    desc := s.desc[i := Desc(0, 0, ControlWord(4), Running(k))],
                    threads := s.threads[t := s.threads[t].(op := op, idx := i, serial := k,
                                                            pc := if op.Post? then InitStatus else SetStatus)])
  {
    s' := Begin(s, t, op);
    ReachedInv(s');
    s' := Fill(s', t);
    ReachedInv(s');
  }

  /** A post by thread 0 while no slot is marked. */
  lemma {:induction false} WholePost(s: State, h: Hid) returns (s': State)
    requires Reached(s) && Shape(s) && s.lock == None && MayCall(s, 0, Post(h, REQUEST))
    requires forall i :: 0 <= i < NDESC ==> s.status[i] == Free
    ensures Reached(s')
    ensures var k, i := |s.started|, s.index;
            s' == s.(handles := s.handles[h := Handle(NO_RESULT, i)], status := s.status[i := Ptr(h)],
                     index := (i + 1) % NDESC, client := s.client[h := Outstanding], serialOf := s.serialOf[h := k],
                     started := s.started + [Started(REQUEST, ByHandle(h))],
                     desc := s.desc[i := Desc(0, 0, ControlWord(4), Running(k))],
                     threads := s.threads[0 := s.threads[0].(op := Post(h, REQUEST), idx := i, serial := k, ret := 0)])
  {
    s' := Launch(s, 0, Post(h, REQUEST));
    s' := Mark(s', 0);
  }

  /** The same, and its completion with code `e`. */
  lemma {:induction false} PostAndFinish(s: State, h: Hid, e: nat) returns (s': State)
    requires Reached(s) && Shape(s) && s.lock == None && MayCall(s, 0, Post(h, REQUEST)) && e < 0x1_0000
    requires forall i :: 0 <= i < NDESC ==> s.status[i] == Free
    ensures Reached(s')
    ensures var k := |s.started|;
            var i := s.index;
            && s'.lock == None && s'.started == s.started + [Started(REQUEST, ByHandle(h))]
            && s'.handles == s.handles[h := Handle(NO_RESULT, i)] && s'.status == s.status[i := Ptr(h)]
            && s'.client == s.client[h := Outstanding] && s'.serialOf == s.serialOf[h := k]
            && s'.outcome == s.outcome[k := e] && |s'.desc| == NDESC && s'.desc[i].phase == Complete(k, e)
            && |s'.threads| == |s.threads| && s'.threads[0].pc == Idle
            && forall u :: 0 < u < |s.threads| ==> s'.threads[u] == s.threads[u]
  {
    s' := WholePost(s, h);
    ReachedInv(s');
    s' := Act(s', Hardware(s.index, e));
  }

  /** The first request is posted with handle 0, completed, and reported. */
  lemma {:induction false} FirstRequest(s: State) returns (s': State)
    requires Initial(s) && |s.threads| >= 2 && |s.handles| >= 2
    ensures Scene(s', 1)
  {
    ReachedInitial(s);
    s' := PostAndFinish(s, 0, 0);
    ReachedInv(s');
    s' := PollFinds(s', 0, 0);
    ReachedInv(s');
  }

  /** A post_wait of thread `t` up to where it waits without the lock. */
  lemma {:induction false} WholeWait(s: State, t: Tid) returns (s': State)
    requires Reached(s) && Shape(s) && s.lock == None && MayCall(s, t, PostWait(REQUEST))
    requires forall i :: 0 <= i < NDESC ==> s.status[i] == Free
    ensures Reached(s')
    ensures var k, i := |s.started|, s.index;
            s' == s.(status := s.status[i := Sync(t)], index := (i + 1) % NDESC,
                     started := s.started + [Started(REQUEST, ByThread(t))],
                     desc := s.desc[i := Desc(0, 0, ControlWord(4), Running(k))],
                     threads := s.threads[t := s.threads[t].(op := PostWait(REQUEST), pc := AwaitOwn, idx := i,
                                                             serial := k, ret := 0)])
  {
    s' := Launch(s, t, PostWait(REQUEST));
    s' := MarkSync(s', t);
  }

  /** Thread `t` has a post_wait complete with code `e`, and waits without the lock. */
  lemma {:induction false} WaitAndFinish(s: State, t: Tid, e: nat) returns (s': State)
    requires Reached(s) && Shape(s) && s.lock == None && MayCall(s, t, PostWait(REQUEST)) && e < 0x1_0000
    requires forall i :: 0 <= i < NDESC ==> s.status[i] == Free
    ensures Reached(s')
    ensures var k := |s.started|;
            var i := s.index;
            && s'.lock == None && s'.started == s.started + [Started(REQUEST, ByThread(t))]
            && s'.handles == s.handles && s'.status == s.status[i := Sync(t)]
            && s'.client == s.client && s'.serialOf == s.serialOf
            && s'.outcome == s.outcome[k := e] && |s'.desc| == NDESC && s'.desc[i].phase == Complete(k, e)
            && |s'.threads| == |s.threads|
            && s'.threads[t] == s.threads[t].(op := PostWait(REQUEST), pc := AwaitOwn, idx := i, serial := k, ret := 0)
            && forall u :: 0 <= u < |s.threads| && u != t ==> s'.threads[u] == s.threads[u]
  {
    s' := WholeWait(s, t);
    ReachedInv(s');
    s' := Act(s', Hardware(s.index, e));
  }

  /** One more request comes and goes. */
  lemma {:induction false} OneMore(s: State, n: nat) returns (s': State)
    requires Scene(s, n) && n > 0
    ensures Scene(s', n + 1)
  {
    IndexCounts(s);
    s' := WaitAndFinish(s, 0, 0);
    ReachedInv(s');
    s' := Leave(s', 0);
    ReachedInv(s');
  }

  lemma {:induction false} ManyMore(s: State, n: nat) returns (s': State)
    requires Scene(s, 1) && n > 0
    ensures Scene(s', n)
    decreases n
  {
    if n == 1 {
      s' := s;
    } else {
      s' := ManyMore(s, n - 1);
      s' := OneMore(s', n - 1);
    }
  }

  /** Handle 1 waits for request 128, which is complete, in the slot that handle 0 still names. */
  lemma {:induction false} HandleInTheSameSlot(s0: State) returns (s: State)
    requires Initial(s0) && |s0.threads| >= 2 && |s0.handles| >= 2
    ensures Reached(s) && Inv(s) && s.lock == None && |s.threads| >= 2 && s.threads[0].pc == Idle && |s.handles| >= 2
    ensures s.client[0] == Rest && s.handles[0] == Handle(NO_RESULT, 0) && Decided(s, s.serialOf[0], 0)
    ensures |s.started| == s.serialOf[0] + NDESC + 1
    ensures s.client[1] == Outstanding && s.handles[1] == Handle(NO_RESULT, 0) && s.status[0] == Ptr(1)
    ensures s.desc[0].phase == Complete(s.serialOf[1], 1) && Decided(s, s.serialOf[1], 1)
  {
    s := FirstRequest(s0);
    s := ManyMore(s, NDESC);
    IndexCounts(s);
    s := PostAndFinish(s, 1, 1);
    ReachedInv(s);
  }

  /** From every initial state with two threads and two handles a run leads to a state where handle
      0 is at rest, its request's code was 0, and handle 1 has its slot, with the first request that
      comes too late for handle 0 (128 after its own): a second poll of handle 0
      returns 1, the code of handle 1's request, and unmarks the slot that handle 1 is found by. */
  lemma {:induction false} SecondPollStealsFromAHandle(s0: State) returns (s: State)
    requires Initial(s0) && |s0.threads| >= 2 && |s0.handles| >= 2
    ensures Reached(s) && Inv(s) && s.lock == None && |s.threads| >= 2 && s.threads[0].pc == Idle && |s.handles| >= 2
    ensures s.client[0] == Rest && Decided(s, s.serialOf[0], 0)
    ensures |s.started| == s.serialOf[0] + NDESC + 1
    ensures s.client[1] == Outstanding && Decided(s, s.serialOf[1], 1) && s.handles[1].status == NO_RESULT
    ensures var s' := UninterruptedPoll(s, 0, 0);
            && |s'.threads| >= 2 && s'.threads[0].ret == 1
            && s.status[s.handles[1].index] == Ptr(1) && |s'.status| == NDESC && s'.status[s.handles[1].index] == Free
  {
    s := HandleInTheSameSlot(s0);
    PollDoes(s, 0, 0);
  }

  /** Thread 1 waits for request 128, which is complete, in the slot that handle 0 still names. */
  lemma {:induction false} WaitInTheSameSlot(s0: State) returns (s: State)
    requires Initial(s0) && |s0.threads| >= 2 && |s0.handles| >= 2
    ensures Reached(s) && Inv(s) && s.lock == None && |s.threads| >= 2 && s.threads[0].pc == Idle && |s.handles| >= 2
    ensures s.client[0] == Rest && s.handles[0] == Handle(NO_RESULT, 0) && Decided(s, s.serialOf[0], 0)
    ensures |s.started| == s.serialOf[0] + NDESC + 1
    ensures s.threads[1].pc == AwaitOwn && s.threads[1].op.PostWait? && s.threads[1].idx == 0
    ensures s.status[0] == Sync(1) && s.desc[0].phase == Complete(s.threads[1].serial, 1)
  {
    s := FirstRequest(s0);
    s := ManyMore(s, NDESC);
    IndexCounts(s);
    s := WaitAndFinish(s, 1, 1);
    ReachedInv(s);
  }

  /** Or a post_wait of thread 1 has the slot: it loses its mark while it still waits. */
  lemma {:induction false} SecondPollStealsFromAPostWait(s0: State) returns (s: State)
    requires Initial(s0) && |s0.threads| >= 2 && |s0.handles| >= 2
    ensures Reached(s) && Inv(s) && s.lock == None && |s.threads| >= 2 && s.threads[0].pc == Idle && |s.handles| >= 2
    ensures s.client[0] == Rest && Decided(s, s.serialOf[0], 0)
    ensures |s.started| == s.serialOf[0] + NDESC + 1
    ensures s.threads[1].pc == AwaitOwn && s.threads[1].op.PostWait? && Decided(s, s.threads[1].serial, 1)
    ensures var s', i := UninterruptedPoll(s, 0, 0), s.threads[1].idx;
            && |s'.threads| >= 2 && s'.threads[0].ret == 1 && s'.threads[1] == s.threads[1]
            && s.status[i] == Sync(1) && |s'.status| == NDESC && s'.status[i] == Free
  {
    s := WaitInTheSameSlot(s0);
    assert SlotInv(s, 0);
    PollDoes(s, 0, 0);
  }

  /** There is such an initial state. */
  lemma {:induction false} SomeInitialState() returns (s: State)
    ensures Initial(s) && |s.threads| == 2 && |s.handles| == 2
  {
    var th := Thread(PostWait(REQUEST), Idle, 0, 0, 0, 0);
    s := State(None, 0, seq(NDESC, _ => Free), seq(NDESC, _ => Desc(0, 0, 0, Unused)),
               [Handle(0, 0), Handle(0, 0)], [th, th], [Rest, Rest], [0, 0], [], map[], {}, map[]);
  }
}
