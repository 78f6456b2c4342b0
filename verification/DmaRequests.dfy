/** The requests of the descriptor ring, from their start until their completion has been seen. */
module DmaRequests {
  import opened Bytes
  import opened DmaRing
  import opened DmaRingInv
  import opened DmaRingTheorems

  /** Descriptor `k % 128` is request `k`'s. */
  ghost predicate Holds(s: State, k: nat)
    requires Shape(s)
  {
    s.desc[k % NDESC].phase != Unused && s.desc[k % NDESC].phase.serial == k
  }

  /** No request is overwritten before its completion has been seen. */
  ghost predicate AllHeld(s: State) {
    Shape(s) && forall k :: 0 <= k < |s.started| && k !in s.seen ==> Holds(s, k)
  }

  /** A descriptor that is about to be started holds nothing, or a request that has been seen. */
  lemma {:induction false} StartIsFree(s: State, t: Tid)
    requires Inv(s) && t < |s.threads| && s.threads[t].pc == Start
    ensures s.threads[t].idx == |s.started| % NDESC
    ensures var d := s.desc[s.threads[t].idx]; d.phase == Unused || d.phase.serial in s.seen
  {
    assert ThreadInv(s, t) && SlotInv(s, s.threads[t].idx);
  }

  /** The start of a request takes the place of one whose completion has been seen. */
  lemma {:induction false} StartKeepsHeld(s: State, t: Tid)
    requires Inv(s) && AllHeld(s) && t < |s.threads| && s.threads[t].pc == Start && !s.threads[t].op.Poll?
    ensures AllHeld(DoStart(s, t))
  {
    var s' := DoStart(s, t);
    StartIsFree(s, t);
    forall k | 0 <= k < |s'.started| && k !in s'.seen ensures Holds(s', k) {
      if k < |s.started| { assert Holds(s, k); }
    }
  }

  /** No other step of a thread touches a phase or starts anything. */
  lemma {:induction false} OtherSteps(s: State, t: Tid)
    requires Shape(s) && t < |s.threads| && Fits(s.threads[t].op, s.threads[t].pc) && s.threads[t].pc != Start
    ensures Shape(s) && Step(s, t).started == s.started && s.seen <= Step(s, t).seen
    ensures |Step(s, t).desc| == NDESC && forall i :: 0 <= i < NDESC ==> Step(s, t).desc[i].phase == s.desc[i].phase
  {
  }

  lemma {:induction false} ApplyKeepsHeld(s: State, a: Action)
    requires Inv(s) && Enabled(s, a) && AllHeld(s)
    ensures AllHeld(Apply(s, a))
  {
    InvApply(s, a);
    var s' := Apply(s, a);
    if a.Run? && s.threads[a.tid].pc == Start {
      StartKeepsHeld(s, a.tid);
    } else {
      if a.Run? { OtherSteps(s, a.tid); }
      forall k | 0 <= k < |s'.started| && k !in s'.seen ensures Holds(s', k) { assert Holds(s, k); }
    }
  }

  /** In every state of every run, each request whose completion nobody has seen is still in the
      descriptor where it was started, be it a post's or a post_wait's. */
  lemma {:induction false} NeverOverwritten(run: seq<State>, acts: seq<Action>, n: nat)
    requires IsRun(run, acts) && n < |run|
    ensures AllHeld(run[n])
    decreases n
  {
    if n > 0 {
      NeverOverwritten(run, acts, n - 1);
      RunInv(run, acts, n - 1);
      RunStep(run, acts, n - 1);
      ApplyKeepsHeld(run[n - 1], acts[n - 1]);
    }
  }

  /** Two requests whose completions nobody has seen occupy different slots; so at most 128 are
      under way, namely among the last 128 started. */
  lemma {:induction false} DistinctSlots(run: seq<State>, acts: seq<Action>, n: nat, j: nat, k: nat)
    requires IsRun(run, acts) && n < |run|
    requires j < k < |run[n].started| && j !in run[n].seen && k !in run[n].seen
    ensures j % 128 != k % 128 && |run[n].started| <= j + 128
  {
    NeverOverwritten(run, acts, n);
    RunInv(run, acts, n);
    assert Holds(run[n], j) && Holds(run[n], k);
    assert SlotInv(run[n], j % NDESC);
  }

  // ---- what has been started stays as it was -----------------------------------------------

  lemma {:induction false} StartedGrows(run: seq<State>, acts: seq<Action>, n: nat, m: nat)
    requires IsRun(run, acts) && n <= m < |run|
    ensures run[n].started <= run[m].started
    decreases m
  {
    if n < m {
      StartedGrows(run, acts, n, m - 1);
      RunStep(run, acts, m - 1);
      ApplyStarts(run[m - 1], acts[m - 1]);
    }
  }

  lemma {:induction false} ApplyStarts(s: State, a: Action)
    requires Enabled(s, a)
    ensures s.started <= Apply(s, a).started
  {
    if a.Run? && s.threads[a.tid].pc != Start { OtherSteps(s, a.tid); }
  }

  /** The third word tells the hardware the low half of the size, below a high half of 8, the SYNC flag. */
  lemma {:induction false} ControlWordHalves(size: nat)
    ensures ControlWord(size) % 0x1_0000_0000 == size % 0x1_0000_0000 && ControlWord(size) / 0x1_0000_0000 == 8
    ensures size < 0x1_0000_0000 ==> ControlWord(size) % 0x1_0000_0000 == size
  {
  }

  /** From its start until the hardware completes it, a request's descriptor holds the words that
      its caller passed: destination, source, and the size below the SYNC flag. */
  lemma {:induction false} HardwareSeesTheRequest(run: seq<State>, acts: seq<Action>, n: nat, m: nat, k: nat)
    requires IsRun(run, acts) && n <= m < |run| && k < |run[n].started| && k !in run[m].outcome
    ensures Shape(run[m]) && run[m].desc[k % NDESC].phase == Running(k)
    ensures Describes(run[m].desc[k % NDESC], run[n].started[k].req)
    ensures var d, req := run[m].desc[k % NDESC], run[n].started[k].req;
            && d.dst == req.dst && d.src == req.src
            && d.ctl / 0x1_0000_0000 == 8 && d.ctl % 0x1_0000_0000 == req.size % 0x1_0000_0000
            && (req.size < 0x1_0000_0000 ==> d.ctl % 0x1_0000_0000 == req.size)
  {
    StartedGrows(run, acts, n, m);
    NeverOverwritten(run, acts, m);
    RunInv(run, acts, m);
    assert k !in run[m].seen && Holds(run[m], k);
    ControlWordHalves(run[n].started[k].req.size);
    assert SlotInv(run[m], k % NDESC);
  }

  // ---- what a return value says ------------------------------------------------------------

  /** Thread `t` is inside a post with `h` that it called in state `s0`, and its progress tells
      whether it has started a request since. */
  ghost predicate InPost(s0: State, s: State, t: Tid, h: Hid, req: Request) {
    && t < |s.threads| && s.threads[t].pc != Idle && s.threads[t].op == Post(h, req)
    && |s0.started| <= |s.started| && Progress(s0, s, s.threads[t], h, req)
  }

  ghost predicate Progress(s0: State, s: State, th: Thread, h: Hid, req: Request) {
    if HasStarted(th) then StartedOnce(s0, s, h, req) else StartedNone(s0, s, h)
  }

  ghost predicate StartedNone(s0: State, s: State, h: Hid) {
    forall k :: |s0.started| <= k < |s.started| ==> s.started[k].owner != ByHandle(h)
  }

  /** Exactly one request has been started with handle `h`, namely `req`. */
  ghost predicate StartedOnce(s0: State, s: State, h: Hid, req: Request) {
    exists k :: |s0.started| <= k < |s.started| && OnlyStart(s0, s, h, req, k)
  }

  ghost predicate OnlyStart(s0: State, s: State, h: Hid, req: Request, k: nat)
    requires k < |s.started|
  {
    && s.started[k] == Started(req, ByHandle(h))
    && forall j :: |s0.started| <= j < |s.started| && j != k ==> s.started[j].owner != ByHandle(h)
  }

  /** The thread has started what its post is to start. */
  predicate HasStarted(th: Thread) { AfterStart(th.pc) || Committed(th) }

  /** A step other than the start keeps the thread on its side of it. */
  lemma {:induction false} OwnStep(s: State, t: Tid)
    requires Shape(s) && t < |s.threads| && s.threads[t].op.Post? && Fits(s.threads[t].op, s.threads[t].pc)
    requires s.threads[t].pc != Start && s.threads[t].pc != Idle && s.threads[t].pc != Return
    requires s.threads[t].pc == SavePrev ==> s.status[s.threads[t].idx].Ptr?
    ensures |Step(s, t).threads| == |s.threads| && Step(s, t).threads[t].pc != Idle
    ensures Step(s, t).threads[t].op == s.threads[t].op
    ensures HasStarted(Step(s, t).threads[t]) == HasStarted(s.threads[t])
  {
    match s.threads[t].pc
    case Lock => assert Step(s, t) == DoLock(s, t);
    case CheckStatus => assert Step(s, t) == DoCheckStatus(s, t);
    case CheckPrev => assert Step(s, t) == DoCheckPrev(s, t);
    case SavePrev => assert Step(s, t) == DoSavePrev(s, t);
    case _ =>
  }

  /** Only a start and a return change what the callers know and what has been started. */
  lemma {:induction false} InnerStep(s: State, t: Tid)
    requires Shape(s) && t < |s.threads| && Fits(s.threads[t].op, s.threads[t].pc)
    requires s.threads[t].pc != Start && s.threads[t].pc != Return
    ensures var s' := Step(s, t);
            && s'.client == s.client && s'.serialOf == s.serialOf
            && s'.started == s.started && s'.reported == s.reported
            && |s'.threads| == |s.threads| && |s'.handles| == |s.handles|
            && forall u :: 0 <= u < |s.threads| && u != t ==> s'.threads[u] == s.threads[u]
  {
    match s.threads[t].pc
    case Lock => assert Step(s, t) == DoLock(s, t);
    case CheckStatus => assert Step(s, t) == DoCheckStatus(s, t);
    case CheckPrev => assert Step(s, t) == DoCheckPrev(s, t);
    case SavePrev => assert Step(s, t) == DoSavePrev(s, t);
    case AwaitOwn => assert Step(s, t) == DoAwaitOwn(s, t);
    case CheckOwn => assert Step(s, t) == DoCheckOwn(s, t);
    case _ =>
  }

  lemma {:induction false} OthersKeepThread(s: State, t: Tid, u: Tid)
    requires Shape(s) && t < |s.threads| && u < |s.threads| && u != t && Fits(s.threads[u].op, s.threads[u].pc)
    ensures |Step(s, u).threads| == |s.threads| && Step(s, u).threads[t] == s.threads[t]
  {
    match s.threads[u].pc
    case Start => assert Step(s, u) == DoStart(s, u);
    case Return => assert Step(s, u) == DoReturn(s, u);
    case _ => InnerStep(s, u);
  }

  /** Nobody else starts a request with a handle that is being posted. */
  lemma {:induction false} OthersStart(s: State, t: Tid, h: Hid, u: Tid)
    requires Inv(s) && t < |s.threads| && s.threads[t].pc != Idle && s.threads[t].op.Post? && s.threads[t].op.h == h
    requires u < |s.threads| && u != t && Fits(s.threads[u].op, s.threads[u].pc)
    ensures |Step(s, u).threads| == |s.threads| && Step(s, u).threads[t] == s.threads[t]
    ensures s.started <= Step(s, u).started
    ensures forall k :: |s.started| <= k < |Step(s, u).started| ==> Step(s, u).started[k].owner != ByHandle(h)
  {
    OthersKeepThread(s, t, u);
    if s.threads[u].pc == Start {
      assert ThreadInv(s, t) && ThreadInv(s, u);
      assert Step(s, u) == DoStart(s, u);
    } else {
      OtherSteps(s, u);
    }
  }

  /** More requests, none of them with `h`, change nothing about what was started with it. */
  lemma {:induction false} OthersDoNotMatter(s0: State, s: State, s': State, h: Hid, req: Request)
    requires |s0.started| <= |s.started| && s.started <= s'.started
    requires forall k :: |s.started| <= k < |s'.started| ==> s'.started[k].owner != ByHandle(h)
    ensures StartedNone(s0, s, h) ==> StartedNone(s0, s', h)
    ensures StartedOnce(s0, s, h, req) ==> StartedOnce(s0, s', h, req)
  {
    if StartedOnce(s0, s, h, req) {
      var k :| |s0.started| <= k < |s.started| && OnlyStart(s0, s, h, req, k);
      assert OnlyStart(s0, s', h, req, k);
    }
  }

  lemma {:induction false} OwnStart(s0: State, s: State, t: Tid, h: Hid, req: Request)
    requires Inv(s) && InPost(s0, s, t, h, req) && s.threads[t].pc == Start
    ensures InPost(s0, DoStart(s, t), t, h, req)
  {
    var s', k := DoStart(s, t), |s.started|;
    assert !HasStarted(s.threads[t]);
    assert OnlyStart(s0, s', h, req, k);
  }

  lemma {:induction false} PostSteps(s0: State, s: State, t: Tid, h: Hid, req: Request)
    requires Inv(s) && InPost(s0, s, t, h, req) && s.threads[t].pc != Return
    requires Fits(s.threads[t].op, s.threads[t].pc)
    ensures InPost(s0, Step(s, t), t, h, req)
  {
    if s.threads[t].pc == Start {
      OwnStart(s0, s, t, h, req);
    } else {
      assert ThreadInv(s, t);
      OwnStep(s, t);
      OtherSteps(s, t);
      OthersDoNotMatter(s0, s, Step(s, t), h, req);
    }
  }

  lemma {:induction false} PostGoesOn(s0: State, s: State, t: Tid, h: Hid, req: Request, a: Action)
    requires Inv(s) && Enabled(s, a) && InPost(s0, s, t, h, req)
    requires t < |Apply(s, a).threads| && Apply(s, a).threads[t].pc != Idle
    ensures InPost(s0, Apply(s, a), t, h, req)
  {
    if a == Run(t) {
      PostSteps(s0, s, t, h, req);
    } else {
      if a.Run? { OthersStart(s, t, h, a.tid); }
      OthersDoNotMatter(s0, s, Apply(s, a), h, req);
    }
  }

  /** Thread `t` is inside a call. */
  predicate Busy(s: State, t: Tid) { t < |s.threads| && s.threads[t].pc != Idle }

  lemma {:induction false} PostBegins(run: seq<State>, acts: seq<Action>, c: nat, t: Tid, h: Hid, req: Request)
    requires IsRun(run, acts) && c < |acts| && acts[c] == Call(t, Post(h, req))
    ensures InPost(run[c], run[c + 1], t, h, req)
  {
    RunStep(run, acts, c);
  }

  /** Thread `t` is inside one and the same call from state `c + 1` to state `n`. */
  ghost predicate BusySince(run: seq<State>, c: nat, n: nat, t: Tid)
    requires n < |run|
  {
    forall m :: c < m <= n ==> Busy(run[m], t)
  }

  lemma {:induction false} BusyBefore(run: seq<State>, c: nat, n: nat, t: Tid)
    requires c + 1 < n < |run| && BusySince(run, c, n, t)
    ensures BusySince(run, c, n - 1, t)
  {
  }

  lemma {:induction false} PostNext(run: seq<State>, acts: seq<Action>, c: nat, n: nat, t: Tid, h: Hid, req: Request)
    requires IsRun(run, acts) && c + 1 < n < |run| && BusySince(run, c, n, t) && InPost(run[c], run[n - 1], t, h, req)
    ensures InPost(run[c], run[n], t, h, req)
  {
    RunInv(run, acts, n - 1);
    RunStep(run, acts, n - 1);
    assert Busy(run[n], t);
    PostGoesOn(run[c], run[n - 1], t, h, req, acts[n - 1]);
  }

  lemma {:induction false} InPostSince(run: seq<State>, acts: seq<Action>, c: nat, n: nat, t: Tid, h: Hid, req: Request)
    requires IsRun(run, acts) && c < n < |run| && acts[c] == Call(t, Post(h, req))
    requires BusySince(run, c, n, t)
    ensures InPost(run[c], run[n], t, h, req)
    decreases n
  {
    if n == c + 1 {
      PostBegins(run, acts, c, t, h, req);
    } else {
      BusyBefore(run, c, n, t);
      InPostSince(run, acts, c, n - 1, t, h, req);
      PostNext(run, acts, c, n, t, h, req);
    }
  }

  /** A post returns 0 if and only if it has started its request, once. */
  lemma {:induction false} ZeroMeansStarted(run: seq<State>, acts: seq<Action>, c: nat, n: nat,
                                            t: Tid, h: Hid, req: Request)
    requires IsRun(run, acts) && c < n < |run| && acts[c] == Call(t, Post(h, req))
    requires BusySince(run, c, n, t)
    requires t < |run[n].threads| && run[n].threads[t].pc == Return
    ensures run[n].threads[t].ret == 0 <==> StartedOnce(run[c], run[n], h, req)
    ensures run[n].threads[t].ret != 0 <==> StartedNone(run[c], run[n], h)
  {
    InPostSince(run, acts, c, n, t, h, req);
    if StartedOnce(run[c], run[n], h, req) {
      var k :| |run[c].started| <= k < |run[n].started| && OnlyStart(run[c], run[n], h, req, k);
      assert !StartedNone(run[c], run[n], h);
    }
  }

  // ---- the request of a post_wait ----------------------------------------------------------

  predicate AfterOwnStart(pc: Pc) {
    pc == SetStatus || pc == BumpIndex || pc == Unlock || pc == AwaitOwn || pc == ClearOwn || pc == Return
  }

  /** A post_wait that has started a request has started the one it was called with. */
  ghost predicate OwnRequest(s: State, t: Tid) {
    t < |s.threads| && s.threads[t].op.PostWait? && AfterOwnStart(s.threads[t].pc) ==>
      var th := s.threads[t];
      th.serial < |s.started| && s.started[th.serial] == Started(th.op.wreq, ByThread(t))
  }

  lemma {:induction false} OwnRequestStep(s: State, t: Tid)
    requires Shape(s) && t < |s.threads| && Fits(s.threads[t].op, s.threads[t].pc) && OwnRequest(s, t)
    ensures OwnRequest(Step(s, t), t)
  {
    match s.threads[t].pc
    case Lock => assert Step(s, t) == DoLock(s, t);
    case CheckStatus => assert Step(s, t) == DoCheckStatus(s, t);
    case CheckPrev => assert Step(s, t) == DoCheckPrev(s, t);
    case SavePrev => assert Step(s, t) == DoSavePrev(s, t);
    case Start => assert Step(s, t) == DoStart(s, t);
    case AwaitOwn => assert Step(s, t) == DoAwaitOwn(s, t);
    case Return => assert Step(s, t) == DoReturn(s, t);
    case _ =>
  }

  lemma {:induction false} ApplyKeepsOwnRequest(s: State, a: Action, t: Tid)
    requires Enabled(s, a) && t < |s.threads| && OwnRequest(s, t)
    ensures OwnRequest(Apply(s, a), t) && t < |Apply(s, a).threads|
  {
    ApplyStarts(s, a);
    if a.Run? {
      if a.tid == t { OwnRequestStep(s, t); StepKeepsThreads(s, t); } else { OthersKeepThread(s, t, a.tid); }
    }
  }

  lemma {:induction false} StepKeepsThreads(s: State, t: Tid)
    requires Shape(s) && t < |s.threads| && Fits(s.threads[t].op, s.threads[t].pc)
    ensures |Step(s, t).threads| == |s.threads|
  {
    match s.threads[t].pc
    case Start => assert Step(s, t) == DoStart(s, t);
    case Return => assert Step(s, t) == DoReturn(s, t);
    case _ => InnerStep(s, t);
  }

  lemma {:induction false} RunOwnRequest(run: seq<State>, acts: seq<Action>, n: nat, t: Tid)
    requires IsRun(run, acts) && n < |run| && t < |run[0].threads|
    ensures t < |run[n].threads| && OwnRequest(run[n], t)
    decreases n
  {
    if n > 0 {
      RunOwnRequest(run, acts, n - 1, t);
      RunStep(run, acts, n - 1);
      ApplyKeepsOwnRequest(run[n - 1], acts[n - 1], t);
    }
  }

  /** A post_wait that is about to return has started its own request, and returns the exception
      code that the hardware gave to it. */
  lemma {:induction false} WaitServesItsOwn(run: seq<State>, acts: seq<Action>, n: nat, t: Tid)
    requires IsRun(run, acts) && n < |run| && t < |run[0].threads|
    ensures t < |run[n].threads|
    ensures var th := run[n].threads[t];
            th.pc == Return && th.op.PostWait? ==>
              && th.serial < |run[n].started| && run[n].started[th.serial] == Started(th.op.wreq, ByThread(t))
              && th.serial in run[n].outcome && th.ret == run[n].outcome[th.serial]
  {
    RunInv(run, acts, n);
    RunOwnRequest(run, acts, n, t);
    assert ThreadInv(run[n], t);
  }
}
