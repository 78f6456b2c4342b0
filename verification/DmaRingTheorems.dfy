/** What the ring promises on every run, under any interleaving of threads and hardware. */
module DmaRingTheorems {
  import opened Bytes
  import opened DmaRing
  import opened DmaRingInv

  lemma {:induction false} RunStep(run: seq<State>, acts: seq<Action>, n: nat)
    requires IsRun(run, acts) && n < |acts|
    ensures Enabled(run[n], acts[n]) && run[n + 1] == Apply(run[n], acts[n])
  {
    assert StepAt(run, acts, n);
  }

  lemma {:induction false} RunInv(run: seq<State>, acts: seq<Action>, n: nat)
    requires IsRun(run, acts) && n < |run|
    ensures Inv(run[n])
    decreases n
  {
    if n == 0 {
      InvInitial(run[0]);
    } else {
      RunInv(run, acts, n - 1);
      RunStep(run, acts, n - 1);
      InvApply(run[n - 1], acts[n - 1]);
    }
  }

  // ---- safety of the slots -----------------------------------------------------------------

  /** Descriptor `i`; every state of a run has all 128. */
  function DescAt(s: State, i: Slot): Option<Desc> {
    if i < |s.desc| then Some(s.desc[i]) else None
  }

  predicate Writes(pc: Pc) { pc == WriteDst || pc == WriteSrc || pc == WriteCtl || pc == Start }

  lemma {:induction false} OnlyWritersWrite(s: State, t: Tid, i: Slot)
    requires Shape(s) && t < |s.threads| && Fits(s.threads[t].op, s.threads[t].pc)
    requires DescAt(Step(s, t), i) != DescAt(s, i)
    ensures Writes(s.threads[t].pc) && s.threads[t].idx == i
  {
  }

  /** A thread changes a descriptor only while the slot is unmarked, and only when the hardware is
      done with what the descriptor held and some thread has read the completion bit. */
  lemma {:induction false} SlotSafety(run: seq<State>, acts: seq<Action>, n: nat, i: Slot)
    requires IsRun(run, acts) && n < |acts| && acts[n].Run?
    requires DescAt(run[n + 1], i) != DescAt(run[n], i)
    ensures Shape(run[n]) && run[n].status[i] == Free
    ensures !run[n].desc[i].phase.Running?
    ensures run[n].desc[i].phase.Complete? ==> run[n].desc[i].phase.serial in run[n].seen
  {
    var s, t := run[n], acts[n].tid;
    RunInv(run, acts, n);
    RunStep(run, acts, n);
    OnlyWritersWrite(s, t, i);
    assert ThreadInv(s, t) && SlotInv(s, i);
  }

  /** A completion bit is read only after the hardware has set it. */
  lemma {:induction false} SeenIsDone(run: seq<State>, acts: seq<Action>, n: nat, k: nat)
    requires IsRun(run, acts) && n < |run| && k in run[n].seen
    ensures k in run[n].outcome
  {
    RunInv(run, acts, n);
  }

  /** Requests use the slots in turn: number `k`, counting from 0, is started at `k % 128`. */
  lemma {:induction false} RingOrder(run: seq<State>, acts: seq<Action>, n: nat)
    requires IsRun(run, acts) && n < |acts|
    requires |run[n + 1].started| != |run[n].started|
    ensures Enabled(run[n], acts[n]) && acts[n].Run? && Shape(run[n + 1])
    ensures var k := |run[n].started|;
            && |run[n + 1].started| == k + 1
            && k % 128 < |run[n + 1].desc| == 128 && run[n + 1].desc[k % 128].phase == Running(k)
            && match run[n].threads[acts[n].tid].op
               case Post(h, req) => run[n + 1].started[k] == Started(req, ByHandle(h))
               case PostWait(req) => run[n + 1].started[k] == Started(req, ByThread(acts[n].tid))
               case Poll(_) => false
  {
    var s := run[n];
    RunInv(run, acts, n);
    RunInv(run, acts, n + 1);
    RunStep(run, acts, n);
    assert acts[n].Run? && s.threads[acts[n].tid].pc == Start;
    assert ThreadInv(s, acts[n].tid);
  }

  /** Outstanding handles without a result name different slots. */
  lemma {:induction false} DistinctHandles(run: seq<State>, acts: seq<Action>, n: nat, g: Hid, h: Hid)
    requires IsRun(run, acts) && n < |run| && g != h && g < |run[n].client| && h < |run[n].client|
    requires |run[n].client| == |run[n].handles|
    requires run[n].client[g] == run[n].client[h] == Outstanding
    requires run[n].handles[g].status == run[n].handles[h].status == NO_RESULT
    ensures run[n].handles[g].index != run[n].handles[h].index
  {
    RunInv(run, acts, n);
    assert HandleInv(run[n], g) && HandleInv(run[n], h);
  }

  /** A post that is about to give up has met the request posted 128 requests ago, and either the
      hardware has not completed it or the post_wait that issued it has not cleared its mark. */
  lemma {:induction false} PostGivesUpOnlyWhenFull(run: seq<State>, acts: seq<Action>, n: nat)
    requires IsRun(run, acts) && n < |acts| && acts[n].Run? && acts[n].tid < |run[n].threads|
    requires var th := run[n].threads[acts[n].tid];
             th.op.Post? && (th.pc == CheckStatus || th.pc == CheckPrev)
    requires acts[n].tid < |run[n + 1].threads| && run[n + 1].threads[acts[n].tid].pc == Unlock
    ensures Shape(run[n])
    ensures var s := run[n];
            && NDESC <= |s.started|
            && s.desc[s.index].phase != Unused
            && s.desc[s.index].phase.serial == |s.started| - NDESC
            && (s.desc[s.index].phase.Running? || s.status[s.index].Sync?)
  {
    var s, t := run[n], acts[n].tid;
    RunInv(run, acts, n);
    RunStep(run, acts, n);
    assert ThreadInv(s, t) && SlotInv(s, s.index);
    SyncIsStarted(s, s.index);
    SameSlot(s.desc[s.index].phase.serial, |s.started|);
  }

  lemma {:induction false} SyncIsStarted(s: State, i: Slot)
    requires Inv(s) && s.status[i] != Free
    ensures s.desc[i].phase != Unused
  {
    assert SlotInv(s, i);
    if s.status[i].Sync? { assert ThreadInv(s, s.status[i].owner); }
  }

  lemma {:induction false} SameSlot(k: nat, n: nat)
    requires k < n <= k + NDESC && k % NDESC == n % NDESC
    ensures k == n - NDESC
  {
  }

  // ---- routing of the results --------------------------------------------------------------

  /** A poll that returns a result returns the exception code of the very request last posted with
      its handle, whichever thread's call found the completion, and no call reported it before. */
  lemma {:induction false} PollReportsItsOwn(run: seq<State>, acts: seq<Action>, n: nat)
    requires IsRun(run, acts) && n < |acts| && acts[n].Run? && acts[n].tid < |run[n].threads|
    requires var th := run[n].threads[acts[n].tid];
             th.pc == Return && th.op.Poll? && th.ret != -EAGAIN
    ensures Shape(run[n])
    ensures var th := run[n].threads[acts[n].tid];
            var k := run[n].serialOf[th.op.ph];
            && k < |run[n].started| && run[n].started[k].owner == ByHandle(th.op.ph)
            && k in run[n].outcome && th.ret == run[n].outcome[k]
            && k !in run[n].reported && run[n + 1].reported == run[n].reported[k := th.ret]
  {
    var s, t := run[n], acts[n].tid;
    RunInv(run, acts, n);
    RunStep(run, acts, n);
    assert ThreadInv(s, t) && HandleInv(s, s.threads[t].op.ph);
  }

  /** A poll that looks at its descriptor is going to answer -EAGAIN if and only if the hardware
      has not completed the request last posted with the handle; it runs in that descriptor then. */
  lemma {:induction false} PollGivesUpIffRunning(run: seq<State>, acts: seq<Action>, n: nat)
    requires IsRun(run, acts) && n < |acts| && acts[n].Run? && acts[n].tid < |run[n].threads|
    requires var th := run[n].threads[acts[n].tid]; th.pc == CheckOwn && th.op.Poll?
    ensures Shape(run[n]) && acts[n].tid < |run[n + 1].threads|
    ensures var s, t := run[n], acts[n].tid;
            var h := s.threads[t].op.ph;
            var th := run[n + 1].threads[t];
            && (th.pc == Unlock && th.ret == -EAGAIN == -11 <==> s.serialOf[h] !in s.outcome)
            && (s.serialOf[h] !in s.outcome <==> s.desc[s.handles[h].index].phase == Running(s.serialOf[h]))
  {
    var s, t := run[n], acts[n].tid;
    RunInv(run, acts, n);
    RunStep(run, acts, n);
    assert ThreadInv(s, t) && HandleInv(s, s.threads[t].op.ph) && SlotInv(s, s.threads[t].idx);
    assert Step(s, t) == DoCheckOwn(s, t);
  }

  /** So does a post_wait for the request it started itself. */
  lemma {:induction false} PostWaitReportsItsOwn(run: seq<State>, acts: seq<Action>, n: nat)
    requires IsRun(run, acts) && n < |acts| && acts[n].Run? && acts[n].tid < |run[n].threads|
    requires var th := run[n].threads[acts[n].tid]; th.pc == Return && th.op.PostWait?
    ensures var th := run[n].threads[acts[n].tid];
            && th.serial < |run[n].started| && run[n].started[th.serial].owner == ByThread(acts[n].tid)
            && th.serial in run[n].outcome && th.ret == run[n].outcome[th.serial]
            && th.serial !in run[n].reported
            && run[n + 1].reported == run[n].reported[th.serial := th.ret]
  {
    RunInv(run, acts, n);
    RunStep(run, acts, n);
    assert ThreadInv(run[n], acts[n].tid);
  }

  /** Nothing a call returns is forgotten or changed by what the hardware or others do later. */
  lemma {:induction false} ReportsAreFinal(run: seq<State>, acts: seq<Action>, n: nat, m: nat, k: nat)
    requires IsRun(run, acts) && n <= m < |run| && k in run[n].reported
    ensures k in run[m].reported && run[m].reported[k] == run[n].reported[k]
    ensures k in run[m].outcome && run[m].reported[k] == run[m].outcome[k]
    decreases m
  {
    RunInv(run, acts, m);
    if n < m {
      ReportsAreFinal(run, acts, n, m - 1, k);
      ReportKept(run, acts, m - 1, k);
    }
  }

  /** Only the end of a call reports anything. */
  lemma {:induction false} InnerReportsNothing(s: State, t: Tid)
    requires Shape(s) && t < |s.threads| && Fits(s.threads[t].op, s.threads[t].pc) && s.threads[t].pc != Return
    ensures Step(s, t).reported == s.reported
  {
  }

  lemma {:induction false} ApplyKeepsReport(s: State, a: Action, k: nat)
    requires Inv(s) && Enabled(s, a) && k in s.reported
    ensures k in Apply(s, a).reported && Apply(s, a).reported[k] == s.reported[k]
  {
    if a.Run? {
      if s.threads[a.tid].pc != Return {
        InnerReportsNothing(s, a.tid);
      } else if Reports(s, a.tid) {
        ReportIsOwn(s, a.tid);
      }
    }
  }

  lemma {:induction false} ReportKept(run: seq<State>, acts: seq<Action>, n: nat, k: nat)
    requires IsRun(run, acts) && n < |acts| && k in run[n].reported
    ensures k in run[n + 1].reported && run[n + 1].reported[k] == run[n].reported[k]
  {
    RunInv(run, acts, n);
    RunStep(run, acts, n);
    ApplyKeepsReport(run[n], acts[n], k);
  }

  /** An outstanding handle either is the one its slot points to, or holds the code already. */
  lemma {:induction false} OutstandingIsRouted(run: seq<State>, acts: seq<Action>, n: nat, h: Hid)
    requires IsRun(run, acts) && n < |run| && h < |run[n].client| && run[n].client[h] == Outstanding
    ensures Shape(run[n])
    ensures var s := run[n];
            if s.handles[h].status == NO_RESULT
            then s.status[s.handles[h].index] == Ptr(h)
                 && s.desc[s.handles[h].index].phase != Unused
                 && s.desc[s.handles[h].index].phase.serial == s.serialOf[h]
            else s.serialOf[h] in s.outcome && s.handles[h].status == s.outcome[s.serialOf[h]]
  {
    RunInv(run, acts, n);
    assert HandleInv(run[n], h);
    assert SlotInv(run[n], run[n].handles[h].index);
  }

  /** Once its result has been reported, no slot points to a handle: its memory may be reused. */
  lemma {:induction false} RestIsForgotten(run: seq<State>, acts: seq<Action>, n: nat, h: Hid, i: Slot)
    requires IsRun(run, acts) && n < |run| && h < |run[n].client| && run[n].client[h] == Rest
    ensures |run[n].status| == NDESC && run[n].status[i] != Ptr(h)
  {
    RunInv(run, acts, n);
    assert SlotInv(run[n], i);
  }

  // ---- progress ----------------------------------------------------------------------------

  /** A post_wait is reading the same word over and over with the lock in its hand. */
  ghost predicate Spinning(s: State, t: Tid)
    requires Shape(s) && t < |s.threads|
  {
    var th := s.threads[t];
    && s.lock == Some(t) && th.op.PostWait?
    && ((th.pc == CheckStatus && s.status[th.idx].Sync?)
        || (th.pc == CheckPrev && !s.desc[th.idx].phase.Complete?))
  }

  /** How many lock-free steps are left before slot `i` lets a spinning thread go on. */
  ghost function Rank(s: State, i: Slot): nat
    requires Shape(s)
  {
    match s.status[i]
    case Free => 0
    case Ptr(_) => if s.desc[i].phase.Running? then 1 else 0
    case Sync(u) =>
      if s.desc[i].phase.Running? then 3
      else if u < |s.threads| && s.threads[u].pc == ClearOwn then 1 else 2
  }

  /** The action is the hardware's, or of a thread that neither holds the lock nor wants it. */
  ghost predicate NeedsNoLock(s: State, a: Action) {
    a.Hardware? || (a.Run? && a.tid < |s.threads|
                    && (s.threads[a.tid].pc == AwaitOwn || s.threads[a.tid].pc == ClearOwn))
  }

  /** A thread spinning with the lock held is never stuck: an action that does not need the lock
      is enabled and brings its slot closer. */
  lemma {:induction false} SpinHelped(s: State, t: Tid) returns (a: Action)
    requires Inv(s) && t < |s.threads| && Spinning(s, t)
    ensures Enabled(s, a) && NeedsNoLock(s, a)
    ensures t < |Apply(s, a).threads| && Apply(s, a).threads[t] == s.threads[t] && Apply(s, a).lock == Some(t)
    ensures Shape(Apply(s, a)) && Rank(Apply(s, a), s.threads[t].idx) < Rank(s, s.threads[t].idx)
  {
    var i := s.threads[t].idx;
    assert ThreadInv(s, t) && SlotInv(s, i);
    if s.desc[i].phase.Running? {
      if s.status[i].Sync? { assert ThreadInv(s, s.status[i].owner); }
      a := Hardware(i, 0);
    } else {
      var u := s.status[i].owner;
      assert ThreadInv(s, u);
      a := Run(u);
    }
  }

  /** Nobody else can put the thread back: every other action leaves the spinning thread and the
      lock as they are and its slot no further away. */
  lemma {:induction false} SpinNeverWorse(s: State, t: Tid, a: Action)
    requires Inv(s) && t < |s.threads| && Spinning(s, t) && Enabled(s, a) && a != Run(t)
    ensures Apply(s, a).threads[t] == s.threads[t] && Apply(s, a).lock == Some(t)
    ensures Shape(Apply(s, a)) && Rank(Apply(s, a), s.threads[t].idx) <= Rank(s, s.threads[t].idx)
  {
    match a
    case Call(u, op) => SpinAndCall(s, t, u, op);
    case Hardware(j, e) => assert ThreadInv(s, t);
    case Run(u) => SpinAndRun(s, t, u);
  }

  lemma {:induction false} SpinAndCall(s: State, t: Tid, u: Tid, op: Op)
    requires Inv(s) && t < |s.threads| && Spinning(s, t) && MayCall(s, u, op)
    ensures Enter(s, u, op).threads[t] == s.threads[t] && Enter(s, u, op).lock == Some(t)
    ensures Shape(Enter(s, u, op))
    ensures Rank(Enter(s, u, op), s.threads[t].idx) <= Rank(s, s.threads[t].idx)
  {
    assert SlotInv(s, s.threads[t].idx);
  }

  lemma {:induction false} SpinAndRun(s: State, t: Tid, u: Tid)
    requires Inv(s) && t < |s.threads| && Spinning(s, t) && u < |s.threads| && u != t
    requires Fits(s.threads[u].op, s.threads[u].pc)
    ensures Step(s, u).threads[t] == s.threads[t] && Step(s, u).lock == Some(t)
    ensures Shape(Step(s, u)) && Rank(Step(s, u), s.threads[t].idx) <= Rank(s, s.threads[t].idx)
  {
    assert ThreadInv(s, u);
    var pc := s.threads[u].pc;
    assert pc == Idle || pc == Lock || pc == AwaitOwn || pc == ClearOwn || pc == Return;
    if pc == Lock || pc == Idle {
      assert Step(s, u) == s;
    } else {
      OffLockStep(s, u, s.threads[t].idx);
    }
  }

  predicate OffLock(pc: Pc) { pc == AwaitOwn || pc == ClearOwn || pc == Return }

  /** A step without the lock changes neither the lock nor other threads, completes no descriptor
      and marks no slot. */
  lemma {:induction false} OffLockChanges(s: State, u: Tid)
    requires Shape(s) && u < |s.threads| && OffLock(s.threads[u].pc) && Fits(s.threads[u].op, s.threads[u].pc)
    ensures var s' := Step(s, u);
            && Shape(s') && s'.lock == s.lock && s'.desc == s.desc && |s'.threads| == |s.threads|
            && (forall t :: 0 <= t < |s.threads| && t != u ==> s'.threads[t] == s.threads[t])
            && s'.status == if s.threads[u].pc == ClearOwn then s.status[s.threads[u].idx := Free] else s.status
  {
  }

  lemma {:induction false} OffLockStep(s: State, u: Tid, i: Slot)
    requires Inv(s) && u < |s.threads| && OffLock(s.threads[u].pc) && Fits(s.threads[u].op, s.threads[u].pc)
    ensures Step(s, u).lock == s.lock && Shape(Step(s, u))
    ensures forall t :: 0 <= t < |s.threads| && t != u ==> Step(s, u).threads[t] == s.threads[t]
    ensures |Step(s, u).threads| == |s.threads|
    ensures Rank(Step(s, u), i) <= Rank(s, i)
  {
    OffLockChanges(s, u);
    assert SlotInv(s, i);
  }

  /** A holder of the lock that is not spinning moves on at its next step. */
  lemma {:induction false} SpinEnds(s: State, t: Tid)
    requires Inv(s) && t < |s.threads| && s.lock == Some(t) && !Spinning(s, t)
    requires Fits(s.threads[t].op, s.threads[t].pc)
    ensures t < |Step(s, t).threads| && Step(s, t).threads[t].pc != s.threads[t].pc
  {
    assert ThreadInv(s, t);
  }

  /** These actions, none of which needs the lock, lead from `s` to `s'`. */
  ghost predicate LockFree(s: State, acts: seq<Action>, s': State)
    decreases |acts|
  {
    if acts == [] then s == s'
    else Enabled(s, acts[0]) && NeedsNoLock(s, acts[0]) && LockFree(Apply(s, acts[0]), acts[1..], s')
  }

  /** One such action, after which the thread spins on, closer to the end of it, or moves on. */
  lemma {:induction false} SpinShortened(s: State, t: Tid) returns (a: Action)
    requires Inv(s) && t < |s.threads| && Spinning(s, t)
    ensures Enabled(s, a) && NeedsNoLock(s, a) && Inv(Apply(s, a))
    ensures var s', i := Apply(s, a), s.threads[t].idx;
            && t < |s'.threads| && s'.threads[t] == s.threads[t] && Rank(s', i) < Rank(s, i)
            && (!Spinning(s', t) ==> Fits(s'.threads[t].op, s'.threads[t].pc) && s'.lock == Some(t))
  {
    a := SpinHelped(s, t);
    InvApply(s, a);
    assert ThreadInv(Apply(s, a), t);
  }

  /** From any state in which a thread spins with the lock held, at most three actions of others,
      none of which needs the lock, bring it to its next step. */
  lemma {:induction false} SpinReleased(s: State, t: Tid) returns (acts: seq<Action>, s': State)
    requires Inv(s) && t < |s.threads| && Spinning(s, t)
    ensures |acts| <= Rank(s, s.threads[t].idx) <= 3 && LockFree(s, acts, s')
    ensures Inv(s') && t < |s'.threads| && s'.threads[t] == s.threads[t] && Fits(s'.threads[t].op, s'.threads[t].pc)
    ensures t < |Step(s', t).threads| && Step(s', t).threads[t].pc != s.threads[t].pc
    decreases Rank(s, s.threads[t].idx)
  {
    var a := SpinShortened(s, t);
    var s1 := Apply(s, a);
    if Spinning(s1, t) {
      acts, s' := SpinReleased(s1, t);
    } else {
      acts, s' := [], s1;
      SpinEnds(s1, t);
    }
    assert ([a] + acts)[1..] == acts;
    acts := [a] + acts;
  }

  /** While some thread is inside a call, some action other than a new call changes the state:
      the library never deadlocks, even with a post_wait spinning under the lock. */
  lemma {:induction false} DeadlockFree(run: seq<State>, acts: seq<Action>, n: nat, t: Tid) returns (a: Action)
    requires IsRun(run, acts) && n < |run| && t < |run[n].threads| && run[n].threads[t].pc != Idle
    ensures Enabled(run[n], a) && !a.Call? && Apply(run[n], a) != run[n]
  {
    var s := run[n];
    RunInv(run, acts, n);
    if s.lock.Some? {
      var u := s.lock.value;
      assert ThreadInv(s, u);
      if Spinning(s, u) {
        a := SpinHelped(s, u);
      } else {
        SpinEnds(s, u);
        a := Run(u);
      }
    } else {
      a := UnlockedProgress(s, t);
    }
  }

  lemma {:induction false} UnlockedProgress(s: State, t: Tid) returns (a: Action)
    requires Inv(s) && t < |s.threads| && s.threads[t].pc != Idle && s.lock == None
    ensures Enabled(s, a) && !a.Call? && Apply(s, a) != s
  {
    assert ThreadInv(s, t);
    var i := s.threads[t].idx;
    if s.threads[t].pc == AwaitOwn && !s.desc[i].phase.Complete? {
      a := Hardware(i, 0);
      assert Apply(s, a).desc[i] != s.desc[i];
    } else {
      a := Run(t);
      assert Apply(s, a).threads[t].pc != s.threads[t].pc;
    }
  }
}
