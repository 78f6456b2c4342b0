/** The accelerated functions keep to the discipline that the results of the descriptor ring rest on. */
module IoDiscipline {
  import opened Bytes
  import opened DmaRing
  import opened DmaRingInv
  import Io = IoMachine

  /** The handle a request uses for each of its slots, all of them different. */
  ghost predicate Handles(s: State, hs: seq<Hid>) {
    && Shape(s)
    && (forall j :: 0 <= j < |hs| ==> hs[j] < |s.client|)
    && (forall i, j :: 0 <= i < j < |hs| ==> hs[i] != hs[j])
  }

  ghost predicate MirrorsAt(log: seq<Io.Use>, s: State, hs: seq<Hid>, j: nat)
    requires j < |hs| && hs[j] < |s.client|
  {
    s.client[hs[j]] == if Io.Open(log, j) then Outstanding else Rest
  }

  /** The ring's view of the handles is that of the request, but for slot `busy`. */
  ghost predicate Mirrors(log: seq<Io.Use>, s: State, hs: seq<Hid>, busy: int) {
    Handles(s, hs) && forall j :: 0 <= j < |hs| && j != busy ==> MirrorsAt(log, s, hs, j)
  }

  /** The call of the library behind a use of a handle. */
  function CallOf(u: Io.Use, h: Hid, req: Request): Op {
    if u.Posted? then Post(h, req) else Poll(h)
  }

  /** Whatever a disciplined request does next, the ring allows it. */
  lemma {:induction false} NextCallIsAllowed(log: seq<Io.Use>, u: Io.Use, s: State, t: Tid, hs: seq<Hid>, req: Request)
    requires Mirrors(log, s, hs, -1) && u.slot < |hs| && Io.Disciplined(log + [u])
    requires t < |s.threads| && s.threads[t].pc == Idle
    ensures MayCall(s, t, CallOf(u, hs[u.slot], req))
    ensures Mirrors(log, Enter(s, t, CallOf(u, hs[u.slot], req)), hs, u.slot)
  {
    assert (log + [u])[..|log|] == log;
    assert MirrorsAt(log, s, hs, u.slot);
    var s' := Enter(s, t, CallOf(u, hs[u.slot], req));
    forall j | 0 <= j < |hs| && j != u.slot ensures MirrorsAt(log, s', hs, j) {
      assert MirrorsAt(log, s, hs, j);
      if j < u.slot { assert hs[j] != hs[u.slot]; } else { assert hs[u.slot] != hs[j]; }
    }
  }

  /** A return that the request takes note of -- a successful post, a poll with a result -- brings
      both views together again; after a poll without a result the handle is still outstanding. */
  lemma {:induction false} ReturnIsMirrored(log: seq<Io.Use>, u: Io.Use, s: State, t: Tid, hs: seq<Hid>, req: Request)
    requires Mirrors(log, s, hs, u.slot) && u.slot < |hs|
    requires Io.Disciplined(log + [u])
    requires t < |s.threads| && s.threads[t].op == CallOf(u, hs[u.slot], req)
    ensures Handles(s, hs) && Handles(DoReturn(s, t), hs)
    ensures (if u.Posted? then s.threads[t].ret == 0 else s.threads[t].ret != -EAGAIN) ==>
              Mirrors(log + [u], DoReturn(s, t), hs, -1)
    ensures (if u.Posted? then s.threads[t].ret != 0 else s.threads[t].ret == -EAGAIN) ==>
              Mirrors(log, DoReturn(s, t), hs, -1)
  {
    assert (log + [u])[..|log|] == log;
    var s' := DoReturn(s, t);
    forall j | 0 <= j < |hs| && j != u.slot
      ensures MirrorsAt(log, s', hs, j) && MirrorsAt(log + [u], s', hs, j)
    {
      assert MirrorsAt(log, s, hs, j);
      if j < u.slot { assert hs[j] != hs[u.slot]; } else { assert hs[u.slot] != hs[j]; }
    }
  }

  // ---- whole runs --------------------------------------------------------------------------

  /** The handle a call is made with. */
  function HandleOf(op: Op): Option<Hid> {
    match op
    case Post(h, _) => Some(h)
    case PostWait(_) => None
    case Poll(h) => Some(h)
  }

  /** The call is made with one of the request's handles. */
  ghost predicate Concerns(op: Op, hs: seq<Hid>) {
    HandleOf(op).Some? && HandleOf(op).value in hs
  }

  /** What such a call is to the request. */
  ghost function UseOf(op: Op, hs: seq<Hid>): (u: Io.Use)
    requires Concerns(op, hs)
    ensures u.slot < |hs| && hs[u.slot] == HandleOf(op).value && u.Posted? == op.Post?
  {
    var j :| 0 <= j < |hs| && hs[j] == HandleOf(op).value;
    if op.Post? then Io.Posted(j) else Io.Reported(j)
  }

  /** The request takes note of a successful post and of a poll with a result. */
  predicate Noted(th: Thread) {
    if th.op.Post? then th.ret == 0 else th.ret != -EAGAIN
  }

  /** Thread `t` is inside a call with one of its handles. */
  ghost predicate Calling(s: State, t: Tid, hs: seq<Hid>) {
    t < |s.threads| && s.threads[t].pc != Idle && Concerns(s.threads[t].op, hs)
  }

  /** The record of the request after an action: a call is recorded when it returns. */
  ghost function Recorded(log: seq<Io.Use>, s: State, a: Action, t: Tid, hs: seq<Hid>): seq<Io.Use> {
    if a == Run(t) && Calling(s, t, hs) && s.threads[t].pc == Return && Noted(s.threads[t])
    then log + [UseOf(s.threads[t].op, hs)] else log
  }

  /** All that is asked of an action that calls the library with the request's handles is that it is
      the request's thread, outside the library, and that the call fits the request's record; the
      ring's own view of the handles is not consulted.  All else is asked of other actions. */
  ghost predicate Allowed(log: seq<Io.Use>, s: State, a: Action, t: Tid, hs: seq<Hid>) {
    if a.Call? && Concerns(a.op, hs) then
      && Shape(s) && OpShape(s, a.op) && a.t == t && t < |s.threads| && s.threads[t].pc == Idle
      && Io.Disciplined(log + [UseOf(a.op, hs)])
    else Enabled(s, a)
  }

  /** The effect of an action, whether the ring's discipline allows it or not. */
  ghost function Effect(s: State, a: Action): State
    requires a.Call? && a.op.PostWait? ==> Shape(s) && a.t < |s.threads|
    requires a.Call? && !a.op.PostWait? ==> Shape(s) && a.t < |s.threads| && HandleOf(a.op).value < |s.client|
    requires !a.Call? ==> Enabled(s, a)
  {
    match a
    case Call(t, op) => Enter(s, t, op)
    case Run(t) => Step(s, t)
    case Hardware(i, e) => Finish(s, i, e)
  }

  ghost predicate Moves(run: seq<State>, acts: seq<Action>, logs: seq<seq<Io.Use>>, t: Tid, hs: seq<Hid>, n: nat)
    requires n < |acts| && |run| == |logs| == |acts| + 1
  {
    && Allowed(logs[n], run[n], acts[n], t, hs)
    && run[n + 1] == Effect(run[n], acts[n])
    && logs[n + 1] == Recorded(logs[n], run[n], acts[n], t, hs)
  }

  /** A run in which thread `t` serves a request with the handles `hs`, and `logs` is the request's
      growing record. */
  ghost predicate RequestRun(run: seq<State>, acts: seq<Action>, logs: seq<seq<Io.Use>>, t: Tid, hs: seq<Hid>) {
    && |run| == |logs| == |acts| + 1
    && Initial(run[0]) && Handles(run[0], hs) && logs[0] == []
    && forall n :: 0 <= n < |acts| ==> Moves(run, acts, logs, t, hs, n)
  }

  /** Both views of the handles agree, but for the one that a call is being made with. */
  ghost predicate Tracks(log: seq<Io.Use>, s: State, t: Tid, hs: seq<Hid>) {
    && Io.Disciplined(log)
    && if Calling(s, t, hs) then
         var u := UseOf(s.threads[t].op, hs);
         Mirrors(log, s, hs, u.slot) && Io.Disciplined(log + [u])
       else Mirrors(log, s, hs, -1)
  }

  /** A step changes the caller's view of no handle but that of a call that returns. */
  lemma {:induction false} StepClient(s: State, u: Tid, h: Hid)
    requires Inv(s) && u < |s.threads| && Fits(s.threads[u].op, s.threads[u].pc) && h < |s.client|
    requires s.threads[u].pc == Return ==> HandleOf(s.threads[u].op) != Some(h)
    ensures |Step(s, u).client| == |s.client| && Step(s, u).client[h] == s.client[h]
  {
  }

  /** A step changes its own thread only. */
  lemma {:induction false} StepThreads(s: State, u: Tid, t: Tid)
    requires Shape(s) && u < |s.threads| && Fits(s.threads[u].op, s.threads[u].pc) && t < |s.threads| && t != u
    ensures |Step(s, u).threads| == |s.threads| && Step(s, u).threads[t] == s.threads[t]
  {
    match s.threads[u].pc
    case Lock => assert Step(s, u) == DoLock(s, u);
    case CheckStatus => assert Step(s, u) == DoCheckStatus(s, u);
    case CheckPrev => assert Step(s, u) == DoCheckPrev(s, u);
    case SavePrev => assert Step(s, u) == DoSavePrev(s, u);
    case AwaitOwn => assert Step(s, u) == DoAwaitOwn(s, u);
    case CheckOwn => assert Step(s, u) == DoCheckOwn(s, u);
    case Return => assert Step(s, u) == DoReturn(s, u);
    case _ =>
  }

  /** A call lasts until it returns. */
  lemma {:induction false} StepKeepsCall(s: State, u: Tid)
    requires Shape(s) && u < |s.threads| && Fits(s.threads[u].op, s.threads[u].pc)
    ensures |Step(s, u).threads| == |s.threads| && Step(s, u).threads[u].op == s.threads[u].op
    ensures Step(s, u).threads[u].pc == Idle <==> s.threads[u].pc == Idle || s.threads[u].pc == Return
  {
    match s.threads[u].pc
    case Lock => assert Step(s, u) == DoLock(s, u);
    case CheckStatus => assert Step(s, u) == DoCheckStatus(s, u);
    case CheckPrev => assert Step(s, u) == DoCheckPrev(s, u);
    case SavePrev => assert Step(s, u) == DoSavePrev(s, u);
    case AwaitOwn => assert Step(s, u) == DoAwaitOwn(s, u);
    case CheckOwn => assert Step(s, u) == DoCheckOwn(s, u);
    case LoadStatus => assert Step(s, u) == DoLoadStatus(s, u);
    case Return => assert Step(s, u) == DoReturn(s, u);
    case _ =>
  }

  /** The handle of a call that another thread is about to return from is none of the request's. */
  lemma {:induction false} NotOurs(log: seq<Io.Use>, s: State, t: Tid, u: Tid, hs: seq<Hid>, j: nat)
    requires Inv(s) && Tracks(log, s, t, hs) && Handles(s, hs) && u < |s.threads| && u != t && j < |hs|
    requires s.threads[u].pc == Return
    ensures HandleOf(s.threads[u].op) != Some(hs[j])
  {
    assert ThreadInv(s, u);
    if Calling(s, t, hs) && UseOf(s.threads[t].op, hs).slot == j {
      assert ThreadInv(s, t);
    } else {
      assert MirrorsAt(log, s, hs, j);
    }
  }

  lemma {:induction false} MirrorsKept(log: seq<Io.Use>, s: State, s': State, hs: seq<Hid>, busy: int)
    requires Mirrors(log, s, hs, busy) && Handles(s', hs)
    requires forall j :: 0 <= j < |hs| ==> s'.client[hs[j]] == s.client[hs[j]]
    ensures Mirrors(log, s', hs, busy)
  {
    forall j | 0 <= j < |hs| && j != busy ensures MirrorsAt(log, s', hs, j) { assert MirrorsAt(log, s, hs, j); }
  }

  /** A call with one of the request's handles. */
  lemma {:induction false} OwnCall(log: seq<Io.Use>, s: State, t: Tid, hs: seq<Hid>, op: Op)
    requires Inv(s) && Tracks(log, s, t, hs) && Handles(s, hs) && Concerns(op, hs)
    requires t < |s.threads| && s.threads[t].pc == Idle && Io.Disciplined(log + [UseOf(op, hs)])
    ensures MayCall(s, t, op) && Tracks(log, Enter(s, t, op), t, hs)
  {
    var u := UseOf(op, hs);
    NextCallIsAllowed(log, u, s, t, hs, if op.Post? then op.req else Request(0, 0, 0));
    assert op == CallOf(u, hs[u.slot], if op.Post? then op.req else Request(0, 0, 0));
  }

  /** Another call, by whatever thread. */
  lemma {:induction false} OtherCall(log: seq<Io.Use>, s: State, t: Tid, hs: seq<Hid>, u: Tid, op: Op)
    requires Inv(s) && Tracks(log, s, t, hs) && Handles(s, hs) && !Concerns(op, hs) && MayCall(s, u, op)
    ensures Tracks(log, Enter(s, u, op), t, hs)
  {
    var s' := Enter(s, u, op);
    InvEnter(s, u, op);
    forall j | 0 <= j < |hs| ensures s'.client[hs[j]] == s.client[hs[j]] { assert hs[j] in hs; }
    MirrorsKept(log, s, s', hs, if Calling(s, t, hs) then UseOf(s.threads[t].op, hs).slot else -1);
  }

  lemma {:induction false} OtherStep(log: seq<Io.Use>, s: State, t: Tid, hs: seq<Hid>, u: Tid)
    requires Inv(s) && Tracks(log, s, t, hs) && Handles(s, hs) && u < |s.threads| && u != t
    requires Fits(s.threads[u].op, s.threads[u].pc)
    ensures Tracks(log, Step(s, u), t, hs)
  {
    InvStep(s, u);
    if t < |s.threads| { StepThreads(s, u, t); } else { StepKeepsCall(s, u); }
    forall j | 0 <= j < |hs| ensures j < |hs| && Step(s, u).client[hs[j]] == s.client[hs[j]] {
      if s.threads[u].pc == Return { NotOurs(log, s, t, u, hs, j); }
      StepClient(s, u, hs[j]);
    }
    MirrorsKept(log, s, Step(s, u), hs, if Calling(s, t, hs) then UseOf(s.threads[t].op, hs).slot else -1);
  }

  /** A step of the request's thread other than the return from a call with its handles. */
  lemma {:induction false} InnerTracked(log: seq<Io.Use>, s: State, t: Tid, hs: seq<Hid>)
    requires Inv(s) && Tracks(log, s, t, hs) && Handles(s, hs) && t < |s.threads|
    requires Fits(s.threads[t].op, s.threads[t].pc) && !(Calling(s, t, hs) && s.threads[t].pc == Return)
    ensures Tracks(log, Step(s, t), t, hs)
  {
    InvStep(s, t);
    StepKeepsCall(s, t);
    forall j | 0 <= j < |hs| ensures j < |hs| && Step(s, t).client[hs[j]] == s.client[hs[j]] {
      assert hs[j] in hs;
      StepClient(s, t, hs[j]);
    }
    MirrorsKept(log, s, Step(s, t), hs, if Calling(s, t, hs) then UseOf(s.threads[t].op, hs).slot else -1);
  }

  lemma {:induction false} OwnReturn(log: seq<Io.Use>, s: State, t: Tid, hs: seq<Hid>)
    requires Inv(s) && Tracks(log, s, t, hs) && Handles(s, hs) && Calling(s, t, hs) && s.threads[t].pc == Return
    ensures Tracks(Recorded(log, s, Run(t), t, hs), DoReturn(s, t), t, hs)
  {
    var op := s.threads[t].op;
    var u := UseOf(op, hs);
    assert op == CallOf(u, hs[u.slot], if op.Post? then op.req else Request(0, 0, 0));
    ReturnIsMirrored(log, u, s, t, hs, if op.Post? then op.req else Request(0, 0, 0));
    assert !Calling(DoReturn(s, t), t, hs);
  }

  lemma {:induction false} TracksNext(log: seq<Io.Use>, s: State, a: Action, t: Tid, hs: seq<Hid>)
    requires Inv(s) && Tracks(log, s, t, hs) && Handles(s, hs) && Allowed(log, s, a, t, hs)
    ensures Enabled(s, a) && Effect(s, a) == Apply(s, a)
    ensures Tracks(Recorded(log, s, a, t, hs), Apply(s, a), t, hs)
  {
    match a
    case Call(u, op) =>
      if Concerns(op, hs) { OwnCall(log, s, t, hs, op); } else { OtherCall(log, s, t, hs, u, op); }
    case Run(u) =>
      if u != t {
        OtherStep(log, s, t, hs, u);
      } else if Calling(s, t, hs) && s.threads[t].pc == Return {
        OwnReturn(log, s, t, hs);
      } else {
        InnerTracked(log, s, t, hs);
      }
    case Hardware(i, e) =>
      InvFinish(s, i, e);
      MirrorsKept(log, s, Finish(s, i, e), hs, if Calling(s, t, hs) then UseOf(s.threads[t].op, hs).slot else -1);
  }

  lemma {:induction false} TracksInitial(s: State, t: Tid, hs: seq<Hid>)
    requires Initial(s) && Handles(s, hs)
    ensures Tracks([], s, t, hs)
  {
    assert !Calling(s, t, hs);
    forall j | 0 <= j < |hs| ensures MirrorsAt([], s, hs, j) {}
  }

  lemma {:induction false} RequestTracked(run: seq<State>, acts: seq<Action>, logs: seq<seq<Io.Use>>,
                                          t: Tid, hs: seq<Hid>, n: nat)
    requires RequestRun(run, acts, logs, t, hs) && n < |run|
    ensures Inv(run[n]) && Tracks(logs[n], run[n], t, hs) && Handles(run[n], hs)
    decreases n
  {
    if n == 0 {
      InvInitial(run[0]);
      TracksInitial(run[0], t, hs);
    } else {
      RequestTracked(run, acts, logs, t, hs, n - 1);
      assert Moves(run, acts, logs, t, hs, n - 1);
      TracksNext(logs[n - 1], run[n - 1], acts[n - 1], t, hs);
      InvApply(run[n - 1], acts[n - 1]);
    }
  }

  /** A request whose calls fit its own record discharges the ring's discipline: whatever the other
      threads and the hardware do in between, the run is a proper run of the ring. */
  lemma {:induction false} DisciplineIsKept(run: seq<State>, acts: seq<Action>, logs: seq<seq<Io.Use>>,
                                            t: Tid, hs: seq<Hid>)
    requires RequestRun(run, acts, logs, t, hs)
    ensures IsRun(run, acts)
  {
    forall n | 0 <= n < |acts| ensures StepAt(run, acts, n) {
      RequestTracked(run, acts, logs, t, hs, n);
      assert Moves(run, acts, logs, t, hs, n);
      TracksNext(logs[n], run[n], acts[n], t, hs);
    }
  }

  /** Whenever the request is outside the library and its record has no open post, as at its return,
      no slot of the ring points to any of its handles: their memory may be reused. */
  lemma {:induction false} NoSlotKnowsTheHandles(run: seq<State>, acts: seq<Action>, logs: seq<seq<Io.Use>>,
                                                 t: Tid, hs: seq<Hid>, n: nat, i: Slot, j: nat)
    requires RequestRun(run, acts, logs, t, hs) && n < |run| && !Calling(run[n], t, hs)
    requires j < |hs| && !Io.Open(logs[n], j)
    ensures Shape(run[n]) && run[n].status[i] != Ptr(hs[j])
  {
    RequestTracked(run, acts, logs, t, hs, n);
    assert MirrorsAt(logs[n], run[n], hs, j);
    assert SlotInv(run[n], i);
  }
}
