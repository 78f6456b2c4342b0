/** The DMA descriptor ring of src/vedma_main.S as a state machine.

    Every step of a thread is one access to shared memory of `ve_dma_post`, `ve_dma_poll` or
    `ve_dma_post_wait`; threads interleave freely with each other and with the hardware, which
    completes a running descriptor at any moment with any exception code.  Memory is
    sequentially consistent. */
module DmaRing {
  import opened Bytes

  const NDESC: nat := 128
  const EAGAIN: int := 11
  /** `handle->status` of a request whose result has not been stored. */
  const NO_RESULT: int := -1

  type Slot = i: nat | i < NDESC
  type Tid = nat
  type Hid = nat

  datatype Request = Request(dst: int, src: int, size: nat)

  /** The third descriptor word: the low half of the size below the SYNC flag. */
  function ControlWord(size: nat): nat { size % 0x1_0000_0000 + 8 * 0x1_0000_0000 }

  /** The first descriptor word: nothing started, bit 0 set by the starter, or bit 1 set by the
      hardware with the exception code above it.  `serial` numbers the started requests. */
  datatype Phase = Unused | Running(serial: nat) | Complete(serial: nat, exc: nat)
  datatype Desc = Desc(dst: int, src: int, ctl: int, phase: Phase)

  /** `vedma_status[i]`: 0, 1 (the owner is recorded for the proofs only), or a handle. */
  datatype Status = Free | Sync(owner: Tid) | Ptr(handle: Hid)
  datatype Handle = Handle(status: int, index: Slot)

  datatype Op = Post(h: Hid, req: Request) | PostWait(wreq: Request) | Poll(ph: Hid)
  datatype Pc =
    | Idle | Lock | ReadIndex | CheckStatus | CheckPrev | SavePrev | ClearPrev
    | WriteDst | WriteSrc | WriteCtl | Start | InitStatus | InitIndex | SetStatus | BumpIndex
    | Unlock | AwaitOwn | ClearOwn | LoadStatus | LoadIndex | CheckOwn | ClearPolled | Return

  /** Registers of a thread; `serial` is the number of the request it last started. */
  datatype Thread = Thread(op: Op, pc: Pc, idx: Slot, word: nat, ret: int, serial: nat)

  /** How the caller of the library regards one of its handles. */
  datatype Client = Rest | Posting(caller: Tid) | Outstanding | Polling(caller: Tid)

  datatype Owner = ByHandle(h: Hid) | ByThread(t: Tid)
  datatype Started = Started(req: Request, owner: Owner)

  /** The five shared variables of the ring, the handles and the threads; then what the proofs
      remember: the caller's view of each handle, the number of the request last posted with it,
      all requests started, the exception code the hardware gave to each, the numbers whose
      completion bit some thread has read, and the results that calls have returned. */
  datatype State = State(
    lock: Option<Tid>, index: Slot, status: seq<Status>, desc: seq<Desc>,
    handles: seq<Handle>, threads: seq<Thread>,
    client: seq<Client>, serialOf: seq<nat>, started: seq<Started>,
    outcome: map<nat, nat>, seen: set<nat>, reported: map<nat, int>)

  ghost predicate Shape(s: State) {
    && |s.status| == |s.desc| == NDESC
    && |s.client| == |s.serialOf| == |s.handles|
    && (forall i :: 0 <= i < NDESC && s.status[i].Ptr? ==> s.status[i].handle < |s.handles|)
    && (forall t :: 0 <= t < |s.threads| ==> OpShape(s, s.threads[t].op))
  }

  ghost predicate OpShape(s: State, op: Op) {
    match op
    case Post(h, _) => h < |s.handles|
    case PostWait(_) => true
    case Poll(h) => h < |s.handles|
  }

  function RequestOf(op: Op): Request
    requires !op.Poll?
  {
    if op.Post? then op.req else op.wreq
  }

  function OwnerOf(t: Tid, op: Op): Owner {
    if op.Post? then ByHandle(op.h) else ByThread(t)
  }

  function Put(s: State, t: Tid, th: Thread): State
    requires t < |s.threads|
  {
    s.(threads := s.threads[t := th])
  }

  // ---- calls and returns -------------------------------------------------------------------

  /** The discipline of the callers: a handle is posted only while at rest, and polled only
      between a successful post and the report of its completion, by one thread at a time. */
  ghost predicate MayCall(s: State, t: Tid, op: Op) {
    && t < |s.threads| && s.threads[t].pc == Idle
    && OpShape(s, op)
    && match op
       case Post(h, _) => h < |s.client| && s.client[h] == Rest
       case PostWait(_) => true
       case Poll(h) => h < |s.client| && s.client[h] == Outstanding
  }

  /** Entering a call, whether or not the discipline allows it. */
  function Enter(s: State, t: Tid, op: Op): State
    requires t < |s.threads|
    requires !op.PostWait? ==> (if op.Post? then op.h else op.ph) < |s.client|
  {
    var s' := Put(s, t, s.threads[t].(op := op, pc := Lock));
    match op
    case Post(h, _) => s'.(client := s.client[h := Posting(t)])
    case PostWait(_) => s'
    case Poll(h) => s'.(client := s.client[h := Polling(t)])
  }

  function DoReturn(s: State, t: Tid): State
    requires Shape(s) && t < |s.threads|
  {
    var th := s.threads[t];
    var s' := Put(s, t, th.(pc := Idle));
    match th.op
    case Post(h, _) => s'.(client := s.client[h := if th.ret == 0 then Outstanding else Rest])
    case PostWait(_) => s'.(reported := s.reported[th.serial := th.ret])
    case Poll(h) =>
      if th.ret == -EAGAIN then s'.(client := s.client[h := Outstanding])
      else s'.(client := s.client[h := Rest], reported := s.reported[s.serialOf[h] := th.ret])
  }

  // ---- steps shared by post and post_wait --------------------------------------------------

  function DoLock(s: State, t: Tid): State
    requires t < |s.threads|
  {
    var th := s.threads[t];
    if s.lock.Some? then s
    else Put(s.(lock := Some(t)), t, th.(pc := if th.op.Poll? then LoadStatus else ReadIndex))
  }

  function DoReadIndex(s: State, t: Tid): State
    requires t < |s.threads|
  {
    Put(s, t, s.threads[t].(idx := s.index, pc := CheckStatus))
  }

  /** Post gives up on a slot marked 1; post_wait reads the mark again, lock in hand. */
  function DoCheckStatus(s: State, t: Tid): State
    requires Shape(s) && t < |s.threads|
  {
    var th := s.threads[t];
    match s.status[th.idx]
    case Free => Put(s, t, th.(pc := WriteDst))
    case Ptr(_) => Put(s, t, th.(pc := CheckPrev))
    case Sync(_) => if th.op.PostWait? then s else Put(s, t, th.(ret := -EAGAIN, pc := Unlock))
  }

  /** Post gives up on an uncompleted descriptor; post_wait reads it again, lock in hand. */
  function DoCheckPrev(s: State, t: Tid): State
    requires Shape(s) && t < |s.threads|
  {
    var th := s.threads[t];
    match s.desc[th.idx].phase
    case Complete(k, e) => Put(s.(seen := s.seen + {k}), t, th.(word := e, pc := SavePrev))
    case _ => if th.op.PostWait? then s else Put(s, t, th.(ret := -EAGAIN, pc := Unlock))
  }

  function DoSavePrev(s: State, t: Tid): State
    requires Shape(s) && t < |s.threads|
  {
    var th := s.threads[t];
    match s.status[th.idx]
    case Ptr(h) => Put(s.(handles := s.handles[h := s.handles[h].(status := th.word)]), t, th.(pc := ClearPrev))
    case _ => s
  }

  function DoClearPrev(s: State, t: Tid): State
    requires Shape(s) && t < |s.threads|
  {
    var th := s.threads[t];
    Put(s.(status := s.status[th.idx := Free]), t, th.(pc := WriteDst))
  }

  function PutDesc(s: State, i: Slot, d: Desc): State
    requires Shape(s)
  {
    s.(desc := s.desc[i := d])
  }

  function DoWriteDst(s: State, t: Tid): State
    requires Shape(s) && t < |s.threads| && !s.threads[t].op.Poll?
  {
    var th := s.threads[t];
    Put(PutDesc(s, th.idx, s.desc[th.idx].(dst := RequestOf(th.op).dst)), t, th.(pc := WriteSrc))
  }

  function DoWriteSrc(s: State, t: Tid): State
    requires Shape(s) && t < |s.threads| && !s.threads[t].op.Poll?
  {
    var th := s.threads[t];
    Put(PutDesc(s, th.idx, s.desc[th.idx].(src := RequestOf(th.op).src)), t, th.(pc := WriteCtl))
  }

  function DoWriteCtl(s: State, t: Tid): State
    requires Shape(s) && t < |s.threads| && !s.threads[t].op.Poll?
  {
    var th := s.threads[t];
    Put(PutDesc(s, th.idx, s.desc[th.idx].(ctl := ControlWord(RequestOf(th.op).size))), t, th.(pc := Start))
  }

  function DoStart(s: State, t: Tid): State
    requires Shape(s) && t < |s.threads| && !s.threads[t].op.Poll?
  {
    var th := s.threads[t];
    var k := |s.started|;
    var s1 := PutDesc(s, th.idx, s.desc[th.idx].(phase := Running(k)));
    var s2 := s1.(started := s.started + [Started(RequestOf(th.op), OwnerOf(t, th.op))],
                  serialOf := if th.op.Post? then s.serialOf[th.op.h := k] else s.serialOf);
    Put(s2, t, th.(serial := k, pc := if th.op.Post? then InitStatus else SetStatus))
  }

  function DoInitStatus(s: State, t: Tid): State
    requires Shape(s) && t < |s.threads| && s.threads[t].op.Post?
  {
    var th := s.threads[t];
    var h := th.op.h;
    Put(s.(handles := s.handles[h := s.handles[h].(status := NO_RESULT)]), t, th.(pc := InitIndex))
  }

  function DoInitIndex(s: State, t: Tid): State
    requires Shape(s) && t < |s.threads| && s.threads[t].op.Post?
  {
    var th := s.threads[t];
    var h := th.op.h;
    Put(s.(handles := s.handles[h := s.handles[h].(index := th.idx)]), t, th.(pc := SetStatus))
  }

  function DoSetStatus(s: State, t: Tid): State
    requires Shape(s) && t < |s.threads| && !s.threads[t].op.Poll?
  {
    var th := s.threads[t];
    var mark := if th.op.Post? then Ptr(th.op.h) else Sync(t);
    Put(s.(status := s.status[th.idx := mark]), t, th.(pc := BumpIndex))
  }

  function DoBumpIndex(s: State, t: Tid): State
    requires t < |s.threads|
  {
    var th := s.threads[t];
    Put(s.(index := (th.idx + 1) % NDESC), t, th.(ret := 0, pc := Unlock))
  }

  function DoUnlock(s: State, t: Tid): State
    requires t < |s.threads|
  {
    var th := s.threads[t];
    Put(s.(lock := None), t, th.(pc := if th.op.PostWait? then AwaitOwn else Return))
  }

  /** post_wait reads its own descriptor, and then clears its mark, without the lock. */
  function DoAwaitOwn(s: State, t: Tid): State
    requires Shape(s) && t < |s.threads|
  {
    var th := s.threads[t];
    match s.desc[th.idx].phase
    case Complete(k, e) => Put(s.(seen := s.seen + {k}), t, th.(word := e, pc := ClearOwn))
    case _ => s
  }

  function DoClearOwn(s: State, t: Tid): State
    requires Shape(s) && t < |s.threads|
  {
    var th := s.threads[t];
    Put(s.(status := s.status[th.idx := Free]), t, th.(ret := th.word, pc := Return))
  }

  // ---- steps of poll -----------------------------------------------------------------------

  function DoLoadStatus(s: State, t: Tid): State
    requires Shape(s) && t < |s.threads| && s.threads[t].op.Poll?
  {
    var th := s.threads[t];
    var result := s.handles[th.op.ph].status;
    if result != NO_RESULT then Put(s, t, th.(ret := result, pc := Unlock))
    else Put(s, t, th.(pc := LoadIndex))
  }

  function DoLoadIndex(s: State, t: Tid): State
    requires Shape(s) && t < |s.threads| && s.threads[t].op.Poll?
  {
    var th := s.threads[t];
    Put(s, t, th.(idx := s.handles[th.op.ph].index, pc := CheckOwn))
  }

  function DoCheckOwn(s: State, t: Tid): State
    requires Shape(s) && t < |s.threads|
  {
    var th := s.threads[t];
    match s.desc[th.idx].phase
    case Complete(k, e) => Put(s.(seen := s.seen + {k}), t, th.(word := e, pc := ClearPolled))
    case _ => Put(s, t, th.(ret := -EAGAIN, pc := Unlock))
  }

  /** The completion found by poll itself is not stored in the handle. */
  function DoClearPolled(s: State, t: Tid): State
    requires Shape(s) && t < |s.threads|
  {
    var th := s.threads[t];
    Put(s.(status := s.status[th.idx := Free]), t, th.(ret := th.word, pc := Unlock))
  }

  // ---- the machine -------------------------------------------------------------------------

  /** Which points of the code a call passes through. */
  predicate Fits(op: Op, pc: Pc) {
    match pc
    case LoadStatus | LoadIndex | CheckOwn | ClearPolled => op.Poll?
    case ReadIndex | CheckStatus | CheckPrev | SavePrev | ClearPrev | WriteDst | WriteSrc
      | WriteCtl | Start | SetStatus | BumpIndex => !op.Poll?
    case InitStatus | InitIndex => op.Post?
    case AwaitOwn | ClearOwn => op.PostWait?
    case Idle | Lock | Unlock | Return => true
  }

  function Step(s: State, t: Tid): State
    requires Shape(s) && t < |s.threads| && Fits(s.threads[t].op, s.threads[t].pc)
  {
    match s.threads[t].pc
    case Idle => s
    case Lock => DoLock(s, t)
    case ReadIndex => DoReadIndex(s, t)
    case CheckStatus => DoCheckStatus(s, t)
    case CheckPrev => DoCheckPrev(s, t)
    case SavePrev => DoSavePrev(s, t)
    case ClearPrev => DoClearPrev(s, t)
    case WriteDst => DoWriteDst(s, t)
    case WriteSrc => DoWriteSrc(s, t)
    case WriteCtl => DoWriteCtl(s, t)
    case Start => DoStart(s, t)
    case InitStatus => DoInitStatus(s, t)
    case InitIndex => DoInitIndex(s, t)
    case SetStatus => DoSetStatus(s, t)
    case BumpIndex => DoBumpIndex(s, t)
    case Unlock => DoUnlock(s, t)
    case AwaitOwn => DoAwaitOwn(s, t)
    case ClearOwn => DoClearOwn(s, t)
    case LoadStatus => DoLoadStatus(s, t)
    case LoadIndex => DoLoadIndex(s, t)
    case CheckOwn => DoCheckOwn(s, t)
    case ClearPolled => DoClearPolled(s, t)
    case Return => DoReturn(s, t)
  }

  /** The hardware completes the running descriptor `i` with exception code `e`. */
  function Finish(s: State, i: Slot, e: nat): State
    requires Shape(s) && s.desc[i].phase.Running?
  {
    var k := s.desc[i].phase.serial;
    PutDesc(s, i, s.desc[i].(phase := Complete(k, e))).(outcome := s.outcome[k := e])
  }

  datatype Action = Call(t: Tid, op: Op) | Run(tid: Tid) | Hardware(i: Slot, exc: nat)

  ghost predicate Enabled(s: State, a: Action) {
    && Shape(s)
    && match a
       case Call(t, op) => MayCall(s, t, op)
       case Run(t) => t < |s.threads| && Fits(s.threads[t].op, s.threads[t].pc)
       case Hardware(i, e) => s.desc[i].phase.Running? && e < 0x1_0000
  }

  ghost function Apply(s: State, a: Action): State
    requires Enabled(s, a)
  {
    match a
    case Call(t, op) => Enter(s, t, op)
    case Run(t) => Step(s, t)
    case Hardware(i, e) => Finish(s, i, e)
  }

  /** The ring as `ve_dma_init` leaves it, with every thread outside the library. */
  ghost predicate Initial(s: State) {
    && Shape(s)
    && s.lock == None && s.index == 0
    && (forall i :: 0 <= i < NDESC ==> s.status[i] == Free && s.desc[i].phase == Unused)
    && (forall t :: 0 <= t < |s.threads| ==> s.threads[t].pc == Idle)
    && (forall h :: 0 <= h < |s.client| ==> s.client[h] == Rest)
    && s.started == [] && s.outcome == map[] && s.seen == {} && s.reported == map[]
  }

  /** Action `n` was enabled and led to the next state. */
  ghost predicate StepAt(run: seq<State>, acts: seq<Action>, n: nat)
    requires n < |acts| && |run| == |acts| + 1
  {
    Enabled(run[n], acts[n]) && run[n + 1] == Apply(run[n], acts[n])
  }

  /** `run` is a sequence of states from an initial one, each the result of an enabled action. */
  ghost predicate IsRun(run: seq<State>, acts: seq<Action>) {
    && |run| == |acts| + 1
    && Initial(run[0])
    && forall n :: 0 <= n < |acts| ==> StepAt(run, acts, n)
  }
}
