/** The command queue of core/rtw_cmd.c as interleaved atomic steps.

    Any number of submitters and one command thread share a queue, a semaphore and one
    sctx_mutex per adapter.  A submission is named by a fresh Id: the same Id names the
    cmd_obj it allocates and the submit_ctx on its stack.  Memory is explicit: `cmd` is None
    once the object has been freed and `ctx` is None once the stack frame is gone, and a step
    that follows a pointer to either of these is a Fault. */
module CmdProtocol {
  import opened Wrappers

  type Id = nat

  /** submit_ctx.status. */
  datatype Status = Submitted | DoneSuccess | DoneCmdError | DoneCmdDrop

  /** cmd_obj.res. */
  datatype Res = Unset | H2CSuccess | H2CFailed | ParametersError | Dropped | EnqHead

  datatype Ctx = Ctx(status: Status, signalled: bool)

  /** What the filter and the thread read of a command: whether it is larger than MAX_CMDSZ,
      whether its code has a handler, whether the filter lets it pass before hw init,
      and its no_io flag. */
  datatype Kind = Kind(oversize: bool, handled: bool, allowed: bool, noIo: bool)

  datatype Cmd = Cmd(kind: Kind, padapter: nat, sctx: Option<Id>, res: Res)

  datatype SubPc = Filter | Insert | Up | Waiting | WantLock | Check | Unlock | Leaving | Returned

  /** One submission.  `completions` counts the times its context was completed and
      `detached` records that the waiter cleared cmd_obj.sctx (both are history). */
  datatype Sub = Sub(adapter: nat, waits: bool, pc: SubPc, cmd: Option<Cmd>, ctx: Option<Ctx>,
                     completions: nat, detached: bool)

  datatype ThreadPc =
    | Down | CheckRun | CheckEmpty | NextRun | Dequeue | Classify | Execute
    | Lock | Done | Complete | Clear | Release | Free | Exit | Halted

  datatype Owner = Thread | Waiter(id: Id)

  /** `accepted` and `retired` are history: the commands in insertion order, and those the
      thread has finished with.  `putBack` says that the thread last went back to the
      semaphore because it could not leave LPS, and `draining` that it has left its loop. */
  datatype State = State(
    subs: map<Id, Sub>, queue: seq<Id>, accepted: seq<Id>, retired: seq<Id>,
    sema: nat, running: bool, mutex: map<nat, Owner>,
    tpc: ThreadPc, hand: Option<Id>, draining: bool, putBack: bool)

  /** What the environment decides during one step. */
  datatype Env = Env(timeout: bool, hwInit: bool, downFails: bool, cannotRun: bool,
                     lpsLeft: bool, ret: Res, callbackFrees: bool)

  datatype Outcome = Blocked | Fault | Next(state: State)

  const INIT: State := State(map[], [], [], [], 0, true, map[], Down, None, false, false)

  // ---------------------------------------------------------------- submitters

  /** rtw_zmalloc of the object, rtw_sctx_init and the assignment of cmdobj->sctx. */
  function Submit(s: State, id: Id, adapter: nat, waits: bool, kind: Kind): Outcome {
    if id in s.subs then Blocked
    else
      var cmd := Cmd(kind, 0, if waits then Some(id) else None, Unset);
      var ctx := if waits then Some(Ctx(Submitted, false)) else None;
      Next(s.(subs := s.subs[id := Sub(adapter, waits, Filter, Some(cmd), ctx, 0, false)]))
  }

  /** rtw_cmd_filter. */
  predicate Passes(running: bool, kind: Kind, hwInit: bool) {
    (hwInit || kind.allowed || kind.noIo) && running
  }

  /** rtw_enqueue_cmd up to the insertion.  A refused object is freed.  The caller returns, except that
      the result for an object that only its size forbids is still that of the filter, success: a caller
      that waits goes on to wait. */
  function FilterStep(s: State, id: Id, env: Env): Outcome
    requires id in s.subs
  {
    var sub := s.subs[id];
    if sub.cmd.None? then Fault
    else
      var cmd := sub.cmd.value.(padapter := sub.adapter);
      var sub' :=
        if !Passes(s.running, cmd.kind, env.hwInit) then sub.(cmd := None, ctx := None, pc := Returned)
        else if !cmd.kind.oversize then sub.(cmd := Some(cmd), pc := Insert)
        else if sub.waits then sub.(cmd := None, pc := Waiting)
        else sub.(cmd := None, ctx := None, pc := Returned);
      Next(s.(subs := s.subs[id := sub']))
  }

  /** The queue is an intrusive list, so every operation also touches neighbours. */
  predicate QueueLive(s: State) {
    forall q :: q in s.queue ==> q in s.subs && s.subs[q].cmd.Some?
  }

  function InsertStep(s: State, id: Id): Outcome
    requires id in s.subs
  {
    if s.subs[id].cmd.None? || !QueueLive(s) then Fault
    else
      Next(s.(subs := s.subs[id := s.subs[id].(pc := Up)],
              queue := s.queue + [id], accepted := s.accepted + [id]))
  }

  function UpStep(s: State, id: Id): Outcome
    requires id in s.subs
  {
    var pc := if s.subs[id].waits then Waiting else Returned;
    Next(s.(subs := s.subs[id := s.subs[id].(pc := pc)], sema := s.sema + 1))
  }

  /** rtw_sctx_wait returns on the signal or on a timeout. */
  function WaitStep(s: State, id: Id, env: Env): Outcome
    requires id in s.subs
  {
    var sub := s.subs[id];
    if sub.ctx.None? then Fault
    else if sub.ctx.value.signalled || env.timeout then Next(s.(subs := s.subs[id := sub.(pc := WantLock)]))
    else Blocked
  }

  function WaiterLockStep(s: State, id: Id): Outcome
    requires id in s.subs
  {
    var sub := s.subs[id];
    if sub.adapter in s.mutex then Blocked
    else Next(s.(subs := s.subs[id := sub.(pc := Check)], mutex := s.mutex[sub.adapter := Waiter(id)]))
  }

  /** if (sctx.status == RTW_SCTX_SUBMITTED) cmdobj->sctx = NULL; */
  function CheckStep(s: State, id: Id): Outcome
    requires id in s.subs
  {
    var sub := s.subs[id];
    if sub.ctx.None? then Fault
    else if sub.ctx.value.status != Submitted then Next(s.(subs := s.subs[id := sub.(pc := Unlock)]))
    else if sub.cmd.None? then Fault
    else
      var cmd := sub.cmd.value.(sctx := None);
      Next(s.(subs := s.subs[id := sub.(pc := Unlock, cmd := Some(cmd), detached := true)]))
  }

  function WaiterUnlockStep(s: State, id: Id): Outcome
    requires id in s.subs
  {
    var sub := s.subs[id];
    Next(s.(subs := s.subs[id := sub.(pc := Leaving)], mutex := s.mutex - {sub.adapter}))
  }

  function LeaveStep(s: State, id: Id): Outcome
    requires id in s.subs
  {
    Next(s.(subs := s.subs[id := s.subs[id].(pc := Returned, ctx := None)]))
  }

  function SubmitterStep(s: State, id: Id, env: Env): Outcome {
    if id !in s.subs then Blocked
    else
      match s.subs[id].pc
      case Filter => FilterStep(s, id, env)
      case Insert => InsertStep(s, id)
      case Up => UpStep(s, id)
      case Waiting => WaitStep(s, id, env)
      case WantLock => WaiterLockStep(s, id)
      case Check => CheckStep(s, id)
      case Unlock => WaiterUnlockStep(s, id)
      case Leaving => LeaveStep(s, id)
      case Returned => Blocked
  }

  // ---------------------------------------------------------------- command thread

  /** From the semaphore to the dequeue: rtw_cmd_thread outside of any command. */
  function DownStep(s: State, env: Env): Outcome {
    if env.downFails then Next(s.(tpc := Exit))
    else if s.sema > 0 then Next(s.(sema := s.sema - 1, tpc := CheckRun))
    else Blocked
  }

  function CheckRunStep(s: State, env: Env): Outcome {
    Next(s.(tpc := if env.cannotRun then Exit else CheckEmpty))
  }

  function CheckEmptyStep(s: State): Outcome {
    Next(s.(tpc := if s.queue == [] then Down else NextRun, putBack := false))
  }

  function NextRunStep(s: State, env: Env): Outcome {
    Next(s.(tpc := if env.cannotRun then Exit else Dequeue))
  }

  /** The drain goes straight to the completion of what it dequeues. */
  function DequeueStep(s: State): Outcome {
    if s.queue == [] then Next(s.(tpc := if s.draining then Halted else Down, putBack := false))
    else if !QueueLive(s) then Fault
    else Next(s.(queue := s.queue[1..], hand := Some(s.queue[0]), tpc := if s.draining then Lock else Classify))
  }

  function ExitStep(s: State): Outcome {
    Next(s.(running := false, draining := true, tpc := Dequeue))
  }

  /** The object in hand; every step below reads it. */
  predicate Holds(s: State) {
    s.hand.Some? && s.hand.value in s.subs && s.subs[s.hand.value].cmd.Some?
  }

  function HeldCmd(s: State): Cmd
    requires Holds(s)
  {
    s.subs[s.hand.value].cmd.value
  }

  function WithCmd(s: State, cmd: Cmd, pc: ThreadPc): State
    requires Holds(s)
  {
    s.(subs := s.subs[s.hand.value := s.subs[s.hand.value].(cmd := Some(cmd))], tpc := pc)
  }

  /** The checks before the handler; without LPS the command goes back to the head. */
  function ClassifyStep(s: State, env: Env): Outcome
    requires Holds(s)
  {
    var cmd := HeldCmd(s);
    if cmd.kind.oversize || !cmd.kind.handled then Next(WithCmd(s, cmd.(res := ParametersError), Lock))
    else if !Passes(s.running, cmd.kind, env.hwInit) then Next(WithCmd(s, cmd.(res := Dropped), Lock))
    else if cmd.kind.noIo || env.lpsLeft then Next(s.(tpc := Execute))
    else if !QueueLive(s) then Fault
    else
      Next(WithCmd(s, cmd.(res := EnqHead), Down).(queue := [s.hand.value] + s.queue, hand := None, putBack := true))
  }

  function ExecuteStep(s: State, env: Env): Outcome
    requires Holds(s)
  {
    Next(WithCmd(s, HeldCmd(s).(res := env.ret), Lock))
  }

  function ThreadLockStep(s: State): Outcome
    requires Holds(s)
  {
    if HeldCmd(s).padapter in s.mutex then Blocked
    else Next(s.(mutex := s.mutex[HeldCmd(s).padapter := Thread], tpc := Done))
  }

  /** rtw_sctx_done_err in its three writes, the first two through the pointer. */
  function DoneStep(s: State): Outcome
    requires Holds(s)
  {
    if HeldCmd(s).sctx.None? then Next(s.(tpc := Release))
    else
      var c := HeldCmd(s).sctx.value;
      if c !in s.subs || s.subs[c].ctx.None? then Fault
      else
        var status := if s.draining then DoneCmdDrop else if HeldCmd(s).res == H2CSuccess then DoneSuccess else DoneCmdError;
        var sub := s.subs[c].(ctx := Some(s.subs[c].ctx.value.(status := status)), completions := s.subs[c].completions + 1);
        Next(s.(subs := s.subs[c := sub], tpc := Complete))
  }

  function CompleteStep(s: State): Outcome
    requires Holds(s)
  {
    if HeldCmd(s).sctx.None? then Fault
    else
      var c := HeldCmd(s).sctx.value;
      if c !in s.subs || s.subs[c].ctx.None? then Fault
      else
        var sub := s.subs[c].(ctx := Some(s.subs[c].ctx.value.(signalled := true)));
        Next(s.(subs := s.subs[c := sub], tpc := Clear))
  }

  function ClearStep(s: State): Outcome
    requires Holds(s)
  {
    Next(WithCmd(s, HeldCmd(s).(sctx := None), Release))
  }

  function ReleaseStep(s: State): Outcome
    requires Holds(s)
  {
    Next(s.(mutex := s.mutex - {HeldCmd(s).padapter}, tpc := Free))
  }

  /** A callback may keep the object; the drain always frees it. */
  function FreeStep(s: State, env: Env): Outcome
    requires Holds(s)
  {
    var id := s.hand.value;
    var cmd := if s.draining || env.callbackFrees then None else s.subs[id].cmd;
    Next(s.(subs := s.subs[id := s.subs[id].(cmd := cmd)], hand := None, retired := s.retired + [id],
            tpc := if s.draining then Dequeue else NextRun))
  }

  function HandStep(s: State, env: Env): Outcome
    requires Holds(s)
  {
    match s.tpc
    case Classify => ClassifyStep(s, env)
    case Execute => ExecuteStep(s, env)
    case Lock => ThreadLockStep(s)
    case Done => DoneStep(s)
    case Complete => CompleteStep(s)
    case Clear => ClearStep(s)
    case Release => ReleaseStep(s)
    case Free => FreeStep(s, env)
    case _ => Blocked
  }

  function ThreadStep(s: State, env: Env): Outcome {
    match s.tpc
    case Down => DownStep(s, env)
    case CheckRun => CheckRunStep(s, env)
    case CheckEmpty => CheckEmptyStep(s)
    case NextRun => NextRunStep(s, env)
    case Dequeue => DequeueStep(s)
    case Exit => ExitStep(s)
    case Halted => Blocked
    case _ => if Holds(s) then HandStep(s, env) else Fault
  }

  // ---------------------------------------------------------------- runs

  datatype Action =
    | NewSubmission(id: Id, adapter: nat, waits: bool, kind: Kind)
    | AdvanceSubmitter(id: Id, env: Env)
    | AdvanceThread(env: Env)
    | StopThread

  function Step(s: State, a: Action): Outcome {
    match a
    case NewSubmission(id, adapter, waits, kind) => Submit(s, id, adapter, waits, kind)
    case AdvanceSubmitter(id, env) => SubmitterStep(s, id, env)
    case AdvanceThread(env) => ThreadStep(s, env)
    case StopThread => Next(s.(sema := s.sema + 1))
  }

  /** No command that is waited for is larger than MAX_CMDSZ. */
  predicate WellSized(a: Action) { a.NewSubmission? ==> !(a.waits && a.kind.oversize) }

  predicate AllWellSized(schedule: seq<Action>) { forall a :: a in schedule ==> WellSized(a) }

  /** A schedule; an action that is blocked leaves the state as it is. */
  function Run(s: State, schedule: seq<Action>): Outcome
    decreases |schedule|
  {
    if schedule == [] then Next(s)
    else
      match Step(s, schedule[0])
      case Blocked => Run(s, schedule[1..])
      case Fault => Fault
      case Next(s') => Run(s', schedule[1..])
  }

  // ---------------------------------------------------------------- invariant

  function HandSeq(hand: Option<Id>): seq<Id> {
    if hand.Some? then [hand.value] else []
  }

  predicate NoDup(q: seq<Id>) { forall i, j :: 0 <= i < j < |q| ==> q[i] != q[j] }

  /** Commands processed, then the one in hand, then the queue, in insertion order. */
  predicate InOrder(retired: seq<Id>, hand: Option<Id>, queue: seq<Id>, accepted: seq<Id>) {
    retired + HandSeq(hand) + queue == accepted && NoDup(accepted)
  }

  predicate Conserved(s: State) { InOrder(s.retired, s.hand, s.queue, s.accepted) }

  function Pending(subs: map<Id, Sub>): set<Id> {
    set id | id in subs && subs[id].pc.Up?
  }

  /** What is queued is covered by the semaphore and by the submitters that have inserted but
      not yet upped, unless the thread went back to the semaphore to leave LPS first. */
  predicate Covered(tpc: ThreadPc, putBack: bool, queued: nat, sema: nat, pending: nat) {
    && (tpc.Down? ==> putBack || queued <= sema + pending)
    && (tpc.CheckRun? || tpc.CheckEmpty? ==> putBack || queued <= sema + 1 + pending)
    && (putBack && (tpc.Down? || tpc.CheckRun? || tpc.CheckEmpty?) ==> queued > 0)
  }

  predicate Woken(s: State) { Covered(s.tpc, s.putBack, |s.queue|, s.sema, |Pending(s.subs)|) }

  predicate InHandPc(pc: ThreadPc) {
    pc.Classify? || pc.Execute? || pc.Lock? || pc.Done? || pc.Complete? || pc.Clear? || pc.Release? || pc.Free?
  }

  predicate ThreadLocked(pc: ThreadPc) { pc.Done? || pc.Complete? || pc.Clear? || pc.Release? }

  predicate Known(accepted: seq<Id>, ids: set<Id>) {
    forall id :: id in accepted ==> id in ids
  }

  /** A mutex is held for its own adapter, by a waiter or by the thread with a command in hand. */
  predicate OwnerOk(subs: map<Id, Sub>, hand: Option<Id>, locked: bool, a: nat, owner: Owner) {
    match owner
    case Waiter(id) => id in subs && subs[id].adapter == a
    case Thread => hand.Some? && hand.value in subs && subs[hand.value].adapter == a && locked
  }

  predicate MutexOk(subs: map<Id, Sub>, hand: Option<Id>, locked: bool, mutex: map<nat, Owner>) {
    forall a :: a in mutex ==> OwnerOk(subs, hand, locked, a, mutex[a])
  }

  predicate Domains(s: State) {
    && Known(s.accepted, s.subs.Keys)
    && MutexOk(s.subs, s.hand, ThreadLocked(s.tpc), s.mutex)
    && (s.hand.Some? <==> InHandPc(s.tpc))
  }

  /** What the shared state says about one submission.  `phase` is the thread's program
      counter while it has this command in hand. */
  datatype View = View(sub: Sub, accepted: bool, retired: bool, phase: Option<ThreadPc>, owner: Option<Owner>)

  function ViewOf(s: State, id: Id): View
    requires id in s.subs
  {
    var a := s.subs[id].adapter;
    View(s.subs[id], id in s.accepted, id in s.retired,
         if s.hand == Some(id) then Some(s.tpc) else None,
         if a in s.mutex then Some(s.mutex[a]) else None)
  }

  /** The waiter has not yet looked at the status under the mutex. */
  predicate BeforeUnlock(pc: SubPc) {
    pc.Filter? || pc.Insert? || pc.Up? || pc.Waiting? || pc.WantLock? || pc.Check?
  }

  predicate Attached(sub: Sub) { sub.cmd.Some? && sub.cmd.value.sctx.Some? }

  predicate CommandOk(id: Id, v: View) {
    && (v.sub.pc.Filter? || v.sub.pc.Insert? ==> v.sub.cmd.Some? && !v.accepted)
    && (v.sub.pc.Filter? && v.sub.waits && v.sub.cmd.Some? ==> !v.sub.cmd.value.kind.oversize)
    && (v.sub.cmd.Some? && !v.sub.pc.Filter? ==> v.sub.cmd.value.padapter == v.sub.adapter)
    && (v.accepted && !v.retired ==> v.sub.cmd.Some?)
    && (v.sub.pc.Up? || v.sub.pc.Waiting? || v.sub.pc.WantLock? || v.sub.pc.Check? || v.sub.pc.Unlock? || v.sub.pc.Leaving?
        ==> v.accepted)
    && (v.retired || v.sub.completions > 0 || v.sub.detached || v.phase.Some? ==> v.accepted)
    && (Attached(v.sub) ==> v.sub.cmd.value.sctx.value == id && v.sub.waits && BeforeUnlock(v.sub.pc))
    && (v.owner == Some(Waiter(id)) <==> v.sub.pc.Check? || v.sub.pc.Unlock?)
  }

  predicate ContextOk(v: View) {
    var sub := v.sub;
    && (sub.ctx.Some? <==> sub.waits && !sub.pc.Returned?)
    && (sub.pc.Waiting? || sub.pc.WantLock? || sub.pc.Check? || sub.pc.Unlock? || sub.pc.Leaving? ==> sub.waits)
    && sub.completions <= 1
    && (sub.ctx.Some? && BeforeUnlock(sub.pc) && sub.completions == 0 ==> Attached(sub))
    && (sub.ctx.Some? ==> (sub.ctx.value.status == Submitted <==> sub.completions == 0))
    && (sub.ctx.Some? && sub.ctx.value.signalled ==> sub.completions == 1)
    && (sub.ctx.Some? && sub.completions == 1 ==> sub.ctx.value.signalled || v.phase == Some(Complete))
    && (sub.completions == 1 ==> sub.waits && !sub.detached)
    && (sub.detached ==> sub.waits && !BeforeUnlock(sub.pc))
    && (sub.waits && v.accepted && (v.retired || !BeforeUnlock(sub.pc)) ==> sub.completions == 1 || sub.detached)
  }

  predicate PhaseOk(v: View) {
    && (v.phase.Some? ==>
        var pc := v.phase.value;
        && !v.retired && v.sub.cmd.Some? && InHandPc(pc)
        && (ThreadLocked(pc) ==> v.owner == Some(Thread))
        && (pc.Complete? || pc.Clear? ==> Attached(v.sub) && v.sub.completions == 1)
        && (pc.Release? || pc.Free? ==> !Attached(v.sub)))
    && (Attached(v.sub) && v.sub.completions == 1 ==> v.phase == Some(Complete) || v.phase == Some(Clear))
    && (v.retired ==> !Attached(v.sub))
  }

  predicate ViewOk(id: Id, v: View) {
    CommandOk(id, v) && ContextOk(v) && PhaseOk(v)
  }

  predicate ViewsOk(s: State) {
    forall id :: id in s.subs ==> ViewOk(id, ViewOf(s, id))
  }

  predicate Global(s: State) { Domains(s) && Conserved(s) && Woken(s) }

  predicate Inv(s: State) { Global(s) && ViewsOk(s) }
}
