/** The command queue as the driver keeps it: one object whose fields the submitters and the
    command thread update, one method for each section that runs without interruption.
    Every method is proved to take the step of the protocol that carries its name. */
module CmdThread {
  import opened CmdProtocol
  import opened CmdSafety
  import opened Wrappers

  datatype Progress = Stepped | Waits | Faulted

  /** A method that reports `p` has done exactly what the protocol step says. */
  predicate Took(p: Progress, step: Outcome, before: State, after: State) {
    match step
    case Next(s) => p.Stepped? && after == s
    case Blocked => p.Waits? && after == before
    case Fault => p.Faulted? && after == before
  }

  class CmdPriv {
    var subs: map<Id, Sub>
    var queue: seq<Id>
    var sema: nat
    var running: bool
    var mutex: map<nat, Owner>
    var tpc: ThreadPc
    var hand: Option<Id>
    var draining: bool
    ghost var accepted: seq<Id>
    ghost var retired: seq<Id>
    ghost var putBack: bool

    ghost function Snapshot(): State
      reads this
    {
      State(subs, queue, accepted, retired, sema, running, mutex, tpc, hand, draining, putBack)
    }

    constructor ()
      ensures Snapshot() == INIT
    {
      subs, queue, sema, running, mutex := map[], [], 0, true, map[];
      tpc, hand, draining := Down, None, false;
      accepted, retired, putBack := [], [], false;
    }

    /** _rtw_enqueue_cmd; the caller holds a live object. */
    method Enqueue(id: Id, toHead: bool)
      modifies this`queue
      ensures queue == if toHead then [id] + old(queue) else old(queue) + [id]
    {
      queue := if toHead then [id] + queue else queue + [id];
    }

    /** _rtw_dequeue_cmd. */
    method DequeueHead() returns (obj: Option<Id>)
      modifies this`queue
      ensures obj == if old(queue) == [] then None else Some(old(queue)[0])
      ensures queue == if old(queue) == [] then [] else old(queue)[1..]
    {
      if queue == [] {
        obj := None;
      } else {
        obj := Some(queue[0]);
        queue := queue[1..];
      }
    }

    method New(id: Id, adapter: nat, waits: bool, kind: Kind) returns (p: Progress)
      modifies this`subs
      ensures Took(p, Submit(old(Snapshot()), id, adapter, waits, kind), old(Snapshot()), Snapshot())
    {
      if id in subs { return Waits; }
      var cmd := Cmd(kind, 0, None, Unset);
      var ctx := None;
      if waits {
        cmd := cmd.(sctx := Some(id));
        ctx := Some(Ctx(Submitted, false));
      }
      subs := subs[id := Sub(adapter, waits, Filter, Some(cmd), ctx, 0, false)];
      p := Stepped;
    }

    method EnqueueFilter(id: Id, env: Env) returns (p: Progress)
      requires id in subs
      modifies this`subs
      ensures Took(p, FilterStep(old(Snapshot()), id, env), old(Snapshot()), Snapshot())
    {
      var sub := subs[id];
      if sub.cmd.None? { return Faulted; }
      var cmd := sub.cmd.value.(padapter := sub.adapter);
      var res := Passes(running, cmd.kind, env.hwInit);
      if !res || cmd.kind.oversize {
        sub := sub.(cmd := None);
        if res && sub.waits {
          sub := sub.(pc := Waiting);
        } else {
          sub := sub.(ctx := None, pc := Returned);
        }
      } else {
        sub := sub.(cmd := Some(cmd), pc := Insert);
      }
      subs := subs[id := sub];
      p := Stepped;
    }

    method EnqueueInsert(id: Id) returns (p: Progress)
      requires id in subs
      modifies this`subs, this`queue, this`accepted
      ensures Took(p, InsertStep(old(Snapshot()), id), old(Snapshot()), Snapshot())
    {
      if subs[id].cmd.None? || !QueueIsLinked() { return Faulted; }
      Enqueue(id, false);
      subs := subs[id := subs[id].(pc := Up)];
      accepted := accepted + [id];
      p := Stepped;
    }

    predicate QueueIsLinked()
      reads this
      ensures QueueIsLinked() == QueueLive(Snapshot())
    {
      forall q :: q in queue ==> q in subs && subs[q].cmd.Some?
    }

    method EnqueueUp(id: Id) returns (p: Progress)
      requires id in subs
      modifies this`subs, this`sema
      ensures Took(p, UpStep(old(Snapshot()), id), old(Snapshot()), Snapshot())
    {
      sema := sema + 1;
      subs := subs[id := subs[id].(pc := if subs[id].waits then Waiting else Returned)];
      p := Stepped;
    }

    method SctxWait(id: Id, env: Env) returns (p: Progress)
      requires id in subs
      modifies this`subs
      ensures Took(p, WaitStep(old(Snapshot()), id, env), old(Snapshot()), Snapshot())
    {
      if subs[id].ctx.None? { return Faulted; }
      if !subs[id].ctx.value.signalled && !env.timeout { return Waits; }
      subs := subs[id := subs[id].(pc := WantLock)];
      p := Stepped;
    }

    method WaiterLock(id: Id) returns (p: Progress)
      requires id in subs
      modifies this`subs, this`mutex
      ensures Took(p, WaiterLockStep(old(Snapshot()), id), old(Snapshot()), Snapshot())
    {
      var adapter := subs[id].adapter;
      if adapter in mutex { return Waits; }
      mutex := mutex[adapter := Waiter(id)];
      subs := subs[id := subs[id].(pc := Check)];
      p := Stepped;
    }

    method WaiterCheck(id: Id) returns (p: Progress)
      requires id in subs
      modifies this`subs
      ensures Took(p, CheckStep(old(Snapshot()), id), old(Snapshot()), Snapshot())
    {
      var sub := subs[id];
      if sub.ctx.None? { return Faulted; }
      if sub.ctx.value.status == Submitted {
        if sub.cmd.None? { return Faulted; }
        sub := sub.(cmd := Some(sub.cmd.value.(sctx := None)), detached := true);
      }
      subs := subs[id := sub.(pc := Unlock)];
      p := Stepped;
    }

    method WaiterUnlock(id: Id) returns (p: Progress)
      requires id in subs
      modifies this`subs, this`mutex
      ensures Took(p, WaiterUnlockStep(old(Snapshot()), id), old(Snapshot()), Snapshot())
    {
      mutex := mutex - {subs[id].adapter};
      subs := subs[id := subs[id].(pc := Leaving)];
      p := Stepped;
    }

    method WaiterReturn(id: Id) returns (p: Progress)
      requires id in subs
      modifies this`subs
      ensures Took(p, LeaveStep(old(Snapshot()), id), old(Snapshot()), Snapshot())
    {
      subs := subs[id := subs[id].(pc := Returned, ctx := None)];
      p := Stepped;
    }

    method AdvanceSubmitter(id: Id, env: Env) returns (p: Progress)
      modifies this
      ensures Took(p, SubmitterStep(old(Snapshot()), id, env), old(Snapshot()), Snapshot())
    {
      if id !in subs { return Waits; }
      match subs[id].pc
      case Filter => p := EnqueueFilter(id, env);
      case Insert => p := EnqueueInsert(id);
      case Up => p := EnqueueUp(id);
      case Waiting => p := SctxWait(id, env);
      case WantLock => p := WaiterLock(id);
      case Check => p := WaiterCheck(id);
      case Unlock => p := WaiterUnlock(id);
      case Leaving => p := WaiterReturn(id);
      case Returned => p := Waits;
    }

    /** The thread outside of any command: semaphore, stop flags, empty queue, dequeue. */
    method AdvanceIdle(env: Env) returns (p: Progress)
      requires !InHandPc(tpc)
      modifies this`tpc, this`sema, this`running, this`draining, this`putBack, this`queue, this`hand
      ensures Took(p, ThreadStep(old(Snapshot()), env), old(Snapshot()), Snapshot())
    {
      p := Stepped;
      match tpc
      case Down =>
        if env.downFails { tpc := Exit; }
        else if sema > 0 { sema, tpc := sema - 1, CheckRun; }
        else { p := Waits; }
      case CheckRun => tpc := if env.cannotRun then Exit else CheckEmpty;
      case CheckEmpty =>
        tpc := if queue == [] then Down else NextRun;
        putBack := false;
      case NextRun => tpc := if env.cannotRun then Exit else Dequeue;
      case Dequeue => p := TakeHead();
      case Exit => running, draining, tpc := false, true, Dequeue;
      case Halted => p := Waits;
    }

    method TakeHead() returns (p: Progress)
      modifies this`queue, this`hand, this`tpc, this`putBack
      ensures Took(p, DequeueStep(old(Snapshot())), old(Snapshot()), Snapshot())
    {
      if queue != [] && !QueueIsLinked() { return Faulted; }
      var obj := DequeueHead();
      if obj.None? {
        tpc := if draining then Halted else Down;
        putBack := false;
      } else {
        hand := obj;
        tpc := if draining then Lock else Classify;
      }
      p := Stepped;
    }

    /** Store a result in the object in hand. */
    method SetRes(res: Res, pc: ThreadPc)
      requires Holds(Snapshot())
      modifies this`subs, this`tpc
      ensures Snapshot() == old(WithCmd(Snapshot(), HeldCmd(Snapshot()).(res := res), pc))
    {
      var id := hand.value;
      subs := subs[id := subs[id].(cmd := Some(subs[id].cmd.value.(res := res)))];
      tpc := pc;
    }

    /** The checks before the handler and the put-back. */
    method ClassifyHeld(env: Env) returns (p: Progress)
      requires Holds(Snapshot())
      modifies this`subs, this`tpc, this`queue, this`hand, this`putBack
      ensures Took(p, ClassifyStep(old(Snapshot()), env), old(Snapshot()), Snapshot())
    {
      var id := hand.value;
      var kind := subs[id].cmd.value.kind;
      if kind.oversize || !kind.handled {
        SetRes(ParametersError, Lock);
      } else if !Passes(running, kind, env.hwInit) {
        SetRes(Dropped, Lock);
      } else if kind.noIo || env.lpsLeft {
        tpc := Execute;
      } else {
        if !QueueIsLinked() { return Faulted; }
        SetRes(EnqHead, Down);
        Enqueue(id, true);
        hand := None;
        putBack := true;
      }
      p := Stepped;
    }

    method ThreadLock() returns (p: Progress)
      requires Holds(Snapshot())
      modifies this`mutex, this`tpc
      ensures Took(p, ThreadLockStep(old(Snapshot())), old(Snapshot()), Snapshot())
    {
      var a := subs[hand.value].cmd.value.padapter;
      if a in mutex { return Waits; }
      mutex, tpc := mutex[a := Thread], Done;
      p := Stepped;
    }

    /** rtw_sctx_done / rtw_sctx_done_err, first write. */
    method SctxDone() returns (p: Progress)
      requires Holds(Snapshot())
      modifies this`subs, this`tpc
      ensures Took(p, DoneStep(old(Snapshot())), old(Snapshot()), Snapshot())
    {
      var cmd := subs[hand.value].cmd.value;
      if cmd.sctx.None? {
        tpc := Release;
      } else {
        var c := cmd.sctx.value;
        if c !in subs || subs[c].ctx.None? { return Faulted; }
        var status := if draining then DoneCmdDrop else if cmd.res == H2CSuccess then DoneSuccess else DoneCmdError;
        subs := subs[c := subs[c].(ctx := Some(subs[c].ctx.value.(status := status)), completions := subs[c].completions + 1)];
        tpc := Complete;
      }
      p := Stepped;
    }

    method SctxSignal() returns (p: Progress)
      requires Holds(Snapshot())
      modifies this`subs, this`tpc
      ensures Took(p, CompleteStep(old(Snapshot())), old(Snapshot()), Snapshot())
    {
      var cmd := subs[hand.value].cmd.value;
      if cmd.sctx.None? || cmd.sctx.value !in subs || subs[cmd.sctx.value].ctx.None? { return Faulted; }
      var c := cmd.sctx.value;
      subs := subs[c := subs[c].(ctx := Some(subs[c].ctx.value.(signalled := true)))];
      tpc := Clear;
      p := Stepped;
    }

    method SctxClear()
      requires Holds(Snapshot())
      modifies this`subs, this`tpc
      ensures Next(Snapshot()) == ClearStep(old(Snapshot()))
    {
      var id := hand.value;
      subs := subs[id := subs[id].(cmd := Some(subs[id].cmd.value.(sctx := None)))];
      tpc := Release;
    }

    method ThreadUnlock()
      requires Holds(Snapshot())
      modifies this`mutex, this`tpc
      ensures Next(Snapshot()) == ReleaseStep(old(Snapshot()))
    {
      mutex := mutex - {subs[hand.value].cmd.value.padapter};
      tpc := Free;
    }

    /** The callback, or rtw_free_cmd_obj when there is none. */
    method FreeCmdObj(env: Env)
      requires Holds(Snapshot())
      modifies this`subs, this`hand, this`tpc, this`retired
      ensures Next(Snapshot()) == FreeStep(old(Snapshot()), env)
    {
      var id := hand.value;
      subs := subs[id := subs[id].(cmd := if draining || env.callbackFrees then None else subs[id].cmd)];
      retired := retired + [id];
      hand := None;
      tpc := if draining then Dequeue else NextRun;
    }

    method AdvanceInHand(env: Env) returns (p: Progress)
      requires Holds(Snapshot()) && InHandPc(tpc)
      modifies this
      ensures Took(p, HandStep(old(Snapshot()), env), old(Snapshot()), Snapshot())
    {
      p := Stepped;
      match tpc
      case Classify => p := ClassifyHeld(env);
      case Execute => SetRes(env.ret, Lock);
      case Lock => p := ThreadLock();
      case Done => p := SctxDone();
      case Complete => p := SctxSignal();
      case Clear => SctxClear();
      case Release => ThreadUnlock();
      case Free => FreeCmdObj(env);
    }

    method AdvanceThread(env: Env) returns (p: Progress)
      modifies this
      ensures Took(p, ThreadStep(old(Snapshot()), env), old(Snapshot()), Snapshot())
    {
      if !InHandPc(tpc) {
        p := AdvanceIdle(env);
      } else if hand.Some? && hand.value in subs && subs[hand.value].cmd.Some? {
        p := AdvanceInHand(env);
      } else {
        p := Faulted;
      }
    }

    method Perform(a: Action) returns (p: Progress)
      modifies this
      ensures Took(p, Step(old(Snapshot()), a), old(Snapshot()), Snapshot())
    {
      match a
      case NewSubmission(id, adapter, waits, kind) => p := New(id, adapter, waits, kind);
      case AdvanceSubmitter(id, env) => p := AdvanceSubmitter(id, env);
      case AdvanceThread(env) => p := AdvanceThread(env);
      case StopThread =>
        sema := sema + 1;
        p := Stepped;
    }

    /** Under any schedule every method succeeds or waits; no pointer is ever dangling. */
    method RunSchedule(schedule: seq<Action>)
      requires Inv(Snapshot()) && AllWellSized(schedule)
      modifies this
      ensures Inv(Snapshot())
      ensures Run(old(Snapshot()), schedule) == Next(Snapshot())
    {
      for i := 0 to |schedule|
        invariant Inv(Snapshot())
        invariant Run(old(Snapshot()), schedule) == Run(Snapshot(), schedule[i..])
      {
        assert schedule[i] in schedule;
        StepKeepsInv(Snapshot(), schedule[i]);
        assert schedule[i..][1..] == schedule[i + 1..];
        var p := Perform(schedule[i]);
        assert !p.Faulted?;
      }
    }
  }
}
