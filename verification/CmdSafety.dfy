/** Safety of the command protocol over every schedule. */
module CmdSafety {
  import opened CmdProtocol
  import opened Wrappers

  // ---------------------------------------------------------------- framing

  /** A step that concerns one submission leaves every other one as it was. */
  lemma OthersKeep(s: State, s': State, id: Id)
    requires ViewsOk(s)
    requires s'.subs.Keys == s.subs.Keys + {id}
    requires forall i :: i in s.subs && i != id ==> ViewOf(s', i) == ViewOf(s, i)
    requires ViewOk(id, ViewOf(s', id))
    ensures ViewsOk(s')
  {
    forall i | i in s'.subs ensures ViewOk(i, ViewOf(s', i)) {
      if i != id { assert ViewOk(i, ViewOf(s, i)); }
    }
  }

  /** Whatever is in hand or queued is accepted and not retired. */
  lemma InPlace(s: State)
    requires Conserved(s)
    ensures forall q :: q in s.queue ==> q in s.accepted && q !in s.retired && s.hand != Some(q)
    ensures s.hand.Some? ==> s.hand.value in s.accepted && s.hand.value !in s.retired
    ensures NoDup(s.queue)
    ensures forall q :: q in s.retired ==> q in s.accepted
  {
    var r, h := |s.retired|, |HandSeq(s.hand)|;
    assert forall k :: 0 <= k < |s.queue| ==> s.queue[k] == s.accepted[r + h + k];
    assert forall k :: 0 <= k < r ==> s.retired[k] == s.accepted[k];
    assert s.hand.Some? ==> s.accepted[r] == s.hand.value;
  }

  lemma QueueIsLive(s: State)
    requires Inv(s)
    ensures QueueLive(s)
    ensures s.hand.Some? ==> s.hand.value in s.subs && s.subs[s.hand.value].cmd.Some?
  {
    InPlace(s);
    forall q | q in s.queue ensures q in s.subs && s.subs[q].cmd.Some? { assert ViewOk(q, ViewOf(s, q)); }
    if s.hand.Some? { assert ViewOk(s.hand.value, ViewOf(s, s.hand.value)); }
  }

  lemma PendingUpdate(subs: map<Id, Sub>, id: Id, sub: Sub)
    ensures |Pending(subs[id := sub])| + (if id in subs && subs[id].pc.Up? then 1 else 0)
         == |Pending(subs)| + (if sub.pc.Up? then 1 else 0)
  {
    var p, p' := Pending(subs), Pending(subs[id := sub]);
    if id in p && id !in p' { assert p == p' + {id}; }
    else if id !in p && id in p' { assert p' == p + {id}; }
    else { assert p == p'; }
  }

  lemma MutexFrame(subs: map<Id, Sub>, id: Id, sub: Sub, hand: Option<Id>, locked: bool, mutex: map<nat, Owner>)
    requires MutexOk(subs, hand, locked, mutex)
    requires id in subs ==> sub.adapter == subs[id].adapter
    ensures MutexOk(subs[id := sub], hand, locked, mutex)
  {}

  /** A step that rewrites one submission and perhaps ups the semaphore. */
  lemma SubChange(s: State, id: Id, sub: Sub, sema: nat)
    requires Inv(s) && id in s.subs && sub.adapter == s.subs[id].adapter
    requires ViewOk(id, ViewOf(s, id).(sub := sub))
    requires sema + (if sub.pc.Up? then 1 else 0) >= s.sema + (if s.subs[id].pc.Up? then 1 else 0)
    ensures Inv(s.(subs := s.subs[id := sub], sema := sema))
  {
    SubChangeGlobal(s, id, sub, sema);
    SubChangeViews(s, id, sub, sema);
  }

  lemma SubChangeViews(s: State, id: Id, sub: Sub, sema: nat)
    requires ViewsOk(s) && id in s.subs && sub.adapter == s.subs[id].adapter
    requires ViewOk(id, ViewOf(s, id).(sub := sub))
    ensures ViewsOk(s.(subs := s.subs[id := sub], sema := sema))
  {
    OthersKeep(s, s.(subs := s.subs[id := sub], sema := sema), id);
  }

  lemma SubChangeGlobal(s: State, id: Id, sub: Sub, sema: nat)
    requires Global(s) && (id in s.subs ==> sub.adapter == s.subs[id].adapter)
    requires sema + (if sub.pc.Up? then 1 else 0) >= s.sema + (if id in s.subs && s.subs[id].pc.Up? then 1 else 0)
    ensures Global(s.(subs := s.subs[id := sub], sema := sema))
  {
    PendingUpdate(s.subs, id, sub);
    MutexFrame(s.subs, id, sub, s.hand, ThreadLocked(s.tpc), s.mutex);
  }

  /** A step of the thread that rewrites the command in hand. */
  lemma HandChange(s: State, sub: Sub, pc: ThreadPc)
    requires Inv(s) && Holds(s) && InHandPc(pc)
    requires sub.adapter == s.subs[s.hand.value].adapter && sub.pc == s.subs[s.hand.value].pc
    requires ThreadLocked(s.tpc) ==> ThreadLocked(pc)
    requires ViewOk(s.hand.value, ViewOf(s, s.hand.value).(sub := sub, phase := Some(pc)))
    ensures Inv(s.(subs := s.subs[s.hand.value := sub], tpc := pc))
  {
    HandChangeGlobal(s, sub, pc);
    HandChangeViews(s, sub, pc);
  }

  lemma HandChangeViews(s: State, sub: Sub, pc: ThreadPc)
    requires ViewsOk(s) && Holds(s) && sub.adapter == s.subs[s.hand.value].adapter
    requires ViewOk(s.hand.value, ViewOf(s, s.hand.value).(sub := sub, phase := Some(pc)))
    ensures ViewsOk(s.(subs := s.subs[s.hand.value := sub], tpc := pc))
  {
    OthersKeep(s, s.(subs := s.subs[s.hand.value := sub], tpc := pc), s.hand.value);
  }

  lemma HandChangeGlobal(s: State, sub: Sub, pc: ThreadPc)
    requires Global(s) && Holds(s) && InHandPc(pc)
    requires sub.adapter == s.subs[s.hand.value].adapter && sub.pc == s.subs[s.hand.value].pc
    requires ThreadLocked(s.tpc) ==> ThreadLocked(pc)
    ensures Global(s.(subs := s.subs[s.hand.value := sub], tpc := pc))
  {
    var s' := s.(subs := s.subs[s.hand.value := sub], tpc := pc);
    PendingUpdate(s.subs, s.hand.value, sub);
    MutexFrame(s.subs, s.hand.value, sub, s.hand, ThreadLocked(s.tpc), s.mutex);
    assert MutexOk(s'.subs, s'.hand, ThreadLocked(pc), s.mutex);
  }

  /** Locking or unlocking a mutex matters only to the old and the new owner. */
  lemma OwnerChange(id: Id, v: View, owner: Option<Owner>)
    requires ViewOk(id, v)
    requires v.owner != Some(Waiter(id)) && owner != Some(Waiter(id))
    requires v.phase.Some? ==> v.owner != Some(Thread)
    ensures ViewOk(id, v.(owner := owner))
  {}

  // ---------------------------------------------------------------- submitters

  lemma SubmitKeepsInv(s: State, id: Id, adapter: nat, waits: bool, kind: Kind)
    requires Inv(s) && id !in s.subs && !(waits && kind.oversize)
    ensures Submit(s, id, adapter, waits, kind).Next? && Inv(Submit(s, id, adapter, waits, kind).state)
  {
    var s' := Submit(s, id, adapter, waits, kind).state;
    SubChangeGlobal(s, id, s'.subs[id], s.sema);
    assert s' == s.(subs := s.subs[id := s'.subs[id]], sema := s.sema);
    SubmitView(s, id, adapter, waits, kind);
    OthersKeep(s, s', id);
  }

  /** Nothing in the state can yet mention a fresh Id. */
  lemma SubmitView(s: State, id: Id, adapter: nat, waits: bool, kind: Kind)
    requires Global(s) && id !in s.subs && !(waits && kind.oversize)
    ensures ViewOk(id, ViewOf(Submit(s, id, adapter, waits, kind).state, id))
  {
    assert id !in s.accepted && id !in s.retired && s.hand != Some(id) by { InPlace(s); }
    assert adapter in s.mutex ==> OwnerOk(s.subs, s.hand, ThreadLocked(s.tpc), adapter, s.mutex[adapter]);
  }

  lemma FilterKeepsInv(s: State, id: Id, env: Env)
    requires Inv(s) && id in s.subs && s.subs[id].pc.Filter?
    ensures FilterStep(s, id, env).Next? && Inv(FilterStep(s, id, env).state)
  {
    assert ViewOk(id, ViewOf(s, id));
    SubChange(s, id, FilterStep(s, id, env).state.subs[id], s.sema);
  }

  lemma InsertKeepsInv(s: State, id: Id)
    requires Inv(s) && id in s.subs && s.subs[id].pc.Insert?
    ensures InsertStep(s, id).Next? && Inv(InsertStep(s, id).state)
  {
    assert ViewOk(id, ViewOf(s, id));
    QueueIsLive(s);
    var s' := InsertStep(s, id).state;
    PendingUpdate(s.subs, id, s'.subs[id]);
    AppendKeeps(s, id);
    InsertViews(s, id, s');
  }

  lemma InsertViews(s: State, id: Id, s': State)
    requires Conserved(s) && ViewsOk(s) && id in s.subs && s.subs[id].pc.Insert? && InsertStep(s, id) == Next(s')
    ensures ViewsOk(s')
  {
    assert ViewOk(id, ViewOf(s, id));
    assert id !in s.retired && s.hand != Some(id) by { InPlace(s); }
    OthersKeep(s, s', id);
  }

  lemma AppendKeeps(s: State, id: Id)
    requires Conserved(s) && id !in s.accepted
    ensures Conserved(s.(queue := s.queue + [id], accepted := s.accepted + [id]))
  {
    assert s.retired + HandSeq(s.hand) + (s.queue + [id]) == (s.retired + HandSeq(s.hand) + s.queue) + [id];
  }

  lemma UpKeepsInv(s: State, id: Id)
    requires Inv(s) && id in s.subs && s.subs[id].pc.Up?
    ensures UpStep(s, id).Next? && Inv(UpStep(s, id).state)
  {
    var sub := UpStep(s, id).state.subs[id];
    UpView(id, ViewOf(s, id), sub);
    SubChange(s, id, sub, s.sema + 1);
    assert UpStep(s, id).state == s.(subs := s.subs[id := sub], sema := s.sema + 1);
  }

  lemma UpView(id: Id, v: View, sub: Sub)
    requires ViewOk(id, v) && v.sub.pc.Up? && sub == v.sub.(pc := if v.sub.waits then Waiting else Returned)
    ensures ViewOk(id, v.(sub := sub))
  {}

  lemma WaitKeepsInv(s: State, id: Id, env: Env)
    requires Inv(s) && id in s.subs && s.subs[id].pc.Waiting?
    ensures !WaitStep(s, id, env).Fault?
    ensures WaitStep(s, id, env).Next? ==> Inv(WaitStep(s, id, env).state)
  {
    assert ViewOk(id, ViewOf(s, id));
    if WaitStep(s, id, env).Next? { SubChange(s, id, s.subs[id].(pc := WantLock), s.sema); }
  }

  lemma CheckKeepsInv(s: State, id: Id)
    requires Inv(s) && id in s.subs && s.subs[id].pc.Check?
    ensures CheckStep(s, id).Next? && Inv(CheckStep(s, id).state)
  {
    var v := ViewOf(s, id);
    assert ViewOk(id, v);
    CheckView(id, v);
    var sub := CheckStep(s, id).state.subs[id];
    SubChange(s, id, sub, s.sema);
    assert CheckStep(s, id).state == s.(subs := s.subs[id := sub], sema := s.sema);
  }

  /** Under the mutex a context that is still SUBMITTED belongs to an attached, live object. */
  lemma CheckView(id: Id, v: View)
    requires ViewOk(id, v) && v.sub.pc.Check?
    ensures v.sub.ctx.Some?
    ensures if v.sub.ctx.value.status != Submitted then ViewOk(id, v.(sub := v.sub.(pc := Unlock)))
            else v.sub.cmd.Some? &&
                 ViewOk(id, v.(sub := v.sub.(pc := Unlock, cmd := Some(v.sub.cmd.value.(sctx := None)), detached := true)))
  {}

  lemma LeaveKeepsInv(s: State, id: Id)
    requires Inv(s) && id in s.subs && s.subs[id].pc.Leaving?
    ensures LeaveStep(s, id).Next? && Inv(LeaveStep(s, id).state)
  {
    assert ViewOk(id, ViewOf(s, id));
    SubChange(s, id, LeaveStep(s, id).state.subs[id], s.sema);
  }

  lemma WaiterLockKeepsInv(s: State, id: Id)
    requires Inv(s) && id in s.subs && s.subs[id].pc.WantLock? && WaiterLockStep(s, id).Next?
    ensures Inv(WaiterLockStep(s, id).state)
  {
    var s' := WaiterLockStep(s, id).state;
    WaiterMutexGlobal(s, id, s', Check);
    WaiterMutexViews(s, id, s', Check);
  }

  lemma WaiterUnlockKeepsInv(s: State, id: Id)
    requires Inv(s) && id in s.subs && s.subs[id].pc.Unlock?
    ensures WaiterUnlockStep(s, id).Next? && Inv(WaiterUnlockStep(s, id).state)
  {
    var s' := WaiterUnlockStep(s, id).state;
    WaiterMutexGlobal(s, id, s', Leaving);
    WaiterMutexViews(s, id, s', Leaving);
  }

  lemma WaiterMutexGlobal(s: State, id: Id, s': State, pc: SubPc)
    requires Global(s) && id in s.subs && !s.subs[id].pc.Up? && (pc.Check? || pc.Leaving?)
    requires s' == s.(subs := s.subs[id := s.subs[id].(pc := pc)], mutex := s'.mutex)
    requires s'.mutex == if pc.Check? then s.mutex[s.subs[id].adapter := Waiter(id)] else s.mutex - {s.subs[id].adapter}
    ensures Global(s')
  {
    SubChangeGlobal(s, id, s.subs[id].(pc := pc), s.sema);
  }

  lemma WaiterMutexViews(s: State, id: Id, s': State, pc: SubPc)
    requires ViewsOk(s) && id in s.subs
    requires pc.Check? || pc.Leaving?
    requires s.subs[id].pc == if pc.Check? then WantLock else Unlock
    requires pc.Check? ==> s.subs[id].adapter !in s.mutex
    requires s' == s.(subs := s.subs[id := s.subs[id].(pc := pc)], mutex := s'.mutex)
    requires s'.mutex == if pc.Check? then s.mutex[s.subs[id].adapter := Waiter(id)] else s.mutex - {s.subs[id].adapter}
    ensures ViewsOk(s')
  {
    assert ViewOk(id, ViewOf(s, id));
    forall i | i in s'.subs ensures ViewOk(i, ViewOf(s', i)) {
      var v, v' := ViewOf(s, i), ViewOf(s', i);
      assert ViewOk(i, v);
      if i != id && s.subs[i].adapter == s.subs[id].adapter {
        assert v' == v.(owner := v'.owner);
        OwnerChange(i, v, v'.owner);
      }
    }
  }

  lemma SubmitterKeepsInv(s: State, id: Id, env: Env)
    requires Inv(s)
    ensures !SubmitterStep(s, id, env).Fault?
    ensures SubmitterStep(s, id, env).Next? ==> Inv(SubmitterStep(s, id, env).state)
  {
    if id in s.subs && SubmitterStep(s, id, env) != Blocked {
      match s.subs[id].pc
      case Filter => FilterKeepsInv(s, id, env);
      case Insert => InsertKeepsInv(s, id);
      case Up => UpKeepsInv(s, id);
      case Waiting => WaitKeepsInv(s, id, env);
      case WantLock => WaiterLockKeepsInv(s, id);
      case Check => CheckKeepsInv(s, id);
      case Unlock => WaiterUnlockKeepsInv(s, id);
      case Leaving => LeaveKeepsInv(s, id);
    }
  }

  // ---------------------------------------------------------------- command thread

  /** The steps outside of a command touch no submission. */
  lemma IdleKeepsInv(s: State, tpc: ThreadPc, sema: nat, running: bool, draining: bool, putBack: bool)
    requires Inv(s) && s.hand == None && !InHandPc(tpc)
    requires Covered(tpc, putBack, |s.queue|, sema, |Pending(s.subs)|)
    ensures Inv(s.(tpc := tpc, sema := sema, running := running, draining := draining, putBack := putBack))
  {
    var s' := s.(tpc := tpc, sema := sema, running := running, draining := draining, putBack := putBack);
    assert MutexOk(s.subs, None, ThreadLocked(tpc), s.mutex);
    forall i | i in s.subs ensures ViewOk(i, ViewOf(s', i)) {
      assert ViewOk(i, ViewOf(s, i)) && ViewOf(s', i) == ViewOf(s, i);
    }
  }

  lemma DequeueKeepsInv(s: State)
    requires Inv(s) && s.tpc.Dequeue?
    ensures DequeueStep(s).Next? && Inv(DequeueStep(s).state)
  {
    QueueIsLive(s);
    var s' := DequeueStep(s).state;
    if s.queue == [] {
      IdleKeepsInv(s, s'.tpc, s.sema, s.running, s.draining, false);
    } else {
      TakeKeeps(s, s'.tpc);
      TakeViews(s, s'.tpc);
    }
  }

  lemma TakeKeeps(s: State, pc: ThreadPc)
    requires Conserved(s) && s.hand == None && s.queue != []
    ensures Conserved(s.(queue := s.queue[1..], hand := Some(s.queue[0]), tpc := pc))
  {
    assert s.queue == [s.queue[0]] + s.queue[1..];
    assert s.retired + [] == s.retired;
    assert s.retired + s.queue == s.retired + [s.queue[0]] + s.queue[1..];
  }

  lemma TakeViews(s: State, pc: ThreadPc)
    requires Conserved(s) && ViewsOk(s) && s.hand == None && s.queue != [] && s.queue[0] in s.subs
    requires pc.Lock? || pc.Classify?
    ensures ViewsOk(s.(queue := s.queue[1..], hand := Some(s.queue[0]), tpc := pc))
  {
    var id := s.queue[0];
    InPlace(s);
    assert ViewOk(id, ViewOf(s, id));
    OthersKeep(s, s.(queue := s.queue[1..], hand := Some(id), tpc := pc), id);
  }

  /** Storing a result moves the command in hand to its completion. */
  lemma ResultKeepsInv(s: State, res: Res)
    requires Inv(s) && Holds(s) && (s.tpc.Classify? || s.tpc.Execute?)
    ensures Inv(WithCmd(s, HeldCmd(s).(res := res), Lock))
  {
    var id := s.hand.value;
    assert ViewOk(id, ViewOf(s, id));
    HandChange(s, s.subs[id].(cmd := Some(HeldCmd(s).(res := res))), Lock);
  }

  lemma ClassifyKeepsInv(s: State, env: Env)
    requires Inv(s) && s.tpc.Classify? && Holds(s)
    ensures ClassifyStep(s, env).Next? && Inv(ClassifyStep(s, env).state)
  {
    QueueIsLive(s);
    var cmd := HeldCmd(s);
    if cmd.kind.oversize || !cmd.kind.handled {
      ResultKeepsInv(s, ParametersError);
    } else if !Passes(s.running, cmd.kind, env.hwInit) {
      ResultKeepsInv(s, Dropped);
    } else if cmd.kind.noIo || env.lpsLeft {
      ToHandlerKeepsInv(s);
    } else {
      PutBackKeepsInv(s);
    }
  }

  lemma ToHandlerKeepsInv(s: State)
    requires Inv(s) && s.tpc.Classify? && Holds(s)
    ensures Inv(s.(tpc := Execute))
  {
    var id := s.hand.value;
    assert ViewOk(id, ViewOf(s, id));
    assert s.subs[id := s.subs[id]] == s.subs;
    HandChange(s, s.subs[id], Execute);
  }

  lemma PutBackKeepsInv(s: State)
    requires Inv(s) && s.tpc.Classify? && Holds(s)
    ensures Inv(WithCmd(s, HeldCmd(s).(res := EnqHead), Down).(queue := [s.hand.value] + s.queue, hand := None, putBack := true))
  {
    var s' := WithCmd(s, HeldCmd(s).(res := EnqHead), Down).(queue := [s.hand.value] + s.queue, hand := None, putBack := true);
    PutBackOrder(s.retired, s.hand.value, s.queue, s.accepted);
    PutBackViews(s, s');
  }

  lemma PutBackOrder(retired: seq<Id>, id: Id, queue: seq<Id>, accepted: seq<Id>)
    requires InOrder(retired, Some(id), queue, accepted)
    ensures InOrder(retired, None, [id] + queue, accepted)
  {
    assert retired + [] == retired;
    assert retired + ([id] + queue) == retired + [id] + queue;
  }

  lemma PutBackViews(s: State, s': State)
    requires ViewsOk(s) && s.tpc.Classify? && Holds(s)
    requires s' == WithCmd(s, HeldCmd(s).(res := EnqHead), Down).(
      queue := [s.hand.value] + s.queue, hand := None, putBack := true)
    ensures ViewsOk(s')
  {
    assert ViewOk(s.hand.value, ViewOf(s, s.hand.value));
    OthersKeep(s, s', s.hand.value);
  }

  lemma ExecuteKeepsInv(s: State, env: Env)
    requires Inv(s) && s.tpc.Execute? && Holds(s)
    ensures ExecuteStep(s, env).Next? && Inv(ExecuteStep(s, env).state)
  {
    ResultKeepsInv(s, env.ret);
  }

  lemma DoneKeepsInv(s: State)
    requires Inv(s) && s.tpc.Done? && Holds(s)
    ensures DoneStep(s).Next? && Inv(DoneStep(s).state)
  {
    var id := s.hand.value;
    assert ViewOk(id, ViewOf(s, id));
    var s' := DoneStep(s).state;
    assert s.subs[id := s.subs[id]] == s.subs;
    HandChange(s, s'.subs[id], s'.tpc);
  }

  lemma CompleteKeepsInv(s: State)
    requires Inv(s) && s.tpc.Complete? && Holds(s)
    ensures CompleteStep(s).Next? && Inv(CompleteStep(s).state)
  {
    assert ViewOk(s.hand.value, ViewOf(s, s.hand.value));
    HandChange(s, CompleteStep(s).state.subs[s.hand.value], Clear);
  }

  lemma ClearKeepsInv(s: State)
    requires Inv(s) && s.tpc.Clear? && Holds(s)
    ensures ClearStep(s).Next? && Inv(ClearStep(s).state)
  {
    assert ViewOk(s.hand.value, ViewOf(s, s.hand.value));
    HandChange(s, ClearStep(s).state.subs[s.hand.value], Release);
  }

  lemma ThreadLockKeepsInv(s: State)
    requires Inv(s) && s.tpc.Lock? && Holds(s) && ThreadLockStep(s).Next?
    ensures Inv(ThreadLockStep(s).state)
  {
    assert ViewOk(s.hand.value, ViewOf(s, s.hand.value));
    ThreadMutexViews(s, ThreadLockStep(s).state);
  }

  lemma ReleaseKeepsInv(s: State)
    requires Inv(s) && s.tpc.Release? && Holds(s)
    ensures ReleaseStep(s).Next? && Inv(ReleaseStep(s).state)
  {
    assert ViewOk(s.hand.value, ViewOf(s, s.hand.value));
    ThreadMutexViews(s, ReleaseStep(s).state);
  }

  lemma ThreadMutexViews(s: State, s': State)
    requires ViewsOk(s) && Holds(s)
    requires (s.tpc.Lock? && ThreadLockStep(s) == Next(s')) || (s.tpc.Release? && ReleaseStep(s) == Next(s'))
    ensures ViewsOk(s')
  {
    var id := s.hand.value;
    assert ViewOk(id, ViewOf(s, id));
    forall i | i in s.subs ensures ViewOk(i, ViewOf(s', i)) {
      var v, v' := ViewOf(s, i), ViewOf(s', i);
      assert ViewOk(i, v);
      if i != id && s.subs[i].adapter == s.subs[id].adapter { OwnerChange(i, v, v'.owner); }
    }
  }

  lemma FreeKeepsInv(s: State, env: Env)
    requires Inv(s) && s.tpc.Free? && Holds(s)
    ensures FreeStep(s, env).Next? && Inv(FreeStep(s, env).state)
  {
    FreeGlobal(s, env, FreeStep(s, env).state);
    FreeViews(s, env, FreeStep(s, env).state);
  }

  lemma FreeGlobal(s: State, env: Env, s': State)
    requires Global(s) && s.tpc.Free? && Holds(s) && FreeStep(s, env) == Next(s')
    ensures Global(s')
  {
    RetireOrder(s.retired, s.hand.value, s.queue, s.accepted);
    MutexFrame(s.subs, s.hand.value, s'.subs[s.hand.value], s.hand, false, s.mutex);
  }

  lemma RetireOrder(retired: seq<Id>, id: Id, queue: seq<Id>, accepted: seq<Id>)
    requires InOrder(retired, Some(id), queue, accepted)
    ensures InOrder(retired + [id], None, queue, accepted)
  {
    assert retired + [id] + [] == retired + [id];
  }

  lemma FreeViews(s: State, env: Env, s': State)
    requires ViewsOk(s) && s.tpc.Free? && Holds(s) && FreeStep(s, env) == Next(s')
    ensures ViewsOk(s')
  {
    assert ViewOk(s.hand.value, ViewOf(s, s.hand.value));
    OthersKeep(s, s', s.hand.value);
  }

  lemma HandKeepsInv(s: State, env: Env)
    requires Inv(s) && Holds(s)
    ensures !HandStep(s, env).Fault?
    ensures HandStep(s, env).Next? ==> Inv(HandStep(s, env).state)
  {
    match s.tpc
    case Classify => ClassifyKeepsInv(s, env);
    case Execute => ExecuteKeepsInv(s, env);
    case Lock => if ThreadLockStep(s) != Blocked { ThreadLockKeepsInv(s); }
    case Done => DoneKeepsInv(s);
    case Complete => CompleteKeepsInv(s);
    case Clear => ClearKeepsInv(s);
    case Release => ReleaseKeepsInv(s);
    case Free => FreeKeepsInv(s, env);
    case _ =>
  }

  lemma ThreadKeepsInv(s: State, env: Env)
    requires Inv(s)
    ensures !ThreadStep(s, env).Fault?
    ensures ThreadStep(s, env).Next? ==> Inv(ThreadStep(s, env).state)
  {
    if InHandPc(s.tpc) {
      QueueIsLive(s);
      assert ThreadStep(s, env) == HandStep(s, env);
      HandKeepsInv(s, env);
    } else if s.tpc.Dequeue? {
      DequeueKeepsInv(s);
    } else {
      OutsideKeepsInv(s, env);
    }
  }

  lemma DownKeepsInv(s: State, env: Env)
    requires Inv(s) && s.tpc.Down?
    ensures !ThreadStep(s, env).Fault?
    ensures ThreadStep(s, env).Next? ==> Inv(ThreadStep(s, env).state)
  {
    if env.downFails {
      IdleKeepsInv(s, Exit, s.sema, s.running, s.draining, s.putBack);
    } else if s.sema > 0 {
      IdleKeepsInv(s, CheckRun, s.sema - 1, s.running, s.draining, s.putBack);
    }
  }

  lemma OutsideKeepsInv(s: State, env: Env)
    requires Inv(s) && !InHandPc(s.tpc) && !s.tpc.Dequeue?
    ensures !ThreadStep(s, env).Fault?
    ensures ThreadStep(s, env).Next? ==> Inv(ThreadStep(s, env).state)
  {
    match s.tpc
    case Down => DownKeepsInv(s, env);
    case CheckRun => IdleKeepsInv(s, if env.cannotRun then Exit else CheckEmpty, s.sema, s.running, s.draining, s.putBack);
    case CheckEmpty => IdleKeepsInv(s, if s.queue == [] then Down else NextRun, s.sema, s.running, s.draining, false);
    case NextRun => IdleKeepsInv(s, if env.cannotRun then Exit else Dequeue, s.sema, s.running, s.draining, s.putBack);
    case Exit => IdleKeepsInv(s, Dequeue, s.sema, false, true, s.putBack);
    case Halted =>
  }

  lemma StepKeepsInv(s: State, a: Action)
    requires Inv(s) && WellSized(a)
    ensures !Step(s, a).Fault?
    ensures Step(s, a).Next? ==> Inv(Step(s, a).state)
  {
    match a
    case NewSubmission(id, adapter, waits, kind) => if id !in s.subs { SubmitKeepsInv(s, id, adapter, waits, kind); }
    case AdvanceSubmitter(id, env) => SubmitterKeepsInv(s, id, env);
    case AdvanceThread(env) => ThreadKeepsInv(s, env);
    case StopThread => UpKeepsWoken(s);
  }

  /** rtw_stop_cmd_thread ups the semaphore. */
  lemma UpKeepsWoken(s: State)
    requires Inv(s)
    ensures Inv(s.(sema := s.sema + 1))
  {
    var s' := s.(sema := s.sema + 1);
    forall i | i in s.subs ensures ViewOk(i, ViewOf(s', i)) {
      assert ViewOk(i, ViewOf(s, i)) && ViewOf(s', i) == ViewOf(s, i);
    }
  }

  // ---------------------------------------------------------------- main results

  /** Under every schedule no freed cmd_obj and no submit_ctx of a returned waiter is touched. */
  lemma {:induction false} NoUseAfterFree(s: State, schedule: seq<Action>)
    requires Inv(s) && AllWellSized(schedule)
    ensures Run(s, schedule).Next? && Inv(Run(s, schedule).state)
    decreases |schedule|
  {
    if schedule != [] {
      assert schedule[0] in schedule && forall a :: a in schedule[1..] ==> a in schedule;
      StepKeepsInv(s, schedule[0]);
      NoUseAfterFree(if Step(s, schedule[0]).Next? then Step(s, schedule[0]).state else s, schedule[1..]);
    }
  }

  /** The waiter of a command that is too large comes back to an object that has been freed. */
  lemma OversizeFaults(adapter: nat, kind: Kind) returns (schedule: seq<Action>)
    requires kind.oversize
    ensures OnlyOf(schedule, true, kind) && Run(INIT, schedule) == Fault
  {
    var env := Env(true, true, false, false, true, H2CSuccess, true);
    var go := AdvanceSubmitter(0, env);
    schedule := [NewSubmission(0, adapter, true, kind), go, go, go, go];
    var sub := Sub(adapter, true, Waiting, None, Some(Ctx(Submitted, false)), 0, false);
    var s1 := Submit(INIT, 0, adapter, true, kind).state;
    var s2 := INIT.(subs := map[0 := sub]);
    assert FilterStep(s1, 0, env) == Next(s2);
    var s3 := INIT.(subs := map[0 := sub.(pc := WantLock)]);
    assert WaitStep(s2, 0, env) == Next(s3);
    var s4 := s3.(subs := map[0 := sub.(pc := Check)], mutex := map[adapter := Waiter(0)]);
    assert WaiterLockStep(s3, 0) == Next(s4);
    assert CheckStep(s4, 0) == Fault;
    assert Run(s4, [go]) == Fault;
    assert [go, go][1..] == [go] && Run(s3, [go, go]) == Fault;
    assert [go, go, go][1..] == [go, go] && Run(s2, [go, go, go]) == Fault;
    assert [go, go, go, go][1..] == [go, go, go] && Run(s1, [go, go, go, go]) == Fault;
    assert schedule[1..] == [go, go, go, go];
  }

  predicate OnlyOf(schedule: seq<Action>, waits: bool, kind: Kind) {
    forall a :: a in schedule ==> a.NewSubmission? ==> a.waits == waits && a.kind == kind
  }

  /** Submissions of one sort are safe under every schedule exactly when they are not both waited for
      and too large. */
  lemma SafeExactly(waits: bool, kind: Kind)
    ensures (forall schedule :: OnlyOf(schedule, waits, kind) ==> !Run(INIT, schedule).Fault?)
       <==> !(waits && kind.oversize)
  {
    if waits && kind.oversize {
      var schedule := OversizeFaults(0, kind);
    } else {
      forall schedule | OnlyOf(schedule, waits, kind) ensures !Run(INIT, schedule).Fault? {
        NoUseAfterFree(INIT, schedule);
      }
    }
  }

  ghost predicate Reachable(s: State) {
    exists schedule :: AllWellSized(schedule) && Run(INIT, schedule) == Next(s)
  }

  lemma ReachableInv(s: State)
    requires Reachable(s)
    ensures Inv(s)
  {
    var schedule :| AllWellSized(schedule) && Run(INIT, schedule) == Next(s);
    NoUseAfterFree(INIT, schedule);
  }

  /** A command that waits and has been finished with was completed exactly once or detached
      by its waiter, never both; a completion always carries a final status and is signalled
      before the object is let go. */
  lemma CompletedExactlyOnce(s: State, id: Id)
    requires Reachable(s) && id in s.subs && s.subs[id].waits
    ensures s.subs[id].completions <= 1 && !(s.subs[id].completions == 1 && s.subs[id].detached)
    ensures id in s.retired ==> s.subs[id].completions == 1 || s.subs[id].detached
    ensures id in s.retired && s.subs[id].completions == 1 && s.subs[id].ctx.Some? ==>
      s.subs[id].ctx.value.signalled && s.subs[id].ctx.value.status != Submitted
    ensures s.subs[id].pc.Returned? && id in s.accepted ==> s.subs[id].completions == 1 || s.subs[id].detached
  {
    ReachableInv(s);
    assert ViewOk(id, ViewOf(s, id));
  }

  /** Nothing is lost, repeated or reordered, put-backs included. */
  lemma CommandsConserved(s: State)
    requires Reachable(s)
    ensures s.retired + HandSeq(s.hand) + s.queue == s.accepted && NoDup(s.accepted)
  {
    ReachableInv(s);
  }

  /** While the thread waits, all that is queued is covered by the semaphore and by the submitters between
      insert and up, unless the last thing the thread did was to put a command back; when there is neither,
      something is queued exactly in that case. */
  lemma NoLostWakeup(s: State)
    requires Reachable(s) && s.tpc.Down?
    ensures !s.putBack ==> |s.queue| <= s.sema + |Pending(s.subs)|
    ensures s.putBack ==> s.queue != []
    ensures s.sema == 0 && Pending(s.subs) == {} ==> (s.queue != [] <==> s.putBack)
  {
    ReachableInv(s);
  }

  lemma {:induction false} RunAppend(s: State, schedule: seq<Action>, a: Action)
    requires Run(s, schedule).Next?
    ensures Run(s, schedule + [a]) == Run(Run(s, schedule).state, [a])
    decreases |schedule|
  {
    if schedule == [] {
      assert schedule + [a] == [a];
    } else {
      assert (schedule + [a])[1..] == schedule[1..] + [a];
      match Step(s, schedule[0])
      case Next(s') => RunAppend(s', schedule[1..], a);
      case Blocked => RunAppend(s, schedule[1..], a);
      case Fault =>
    }
  }

  lemma ReachableStep(s: State, a: Action, s': State)
    requires Reachable(s) && WellSized(a) && Step(s, a) == Next(s')
    ensures Reachable(s')
  {
    var schedule :| AllWellSized(schedule) && Run(INIT, schedule) == Next(s);
    RunAppend(INIT, schedule, a);
    assert [a][1..] == [];
    assert Run(s', []) == Next(s');
    assert AllWellSized(schedule + [a]) && Run(INIT, schedule + [a]) == Next(s');
  }

  const STRANDED := Cmd(Kind(false, true, false, false), 0, None, Unset)

  /** One command that may not run in LPS is enough to strand the queue until someone else ups. */
  lemma PutBackStrands() returns (s: State)
    ensures Reachable(s) && s.tpc.Down? && s.sema == 0 && Pending(s.subs) == {} && s.queue == [0]
  {
    var env := Env(false, true, false, false, false, H2CSuccess, true);
    s := ThreadWoken(env);
    s := Follow(s, AdvanceThread(env));
    s := Follow(s, AdvanceThread(env));
  }

  lemma ThreadWoken(env: Env) returns (s: State)
    requires env.hwInit && !env.downFails && !env.cannotRun
    ensures Reachable(s)
    ensures s == INIT.(subs := map[0 := Sub(0, false, Returned, Some(STRANDED), None, 0, false)],
                       queue := [0], accepted := [0], tpc := Dequeue)
  {
    s := OneQueued(env);
    s := Follow(s, AdvanceThread(env));
    s := Follow(s, AdvanceThread(env));
    s := Follow(s, AdvanceThread(env));
    s := Follow(s, AdvanceThread(env));
  }

  lemma OneQueued(env: Env) returns (s: State)
    requires env.hwInit
    ensures Reachable(s)
    ensures s == INIT.(subs := map[0 := Sub(0, false, Returned, Some(STRANDED), None, 0, false)],
                       queue := [0], accepted := [0], sema := 1)
  {
    assert Run(INIT, []) == Next(INIT);
    s := INIT;
    s := Follow(s, NewSubmission(0, 0, false, STRANDED.kind));
    s := Follow(s, AdvanceSubmitter(0, env));
    s := Follow(s, AdvanceSubmitter(0, env));
    s := Follow(s, AdvanceSubmitter(0, env));
  }

  lemma Follow(s: State, a: Action) returns (s': State)
    requires Reachable(s) && WellSized(a) && Step(s, a).Next?
    ensures Reachable(s') && Step(s, a) == Next(s')
  {
    s' := Step(s, a).state;
    ReachableStep(s, a, s');
  }

  /** Whoever holds an sctx_mutex can take its next step, so the mutex cannot deadlock. */
  lemma MutexHolderProgresses(s: State, a: nat, env: Env)
    requires Reachable(s) && a in s.mutex
    ensures s.mutex[a].Waiter? ==> SubmitterStep(s, s.mutex[a].id, env).Next?
    ensures s.mutex[a].Thread? ==> ThreadStep(s, env).Next?
  {
    ReachableInv(s);
    if s.mutex[a].Waiter? {
      assert ViewOk(s.mutex[a].id, ViewOf(s, s.mutex[a].id));
      SubmitterKeepsInv(s, s.mutex[a].id, env);
    } else {
      ThreadKeepsInv(s, env);
    }
  }
}
