/** The status that a waiter reads tells what became of its command. */
module CmdStatus {
  import opened CmdProtocol
  import opened CmdSafety
  import opened Wrappers

  /** What became of a command: thrown away when the thread left its loop, refused before the handler, or
      handled, with what the handler returned. */
  datatype Fate = Drained | Refused | Handled(ret: Res)

  type Fates = map<Id, Fate>

  /** The fates after an action, read off the step itself: the drain takes a command from the queue, the checks
      turn one down, or the handler runs. */
  function Note(s: State, a: Action, fates: Fates): Fates {
    if !a.AdvanceThread? then fates
    else if s.tpc.Dequeue? && s.draining && s.queue != [] then fates[s.queue[0] := Drained]
    else if s.tpc.Classify? && Holds(s) && TurnedDown(s, HeldCmd(s).kind, a.env) then fates[s.hand.value := Refused]
    else if s.tpc.Execute? && Holds(s) then fates[s.hand.value := Handled(a.env.ret)]
    else fates
  }

  /** Too large, without a handler, or not passed by the filter. */
  predicate TurnedDown(s: State, kind: Kind, env: Env) {
    kind.oversize || !kind.handled || !s.running || !(env.hwInit || kind.allowed || kind.noIo)
  }

  function FatesOf(s: State, schedule: seq<Action>, fates: Fates): Fates
    decreases |schedule|
  {
    if schedule == [] then fates
    else
      match Step(s, schedule[0])
      case Blocked => FatesOf(s, schedule[1..], fates)
      case Fault => fates
      case Next(s') => FatesOf(s', schedule[1..], Note(s, schedule[0], fates))
  }

  // ---------------------------------------------------------------- invariant

  predicate Tells(status: Status, fate: Fate) {
    && (status == DoneCmdDrop <==> fate == Drained)
    && (status == DoneSuccess <==> fate == Handled(H2CSuccess))
    && (status == DoneCmdError <==> fate != Drained && fate != Handled(H2CSuccess))
  }

  /** A completed command is the one in hand, past its completion, or done with. */
  predicate Completed(s: State, id: Id) {
    id in s.retired
    || (s.hand == Some(id) && (s.tpc.Complete? || s.tpc.Clear? || s.tpc.Release? || s.tpc.Free?))
  }

  predicate SubTells(s: State, id: Id, fates: Fates)
    requires id in s.subs
  {
    var sub := s.subs[id];
    sub.completions > 0 ==>
      Completed(s, id) && (sub.ctx.Some? ==> id in fates && Tells(sub.ctx.value.status, fates[id]))
  }

  /** The command in hand carries what its status will be made of. */
  predicate HandTells(s: State, fates: Fates) {
    (s.tpc.Lock? || s.tpc.Done?) && Holds(s) ==>
      && s.hand.value in fates
      && (s.draining <==> fates[s.hand.value] == Drained)
      && (!s.draining ==> (HeldCmd(s).res == H2CSuccess <==> fates[s.hand.value] == Handled(H2CSuccess)))
  }

  predicate AllTell(s: State, fates: Fates) {
    HandTells(s, fates) && (s.tpc.Classify? || s.tpc.Execute? ==> !s.draining)
    && forall id :: id in s.subs ==> SubTells(s, id, fates)
  }

  // ---------------------------------------------------------------- steps

  /** What no step of a submitter changes. */
  predicate SubFramed(sub: Sub, sub': Sub) {
    && sub'.completions == sub.completions
    && (sub'.ctx == sub.ctx || sub'.ctx.None?)
    && (sub'.cmd.Some? ==> sub.cmd.Some? && sub'.cmd.value.res == sub.cmd.value.res)
  }

  lemma SubmitterFrame(s: State, id: Id, env: Env, s': State)
    requires SubmitterStep(s, id, env) == Next(s')
    ensures id in s.subs && id in s'.subs && s'.subs == s.subs[id := s'.subs[id]]
    ensures SubFramed(s.subs[id], s'.subs[id])
    ensures s'.retired == s.retired && s'.hand == s.hand && s'.tpc == s.tpc && s'.draining == s.draining
  {
    match s.subs[id].pc
    case Filter =>
    case Insert =>
    case Up =>
    case Waiting =>
    case WantLock =>
    case Check =>
    case Unlock =>
    case Leaving =>
  }

  lemma SubmitterTells(s: State, id: Id, env: Env, s': State, fates: Fates)
    requires AllTell(s, fates) && SubmitterStep(s, id, env) == Next(s')
    ensures AllTell(s', fates)
  {
    SubmitterFrame(s, id, env, s');
    forall i | i in s'.subs ensures SubTells(s', i, fates) {
      assert SubTells(s, i, fates);
    }
  }

  /** A step of the thread that concerns one command, the one in hand or the one it takes. */
  lemma OthersTell(s: State, s': State, id: Id, fates: Fates, fates': Fates)
    requires forall i :: i in s.subs ==> SubTells(s, i, fates)
    requires id in s.subs && (s.hand == Some(id) || s.hand == None)
    requires s'.subs.Keys == s.subs.Keys && forall i :: i in s.subs && i != id ==> s'.subs[i] == s.subs[i]
    requires forall i :: i in s.retired ==> i in s'.retired
    requires forall i :: i in fates && i != id ==> i in fates' && fates'[i] == fates[i]
    requires SubTells(s', id, fates')
    ensures forall i :: i in s'.subs ==> SubTells(s', i, fates')
  {
    forall i | i in s'.subs ensures SubTells(s', i, fates') {
      assert SubTells(s, i, fates);
    }
  }

  /** The steps outside of a command that take none. */
  lemma IdleTells(s: State, env: Env, s': State, fates: Fates)
    requires s.hand == None && AllTell(s, fates) && !InHandPc(s.tpc) && ThreadStep(s, env) == Next(s')
    requires s.tpc.Dequeue? ==> s.queue == []
    ensures AllTell(s', fates)
  {
    IdleFrame(s, env, s');
    forall i | i in s'.subs ensures SubTells(s', i, fates) {
      assert SubTells(s, i, fates);
    }
  }

  lemma IdleFrame(s: State, env: Env, s': State)
    requires s.hand == None && !InHandPc(s.tpc) && ThreadStep(s, env) == Next(s') && (s.tpc.Dequeue? ==> s.queue == [])
    ensures s'.hand == None && s'.subs == s.subs && s'.retired == s.retired && !InHandPc(s'.tpc)
  {
    match s.tpc
    case Down =>
    case CheckRun =>
    case CheckEmpty =>
    case NextRun =>
    case Dequeue =>
    case Exit =>
  }

  lemma DequeueTells(s: State, s': State, id: Id, fates: Fates)
    requires AllTell(s, fates) && s.tpc.Dequeue? && s.hand == None && s.queue != [] && DequeueStep(s) == Next(s')
    requires id == s.queue[0] && id in s.subs && id !in s.retired
    ensures AllTell(s', if s.draining then fates[id := Drained] else fates)
  {
    assert SubTells(s, id, fates);
    OthersTell(s, s', id, fates, if s.draining then fates[id := Drained] else fates);
  }

  /** The command in hand before its completion. */
  lemma BeforeTells(s: State, env: Env, s': State, fates: Fates)
    requires AllTell(s, fates) && Holds(s) && s.hand.value !in s.retired && HandStep(s, env) == Next(s')
    requires s.tpc.Classify? || s.tpc.Execute? || s.tpc.Lock?
    ensures AllTell(s', Note(s, AdvanceThread(env), fates))
  {
    var id, fates' := s.hand.value, Note(s, AdvanceThread(env), fates);
    assert SubTells(s, id, fates) && s.subs[id].completions == 0;
    match s.tpc
    case Classify => ClassifyTells(s, env, s', fates);
    case Execute => OthersTell(s, s', id, fates, fates');
    case Lock => OthersTell(s, s', id, fates, fates');
  }

  lemma ClassifyTells(s: State, env: Env, s': State, fates: Fates)
    requires AllTell(s, fates) && Holds(s) && s.tpc.Classify? && ClassifyStep(s, env) == Next(s')
    requires s.subs[s.hand.value].completions == 0
    ensures AllTell(s', Note(s, AdvanceThread(env), fates))
  {
    var id, fates' := s.hand.value, Note(s, AdvanceThread(env), fates);
    ClassifyFrame(s, env, s');
    OthersTell(s, s', id, fates, fates');
  }

  lemma ClassifyFrame(s: State, env: Env, s': State)
    requires Holds(s) && ClassifyStep(s, env) == Next(s')
    ensures s'.retired == s.retired && s'.draining == s.draining && s'.subs.Keys == s.subs.Keys
    ensures var id := s.hand.value;
      && (forall i :: i in s.subs && i != id ==> s'.subs[i] == s.subs[i]) && s'.subs[id].completions == s.subs[id].completions
      && if TurnedDown(s, HeldCmd(s).kind, env)
         then s'.tpc == Lock && s'.hand == s.hand && Holds(s') && HeldCmd(s').res != H2CSuccess
         else s'.tpc == (if HeldCmd(s).kind.noIo || env.lpsLeft then Execute else Down)
  {}

  lemma DoneTells(s: State, s': State, fates: Fates)
    requires AllTell(s, fates) && Holds(s) && s.hand.value !in s.retired && s.tpc.Done? && DoneStep(s) == Next(s')
    requires HeldCmd(s).sctx.Some? ==> HeldCmd(s).sctx.value == s.hand.value
    ensures AllTell(s', fates)
  {
    var id := s.hand.value;
    assert SubTells(s, id, fates) && s.subs[id].completions == 0;
    OthersTell(s, s', id, fates, fates);
  }

  /** The command in hand after its completion. */
  lemma AfterTells(s: State, env: Env, s': State, fates: Fates)
    requires AllTell(s, fates) && Holds(s) && HandStep(s, env) == Next(s')
    requires HeldCmd(s).sctx.Some? ==> HeldCmd(s).sctx.value == s.hand.value
    requires s.tpc.Complete? || s.tpc.Clear? || s.tpc.Release? || s.tpc.Free?
    ensures AllTell(s', fates)
  {
    var id := s.hand.value;
    assert SubTells(s, id, fates);
    match s.tpc
    case Complete => OthersTell(s, s', id, fates, fates);
    case Clear => OthersTell(s, s', id, fates, fates);
    case Release => OthersTell(s, s', id, fates, fates);
    case Free => OthersTell(s, s', id, fates, fates);
  }

  lemma HandStepTells(s: State, env: Env, s': State, fates: Fates)
    requires AllTell(s, fates) && Holds(s) && InHandPc(s.tpc) && HandStep(s, env) == Next(s')
    requires s.hand.value !in s.retired && (HeldCmd(s).sctx.Some? ==> HeldCmd(s).sctx.value == s.hand.value)
    ensures AllTell(s', Note(s, AdvanceThread(env), fates))
  {
    match s.tpc
    case Classify => BeforeTells(s, env, s', fates);
    case Execute => BeforeTells(s, env, s', fates);
    case Lock => BeforeTells(s, env, s', fates);
    case Done => DoneTells(s, s', fates);
    case Complete => AfterTells(s, env, s', fates);
    case Clear => AfterTells(s, env, s', fates);
    case Release => AfterTells(s, env, s', fates);
    case Free => AfterTells(s, env, s', fates);
  }

  lemma ThreadTells(s: State, env: Env, s': State, fates: Fates)
    requires Inv(s) && AllTell(s, fates) && ThreadStep(s, env) == Next(s')
    ensures AllTell(s', Note(s, AdvanceThread(env), fates))
  {
    InPlace(s);
    QueueIsLive(s);
    if InHandPc(s.tpc) {
      assert ViewOk(s.hand.value, ViewOf(s, s.hand.value));
      HandStepTells(s, env, s', fates);
    } else if s.tpc.Dequeue? && s.queue != [] {
      assert s.queue[0] in s.queue;
      DequeueTells(s, s', s.queue[0], fates);
    } else {
      IdleTells(s, env, s', fates);
    }
  }

  lemma NewTells(s: State, id: Id, s': State, fates: Fates)
    requires Inv(s) && AllTell(s, fates) && id !in s.subs && id in s'.subs && s'.subs[id].completions == 0
    requires s' == s.(subs := s.subs[id := s'.subs[id]])
    ensures AllTell(s', fates)
  {
    forall i | i in s'.subs ensures SubTells(s', i, fates) {
      if i != id { assert SubTells(s, i, fates); }
    }
    if s.hand.Some? { QueueIsLive(s); }
  }

  lemma StepTells(s: State, a: Action, s': State, fates: Fates)
    requires Inv(s) && AllTell(s, fates) && Step(s, a) == Next(s')
    ensures AllTell(s', Note(s, a, fates))
  {
    match a
    case NewSubmission(id, adapter, waits, kind) => NewTells(s, id, s', fates);
    case AdvanceSubmitter(id, env) => SubmitterTells(s, id, env, s', fates);
    case AdvanceThread(env) => ThreadTells(s, env, s', fates);
    case StopThread =>
      forall i | i in s'.subs ensures SubTells(s', i, fates) { assert SubTells(s, i, fates); }
  }

  lemma {:induction false} RunTells(s: State, schedule: seq<Action>, fates: Fates)
    requires Inv(s) && AllTell(s, fates) && AllWellSized(schedule)
    ensures Run(s, schedule).Next? && AllTell(Run(s, schedule).state, FatesOf(s, schedule, fates))
    decreases |schedule|
  {
    if schedule != [] {
      assert schedule[0] in schedule && forall a :: a in schedule[1..] ==> a in schedule;
      StepKeepsInv(s, schedule[0]);
      match Step(s, schedule[0])
      case Blocked => RunTells(s, schedule[1..], fates);
      case Fault =>
      case Next(s') =>
        StepTells(s, schedule[0], s', fates);
        RunTells(s', schedule[1..], Note(s, schedule[0], fates));
    }
  }

  /** After any schedule a completed context has the status "dropped" exactly if the command was thrown away
      when the thread left, "success" exactly if its handler ran and returned success, and "error" exactly if
      its handler returned anything else or the checks before it turned the command down. */
  lemma StatusTellsFate(schedule: seq<Action>, id: Id)
    requires AllWellSized(schedule) && Run(INIT, schedule).Next?
    ensures var s, fates := Run(INIT, schedule).state, FatesOf(INIT, schedule, map[]);
      id in s.subs && s.subs[id].ctx.Some? && s.subs[id].ctx.value.status != Submitted ==>
        && id in fates
        && (s.subs[id].ctx.value.status == DoneCmdDrop <==> fates[id] == Drained)
        && (s.subs[id].ctx.value.status == DoneSuccess <==> fates[id] == Handled(H2CSuccess))
        && (s.subs[id].ctx.value.status == DoneCmdError <==>
              fates[id] == Refused || (fates[id].Handled? && fates[id].ret != H2CSuccess))
  {
    NoUseAfterFree(INIT, schedule);
    RunTells(INIT, schedule, map[]);
    var s := Run(INIT, schedule).state;
    if id in s.subs {
      assert ViewOk(id, ViewOf(s, id)) && SubTells(s, id, FatesOf(INIT, schedule, map[]));
    }
  }
}
