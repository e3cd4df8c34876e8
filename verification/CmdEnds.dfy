/** How things come to an end: what is freed, the end of a wait, and the end of the command thread. */
module CmdEnds {
  import opened CmdProtocol
  import opened CmdSafety
  import opened CmdStatus
  import opened Wrappers

  // ---------------------------------------------------------------- what is freed

  /** The commands whose callback kept the object, as history. */
  function Keep(s: State, a: Action, kept: set<Id>): set<Id> {
    if a.AdvanceThread? && s.tpc.Free? && Holds(s) && !s.draining && !a.env.callbackFrees then kept + {s.hand.value} else kept
  }

  function KeptOver(s: State, schedule: seq<Action>, kept: set<Id>): set<Id>
    decreases |schedule|
  {
    if schedule == [] then kept
    else
      match Step(s, schedule[0])
      case Blocked => KeptOver(s, schedule[1..], kept)
      case Fault => kept
      case Next(s') => KeptOver(s', schedule[1..], Keep(s, schedule[0], kept))
  }

  predicate SubFreed(s: State, id: Id, kept: set<Id>)
    requires id in s.subs
  {
    && (id in s.retired ==> (s.subs[id].cmd.Some? <==> id in kept))
    && (s.subs[id].pc.Returned? && id !in s.accepted ==> s.subs[id].cmd.None?)
  }

  predicate AllFreed(s: State, kept: set<Id>) {
    && (s.draining <==> !s.running)
    && (forall id :: id in kept ==> id in s.retired)
    && forall id :: id in s.subs ==> SubFreed(s, id, kept)
  }

  lemma SubmitterFreed(s: State, id: Id, env: Env, s': State, kept: set<Id>)
    requires Inv(s) && AllFreed(s, kept) && SubmitterStep(s, id, env) == Next(s')
    ensures AllFreed(s', kept)
  {
    SubmitterFrame(s, id, env, s');
    assert ViewOk(id, ViewOf(s, id));
    InPlace(s);
    FreedSub(s, id, env, s', kept);
    AcceptedFrame(s, id, env, s');
    forall i | i in s'.subs ensures SubFreed(s', i, kept) {
      assert SubFreed(s, i, kept);
    }
  }

  lemma FreedSub(s: State, id: Id, env: Env, s': State, kept: set<Id>)
    requires id in s.subs && SubFreed(s, id, kept) && ViewOk(id, ViewOf(s, id)) && SubmitterStep(s, id, env) == Next(s')
    ensures id in s'.subs && SubFreed(s', id, kept) && s'.running == s.running
  {
    AcceptedFrame(s, id, env, s');
    match s.subs[id].pc
    case Filter =>
    case Insert =>
    case Up =>
    case Waiting =>
    case WantLock =>
    case Check =>
    case Unlock =>
    case Leaving =>
  }

  lemma AcceptedFrame(s: State, id: Id, env: Env, s': State)
    requires SubmitterStep(s, id, env) == Next(s')
    ensures forall i :: i in s.accepted ==> i in s'.accepted
    ensures forall i :: i in s'.accepted && i != id ==> i in s.accepted
    ensures id in s.subs && (s.subs[id].pc.Insert? || s'.accepted == s.accepted)
  {
    match s.subs[id].pc
    case Filter =>
    case Insert =>
    case Up =>
    case Waiting =>
    case WantLock =>
    case Check =>
    case Unlock =>
    case Leaving =>
  }

  /** Every step of the thread but the last one of a command. */
  lemma ThreadFreed(s: State, env: Env, s': State, kept: set<Id>)
    requires Inv(s) && AllFreed(s, kept) && !s.tpc.Free? && ThreadStep(s, env) == Next(s')
    ensures AllFreed(s', kept)
  {
    ThreadFrame(s, env, s');
    forall i | i in s'.subs ensures SubFreed(s', i, kept) {
      assert SubFreed(s, i, kept) && SameObject(s.subs[i], s'.subs[i]);
    }
  }

  predicate SameObject(sub: Sub, sub': Sub) { sub'.pc == sub.pc && (sub'.cmd.Some? <==> sub.cmd.Some?) }

  lemma ThreadFrame(s: State, env: Env, s': State)
    requires !s.tpc.Free? && ThreadStep(s, env) == Next(s')
    ensures s'.subs.Keys == s.subs.Keys && forall i :: i in s.subs ==> SameObject(s.subs[i], s'.subs[i])
    ensures s'.retired == s.retired && s'.accepted == s.accepted
    ensures if s.tpc.Exit? then s'.draining && !s'.running else s'.draining == s.draining && s'.running == s.running
  {
    if InHandPc(s.tpc) { HandFrame(s, env, s'); } else { OutsideFrame(s, env, s'); }
  }

  lemma OutsideFrame(s: State, env: Env, s': State)
    requires !InHandPc(s.tpc) && ThreadStep(s, env) == Next(s')
    ensures s'.subs == s.subs && s'.retired == s.retired && s'.accepted == s.accepted
    ensures if s.tpc.Exit? then s'.draining && !s'.running else s'.draining == s.draining && s'.running == s.running
  {
    match s.tpc
    case Down =>
    case CheckRun =>
    case CheckEmpty =>
    case NextRun =>
    case Dequeue =>
    case Exit =>
  }

  lemma HandFrame(s: State, env: Env, s': State)
    requires InHandPc(s.tpc) && !s.tpc.Free? && ThreadStep(s, env) == Next(s')
    ensures s'.subs.Keys == s.subs.Keys && forall i :: i in s.subs ==> SameObject(s.subs[i], s'.subs[i])
    ensures s'.retired == s.retired && s'.accepted == s.accepted && s'.draining == s.draining && s'.running == s.running
  {
    match s.tpc
    case Classify =>
      ClassifyFrame(s, env, s');
      ClassifyObject(s, env, s');
    case Execute =>
    case Lock =>
    case Done =>
    case Complete =>
    case Clear =>
    case Release =>
  }

  lemma ClassifyObject(s: State, env: Env, s': State)
    requires Holds(s) && ClassifyStep(s, env) == Next(s')
    ensures s'.accepted == s.accepted && s'.running == s.running && s'.subs.Keys == s.subs.Keys
    ensures SameObject(s.subs[s.hand.value], s'.subs[s.hand.value])
  {}

  lemma LastFreed(s: State, env: Env, s': State, kept: set<Id>)
    requires Inv(s) && AllFreed(s, kept) && s.tpc.Free? && Holds(s) && FreeStep(s, env) == Next(s')
    ensures AllFreed(s', Keep(s, AdvanceThread(env), kept))
  {
    var id, kept' := s.hand.value, Keep(s, AdvanceThread(env), kept);
    InPlace(s);
    forall i | i in s'.subs ensures SubFreed(s', i, kept') {
      assert SubFreed(s, i, kept);
    }
  }

  lemma StepFreed(s: State, a: Action, s': State, kept: set<Id>)
    requires Inv(s) && AllFreed(s, kept) && WellSized(a) && Step(s, a) == Next(s')
    ensures AllFreed(s', Keep(s, a, kept))
  {
    match a
    case NewSubmission(id, adapter, waits, kind) =>
      InPlace(s);
      forall i | i in s'.subs ensures SubFreed(s', i, kept) {
        if i != id { assert SubFreed(s, i, kept); }
      }
    case AdvanceSubmitter(id, env) => SubmitterFreed(s, id, env, s', kept);
    case AdvanceThread(env) =>
      if s.tpc.Free? { LastFreed(s, env, s', kept); } else { ThreadFreed(s, env, s', kept); }
    case StopThread =>
      forall i | i in s'.subs ensures SubFreed(s', i, kept) { assert SubFreed(s, i, kept); }
  }

  lemma {:induction false} RunFreed(s: State, schedule: seq<Action>, kept: set<Id>)
    requires Inv(s) && AllFreed(s, kept) && AllWellSized(schedule)
    ensures Run(s, schedule).Next? && AllFreed(Run(s, schedule).state, KeptOver(s, schedule, kept))
    decreases |schedule|
  {
    if schedule != [] {
      assert schedule[0] in schedule && forall a :: a in schedule[1..] ==> a in schedule;
      StepKeepsInv(s, schedule[0]);
      match Step(s, schedule[0])
      case Blocked => RunFreed(s, schedule[1..], kept);
      case Fault =>
      case Next(s') =>
        StepFreed(s, schedule[0], s', kept);
        RunFreed(s', schedule[1..], Keep(s, schedule[0], kept));
    }
  }

  /** After any schedule a command that the thread has finished with is freed exactly if its callback did not
      keep it, those of the drain always, and one that was refused is freed; and the drain has begun exactly if
      the thread does not run any more. */
  lemma NothingLeaks(schedule: seq<Action>, id: Id)
    requires AllWellSized(schedule) && Run(INIT, schedule).Next?
    ensures var s, kept := Run(INIT, schedule).state, KeptOver(INIT, schedule, {});
      && (s.draining <==> !s.running)
      && (id in s.subs && id in s.retired ==> (s.subs[id].cmd.None? <==> id !in kept))
      && (id in s.subs && s.subs[id].pc.Returned? && id !in s.accepted ==> s.subs[id].cmd.None?)
  {
    RunFreed(INIT, schedule, {});
    var s := Run(INIT, schedule).state;
    if id in s.subs { assert SubFreed(s, id, KeptOver(INIT, schedule, {})); }
  }

  // ---------------------------------------------------------------- no command after the end

  /** When the thread does not run any more, nothing is accepted but what has passed the filter before. */
  lemma {:induction false} NothingAccepted(s: State, schedule: seq<Action>, id: Id)
    requires Inv(s) && AllWellSized(schedule) && !s.running && id !in s.accepted
    requires id in s.subs ==> !s.subs[id].pc.Insert?
    ensures Run(s, schedule).Next? && id !in Run(s, schedule).state.accepted
    decreases |schedule|
  {
    if schedule != [] {
      var a := schedule[0];
      assert a in schedule && forall x :: x in schedule[1..] ==> x in schedule;
      StepKeepsInv(s, a);
      if Step(s, a).Next? {
        StaysOut(s, a, Step(s, a).state, id);
        NothingAccepted(Step(s, a).state, schedule[1..], id);
      } else {
        NothingAccepted(s, schedule[1..], id);
      }
    }
  }

  lemma StaysOut(s: State, a: Action, s': State, id: Id)
    requires Inv(s) && !s.running && id !in s.accepted && (id in s.subs ==> !s.subs[id].pc.Insert?) && Step(s, a) == Next(s')
    ensures !s'.running && id !in s'.accepted && (id in s'.subs ==> !s'.subs[id].pc.Insert?)
  {
    match a
    case NewSubmission(i, adapter, waits, kind) =>
    case AdvanceSubmitter(i, env) => SubmitterStaysOut(s, i, env, s', id);
    case AdvanceThread(env) =>
      if s.tpc.Free? { QueueIsLive(s); } else { ThreadFrame(s, env, s'); }
      if id in s'.subs { assert s'.subs[id].pc == s.subs[id].pc; }
    case StopThread =>
  }

  lemma SubmitterStaysOut(s: State, i: Id, env: Env, s': State, id: Id)
    requires !s.running && id !in s.accepted && (id in s.subs ==> !s.subs[id].pc.Insert?)
    requires SubmitterStep(s, i, env) == Next(s')
    ensures !s'.running && id !in s'.accepted && (id in s'.subs ==> !s'.subs[id].pc.Insert?)
  {
    match s.subs[i].pc
    case Filter =>
    case Insert =>
    case Up =>
    case Waiting =>
    case WantLock =>
    case Check =>
    case Unlock =>
    case Leaving =>
  }

  // ---------------------------------------------------------------- the end of a wait

  /** A waiter goes on exactly when it is signalled or its time is up. */
  lemma WaitsUntil(s: State, id: Id, env: Env)
    requires Inv(s) && id in s.subs && s.subs[id].pc.Waiting?
    ensures s.subs[id].ctx.Some?
    ensures SubmitterStep(s, id, env) != Blocked <==> s.subs[id].ctx.value.signalled || env.timeout
  {
    assert ViewOk(id, ViewOf(s, id));
  }

  /** The same action, again and again. */
  function Repeat(a: Action, n: nat): (r: seq<Action>)
    ensures |r| == n && forall x :: x in r ==> x == a
  {
    if n == 0 then [] else [a] + Repeat(a, n - 1)
  }

  lemma RepeatStep(s: State, a: Action, s': State, n: nat)
    requires Step(s, a) == Next(s')
    ensures Run(s, Repeat(a, n + 1)) == Run(s', Repeat(a, n))
  {
    assert Repeat(a, n + 1)[1..] == Repeat(a, n);
  }

  lemma {:induction false} RunConcat(s: State, one: seq<Action>, more: seq<Action>)
    requires Run(s, one).Next?
    ensures Run(s, one + more) == Run(Run(s, one).state, more)
    decreases |one|
  {
    if one == [] {
      assert one + more == more;
    } else {
      assert (one + more)[1..] == one[1..] + more;
      match Step(s, one[0])
      case Next(s') => RunConcat(s', one[1..], more);
      case Blocked => RunConcat(s, one[1..], more);
      case Fault =>
    }
  }

  lemma {:induction false} RepeatConcat(a: Action, m: nat, n: nat)
    ensures Repeat(a, m) + Repeat(a, n) == Repeat(a, m + n)
    decreases m
  {
    if m > 0 {
      RepeatConcat(a, m - 1, n);
      assert Repeat(a, m) + Repeat(a, n) == [a] + (Repeat(a, m - 1) + Repeat(a, n));
    } else {
      assert Repeat(a, 0) + Repeat(a, n) == Repeat(a, n);
    }
  }

  function PcRank(pc: SubPc): nat {
    match pc case Waiting => 5 case WantLock => 4 case Check => 3 case Unlock => 2 case Leaving => 1 case _ => 0
  }

  /** One step of a waiter that does not have to wait. */
  lemma WaiterStep(s: State, id: Id, env: Env, s': State)
    requires id in s.subs && SubmitterStep(s, id, env) == Next(s') && 0 < PcRank(s.subs[id].pc)
    ensures id in s'.subs && PcRank(s'.subs[id].pc) == PcRank(s.subs[id].pc) - 1 && s'.subs[id].adapter == s.subs[id].adapter
    ensures s'.subs[id].pc.WantLock? ==> s'.mutex == s.mutex
    ensures s.subs[id].pc.Leaving? ==> s'.subs[id].pc.Returned? && s'.subs[id].ctx.None?
  {
    match s.subs[id].pc
    case Waiting =>
    case WantLock =>
    case Check =>
    case Unlock =>
    case Leaving =>
  }

  lemma WaiterGoes(s: State, id: Id, env: Env)
    requires Inv(s) && id in s.subs && 0 < PcRank(s.subs[id].pc)
    requires s.subs[id].pc.Waiting? ==> s.subs[id].ctx.Some? && (s.subs[id].ctx.value.signalled || env.timeout)
    requires s.subs[id].pc.WantLock? ==> s.subs[id].adapter !in s.mutex
    ensures SubmitterStep(s, id, env).Next? && Inv(SubmitterStep(s, id, env).state)
  {
    SubmitterKeepsInv(s, id, env);
  }

  /** It then returns with five steps of its own if nobody holds the mutex. */
  lemma {:induction false} WaiterReturns(s: State, id: Id, env: Env)
    requires Inv(s) && id in s.subs && 0 < PcRank(s.subs[id].pc)
    requires s.subs[id].pc.Waiting? ==> s.subs[id].ctx.Some? && (s.subs[id].ctx.value.signalled || env.timeout)
    requires s.subs[id].pc.Waiting? || s.subs[id].pc.WantLock? ==> s.subs[id].adapter !in s.mutex
    ensures var r := Run(s, Repeat(AdvanceSubmitter(id, env), PcRank(s.subs[id].pc)));
      r.Next? && id in r.state.subs && r.state.subs[id].pc.Returned? && r.state.subs[id].ctx.None?
    decreases PcRank(s.subs[id].pc)
  {
    var go, n := AdvanceSubmitter(id, env), PcRank(s.subs[id].pc);
    WaiterGoes(s, id, env);
    var s' := SubmitterStep(s, id, env).state;
    WaiterStep(s, id, env, s');
    RepeatStep(s, go, s', n - 1);
    if n > 1 { WaiterReturns(s', id, env); }
  }

  // ---------------------------------------------------------------- the end of the command thread

  /** In the middle of the drain: `id` was taken from the head of the queue of `s0`. */
  predicate InDrain(s: State, s0: State, id: Id, a: nat) {
    && s.draining && s.hand == Some(id) && s.running == s0.running && s.accepted == s0.accepted
    && s0.queue == [id] + s.queue && s.retired == s0.retired
    && Holds(s) && HeldCmd(s).padapter == a && s.mutex == (if ThreadLocked(s.tpc) then map[a := Thread] else map[])
    && TpcRank(s.tpc) > 0
  }

  function TpcRank(pc: ThreadPc): nat {
    match pc case Lock => 6 case Done => 5 case Complete => 4 case Clear => 3 case Release => 2 case Free => 1 case _ => 0
  }

  /** The queue of `s0` without its head, which is finished with. */
  predicate Drained1(s: State, s0: State, id: Id) {
    && s.draining && s.mutex == map[] && s.tpc.Dequeue? && s.running == s0.running && s.accepted == s0.accepted
    && s0.queue == [id] + s.queue && s.retired == s0.retired + [id]
  }

  lemma DrainStep(s: State, s0: State, id: Id, a: nat, env: Env)
    requires InDrain(s, s0, id, a)
    ensures ThreadStep(s, env) != Blocked
    ensures ThreadStep(s, env).Next? ==> var s' := ThreadStep(s, env).state;
      if s.tpc.Free? then Drained1(s', s0, id) else InDrain(s', s0, id, a) && TpcRank(s'.tpc) < TpcRank(s.tpc)
  {
    match s.tpc
    case Lock =>
    case Done =>
    case Complete =>
    case Clear =>
    case Release =>
    case Free =>
  }

  /** The thread takes a step that is not blocked. */
  lemma Goes(s: State, env: Env) returns (s': State)
    requires Reachable(s) && ThreadStep(s, env) != Blocked
    ensures Reachable(s') && ThreadStep(s, env) == Next(s')
  {
    assert ThreadStep(s, env).Next? by {
      ReachableInv(s);
      ThreadKeepsInv(s, env);
    }
    s' := ThreadStep(s, env).state;
    ReachableStep(s, AdvanceThread(env), s');
  }

  lemma {:induction false} FinishHand(s: State, s0: State, id: Id, a: nat, env: Env) returns (s': State, m: nat)
    requires Reachable(s) && InDrain(s, s0, id, a)
    ensures Reachable(s') && Drained1(s', s0, id)
    ensures Run(s, Repeat(AdvanceThread(env), m)) == Next(s')
    decreases TpcRank(s.tpc)
  {
    DrainStep(s, s0, id, a, env);
    var s1 := Goes(s, env);
    if s.tpc.Free? {
      s', m := s1, 1;
    } else {
      s', m := FinishHand(s1, s0, id, a, env);
      m := m + 1;
    }
    RepeatStep(s, AdvanceThread(env), s1, m - 1);
  }

  lemma TakesHead(s: State, env: Env, id: Id, a: nat)
    requires s.draining && s.mutex == map[] && s.tpc.Dequeue? && s.queue != [] && s.queue[0] == id
    requires QueueLive(s) && id in s.subs && s.subs[id].cmd.Some? && s.subs[id].cmd.value.padapter == a
    ensures ThreadStep(s, env).Next? && InDrain(ThreadStep(s, env).state, s, id, a)
  {}

  lemma DrainOne(s: State, env: Env) returns (s': State, m: nat)
    requires Reachable(s) && s.draining && s.mutex == map[] && s.tpc.Dequeue? && s.queue != []
    ensures Reachable(s') && Drained1(s', s, s.queue[0])
    ensures Run(s, Repeat(AdvanceThread(env), m)) == Next(s')
  {
    var id := s.queue[0];
    assert QueueLive(s) && id in s.queue by {
      ReachableInv(s);
      QueueIsLive(s);
    }
    var a := s.subs[id].cmd.value.padapter;
    TakesHead(s, env, id, a);
    var s1 := Goes(s, env);
    s', m := FinishHand(s1, s, id, a, env);
    RepeatStep(s, AdvanceThread(env), s1, m);
    m := m + 1;
  }

  /** The thread has halted and all that was queued in `s0` is done with. */
  predicate Ended(s: State, s0: State) {
    s.tpc.Halted? && s.queue == [] && s.retired == s0.retired + s0.queue && s.accepted == s0.accepted && s.running == s0.running
  }

  /** If nobody holds a mutex the drain empties the queue and the thread halts. */
  lemma {:induction false} DrainEmpties(s: State, env: Env) returns (s': State, m: nat)
    requires Reachable(s) && s.draining && s.mutex == map[] && s.tpc.Dequeue?
    ensures Reachable(s') && Ended(s', s) && Run(s, Repeat(AdvanceThread(env), m)) == Next(s')
    decreases |s.queue|
  {
    var go := AdvanceThread(env);
    if s.queue == [] {
      s' := HaltsEmpty(s, env);
      ReachableStep(s, go, s');
      m := 1;
      RepeatStep(s, go, s', 0);
    } else {
      var s1, m1 := DrainOne(s, env);
      s', m := DrainEmpties(s1, env);
      JoinRuns(s, s1, s', go, m1, m);
      EndsNext(s, s1, s', s.queue[0]);
      m := m1 + m;
    }
  }

  lemma HaltsEmpty(s: State, env: Env) returns (s': State)
    requires s.draining && s.tpc.Dequeue? && s.queue == []
    ensures ThreadStep(s, env) == Next(s') && Ended(s', s)
  {
    s' := DequeueStep(s).state;
    assert s.retired + [] == s.retired;
  }

  lemma JoinRuns(s: State, s1: State, s2: State, a: Action, m: nat, n: nat)
    requires Run(s, Repeat(a, m)) == Next(s1) && Run(s1, Repeat(a, n)) == Next(s2)
    ensures Run(s, Repeat(a, m + n)) == Next(s2)
  {
    RunConcat(s, Repeat(a, m), Repeat(a, n));
    RepeatConcat(a, m, n);
  }

  lemma EndsNext(s: State, s1: State, s2: State, id: Id)
    requires Drained1(s1, s, id) && Ended(s2, s1)
    ensures Ended(s2, s)
  {
    Assoc1(s.retired, id, s1.queue);
  }

  lemma Assoc1(a: seq<Id>, x: Id, b: seq<Id>)
    ensures (a + [x]) + b == a + ([x] + b)
  {}

  /** Where the thread leaves its loop: the semaphore is interrupted, or it may not run any more at one of its
      checks. */
  predicate Leaves(s: State, env: Env) {
    (s.tpc.Down? && env.downFails) || ((s.tpc.CheckRun? || s.tpc.NextRun?) && env.cannotRun)
  }

  lemma LeavesExactly(s: State, env: Env, s': State)
    requires ThreadStep(s, env) == Next(s')
    ensures s'.tpc.Exit? <==> Leaves(s, env)
  {
    if InHandPc(s.tpc) {
      if Holds(s) { HandStays(s, env, s'); }
    } else {
      match s.tpc
      case Down =>
      case CheckRun =>
      case CheckEmpty =>
      case NextRun =>
      case Dequeue =>
      case Exit =>
    }
  }

  lemma HandStays(s: State, env: Env, s': State)
    requires Holds(s) && InHandPc(s.tpc) && HandStep(s, env) == Next(s')
    ensures !s'.tpc.Exit?
  {
    match s.tpc
    case Classify =>
    case Execute =>
    case Lock =>
    case Done =>
    case Complete =>
    case Clear =>
    case Release =>
    case Free =>
  }

  /** From there, if nobody holds a mutex, the thread completes everything that is queued and halts, and does not
      run any more; so everything that was accepted is finished with, and whoever waits for it was answered or
      has gone. */
  lemma ThreadEnds(s: State, env: Env) returns (s': State, m: nat)
    requires Reachable(s) && Leaves(s, env) && s.mutex == map[]
    ensures Reachable(s') && Run(s, Repeat(AdvanceThread(env), m)) == Next(s')
    ensures s'.tpc.Halted? && !s'.running && s'.queue == [] && s'.retired == s'.accepted == s.accepted
    ensures forall id :: id in s.accepted && id in s'.subs && s'.subs[id].waits ==>
      s'.subs[id].completions == 1 || s'.subs[id].detached
  {
    var go := AdvanceThread(env);
    var s1 := Goes(s, env);
    var s2 := Goes(s1, env);
    s', m := DrainEmpties(s2, env);
    RepeatStep(s1, go, s2, m);
    RepeatStep(s, go, s1, m + 1);
    m := m + 2;
    assert s'.retired == s'.accepted by {
      ReachableInv(s);
      AllRetired(s, s');
    }
    forall id | id in s.accepted && id in s'.subs && s'.subs[id].waits
      ensures s'.subs[id].completions == 1 || s'.subs[id].detached
    {
      CompletedExactlyOnce(s', id);
    }
  }

  lemma AllRetired(s: State, s': State)
    requires Conserved(s) && s.hand == None && s'.retired == s.retired + s.queue && s'.accepted == s.accepted
    ensures s'.retired == s'.accepted
  {
    assert s.retired + [] == s.retired;
  }

  /** A stop request wakes a thread that waits, and one that may not run then leaves. */
  lemma StopWakes(s: State, env: Env)
    requires s.tpc.Down? && env.cannotRun && !env.downFails
    ensures var r := Run(s, [StopThread, AdvanceThread(env)]);
      r.Next? && Leaves(r.state, env) && r.state.mutex == s.mutex && r.state.accepted == s.accepted
  {
    var s1 := s.(sema := s.sema + 1);
    var s2 := s1.(sema := s.sema, tpc := CheckRun);
    assert ThreadStep(s1, env) == Next(s2);
    TwoSteps(s, StopThread, s1, AdvanceThread(env), s2);
  }

  lemma TwoSteps(s: State, a: Action, s1: State, b: Action, s2: State)
    requires Step(s, a) == Next(s1) && Step(s1, b) == Next(s2)
    ensures Run(s, [a, b]) == Next(s2)
  {
    assert [a, b][1..] == [b] && [b][1..] == [];
    assert Run(s2, []) == Next(s2);
    assert Run(s1, [b]) == Next(s2);
  }
}
