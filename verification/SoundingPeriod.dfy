/** What a sounding period guarantees, whatever order its events come in. */
module SoundingPeriod {
  import opened SoundingSpec

  datatype Event =
    | StartPeriod(scanning: bool)
    | EndPeriod(status: bool)
    | Expired
    | Apply(entry: nat, on: bool)
    | Period(forced: bool)
    | Join(entry: nat, bfee: Bfee)
    | Left(entry: nat, last: bool)
    | Hal(entry: nat, added: bool)

  function Step(s: Info, e: Event): (r: Info)
    requires Shaped(s)
    ensures Shaped(r)
  {
    match e
    case StartPeriod(scanning) => SoundingHandler(s, scanning)
    case EndPeriod(status) => SoundingDown(s, status)
    case Expired => TimeoutTimer(s)
    case Apply(i, on) => ApplySounding(s, i, on)
    case Period(forced) => PeriodTimer(s, forced)
    case Join(i, b) => Enter(s, i, b)
    case Left(i, last) => Leave(s, i, last)
    case Hal(i, added) => HalDone(s, i, added)
  }

  // ---------------------------------------------------------------- the entry being sounded

  /** While an SU sounding is under way, the current entry exists and has not timed out. */
  predicate CurrentOk(s: Info)
    requires Shaped(s)
  {
    s.phase.SuStart? ==> !s.bfee[s.current].timedOut
  }

  lemma {:induction false} AdvanceCurrent(s: Info)
    requires Shaped(s) && !s.phase.SuStart?
    ensures CurrentOk(Advance(s))
    decreases Remaining(s)
  {
    if Unsounded(s, 0) { GoSuCurrent(s, s.suList[0]); }
    else if Unsounded(s, 1) { GoSuCurrent(s, s.suList[1]); }
  }

  lemma {:induction false} GoSuCurrent(s: Info, idx: nat)
    requires Shaped(s) && idx < MAX_BEAMFORMEE_ENTRY_NUM && !s.bfee[idx].sounding
    requires idx == s.suList[0] || idx == s.suList[1]
    ensures CurrentOk(GoSu(s, idx))
    decreases Remaining(s), 0
  {
    var s1 := StartSu(s, idx);
    if s.bfee[idx].delete { AdvanceCurrent(Judged(s1, false)); }
  }

  lemma StepKeepsCurrent(s: Info, e: Event)
    requires Shaped(s) && CurrentOk(s)
    ensures CurrentOk(Step(s, e))
  {
    match e
    case StartPeriod(scanning) =>
      if Accepts(s.phase) {
        if s.phase.Init? {
          PreparedShaped(s);
          if Prepare(s).Ok? { AdvanceCurrent(Prepare(s).info.(waitCnt := 0)); }
        } else {
          AdvanceCurrent(s);
        }
      }
    case EndPeriod(status) =>
      if s.phase.MuStart? { AdvanceCurrent(s.(phase := MuSoundDown)); }
      else if s.phase.SuStart? { AdvanceCurrent(Judged(s, status)); }
    case _ =>
  }

  function Run(s: Info, events: seq<Event>): (r: Info)
    requires Shaped(s)
    ensures Shaped(r)
    decreases |events|
  {
    if events == [] then s else Run(Step(s, events[0]), events[1..])
  }

  /** Over every run, joins and leaves included, the entry being sounded is a valid index with
      its timeout flag clear, so the result of a sounding never ends the period without a
      successor: _beamforming_sounding_down always goes on to the handler. */
  lemma {:induction false} CurrentAlwaysOk(s: Info, events: seq<Event>)
    requires Shaped(s) && CurrentOk(s)
    ensures var r := Run(s, events);
      r.phase.SuStart? ==>
        && r.current < MAX_BEAMFORMEE_ENTRY_NUM && !r.bfee[r.current].timedOut
        && forall status :: SoundingDown(r, status) == Advance(Judged(r, status))
    decreases |events|
  {
    if events != [] {
      StepKeepsCurrent(s, events[0]);
      CurrentAlwaysOk(Step(s, events[0]), events[1..]);
    }
  }

  // ---------------------------------------------------------------- one period

  predicate InPeriod(phase: Phase) { !phase.Idle? && !phase.Init? }

  predicate Lists(s: Info, idx: nat)
    requires Shaped(s)
  {
    idx < MAX_BEAMFORMEE_ENTRY_NUM && (s.suList[0] == idx || s.suList[1] == idx)
  }

  predicate NoRepeats(l: seq<nat>) { forall i, j :: 0 <= i < j < |l| ==> l[i] != l[j] }

  /** The SU entries marked as sounded are exactly those visited, each once; and the MU group
      has been sounded exactly if it was planned and is no longer waiting. */
  predicate PeriodOk(s: Info)
    requires Shaped(s)
  {
    && (s.suList[0] < MAX_BEAMFORMEE_ENTRY_NUM ==> s.suList[0] != s.suList[1])
    && SlotOk(s, 0) && SlotOk(s, 1)
    && NoRepeats(s.visited) && (forall v :: v in s.visited ==> Lists(s, v))
    && s.muRounds + (if s.muCnt > 0 then 1 else 0) == (if s.muPlanned then 1 else 0)
    && (s.phase.SuStart? ==> s.current in s.visited)
  }

  predicate SlotOk(s: Info, i: nat)
    requires Shaped(s) && i < MAX_NUM_BEAMFORMEE_SU
  {
    s.suList[i] < MAX_BEAMFORMEE_ENTRY_NUM ==> (s.bfee[s.suList[i]].sounding <==> s.suList[i] in s.visited)
  }

  /** Every listed SU entry has been sounded exactly once, and the MU group once if there was one. */
  ghost predicate Complete(s: Info)
    requires Shaped(s)
  {
    && NoRepeats(s.visited) && (forall idx :: idx in s.visited <==> Lists(s, idx))
    && s.muRounds == (if s.muPlanned then 1 else 0)
  }

  predicate SamePlan(s: Info, r: Info) {
    r.suList == s.suList && r.muPlanned == s.muPlanned && (InPeriod(r.phase) ==> r.running == s.running)
  }

  /** Choosing the next beamformee uses up the measure, or ends a complete period. */
  lemma {:induction false} AdvanceInPeriod(s: Info)
    requires Shaped(s) && PeriodOk(s) && !s.phase.SuStart?
    ensures var r := Advance(s);
      && PeriodOk(r) && SamePlan(s, r)
      && if Remaining(s) == 0 then r.phase.Init? && Complete(r)
         else (InPeriod(r.phase) && Remaining(r) < Remaining(s)) || (r.phase.Init? && Complete(r))
    decreases Remaining(s), 1
  {
    if Unsounded(s, 0) { GoSuInPeriod(s, s.suList[0]); }
    else if Unsounded(s, 1) { GoSuInPeriod(s, s.suList[1]); }
  }

  lemma {:induction false} GoSuInPeriod(s: Info, idx: nat)
    requires Shaped(s) && PeriodOk(s) && idx < MAX_BEAMFORMEE_ENTRY_NUM && !s.bfee[idx].sounding
    requires idx == s.suList[0] || idx == s.suList[1]
    ensures var r := GoSu(s, idx);
      && PeriodOk(r) && SamePlan(s, r)
      && ((InPeriod(r.phase) && Remaining(r) < Remaining(s)) || (r.phase.Init? && Complete(r)))
    decreases Remaining(s), 0
  {
    var s1 := StartSu(s, idx);
    StartSuOk(s, idx);
    if s.bfee[idx].delete {
      JudgedOk(s1, false);
      AdvanceInPeriod(Judged(s1, false));
    }
  }

  lemma StartSuOk(s: Info, idx: nat)
    requires Shaped(s) && PeriodOk(s) && idx < MAX_BEAMFORMEE_ENTRY_NUM && !s.bfee[idx].sounding
    requires idx == s.suList[0] || idx == s.suList[1]
    ensures var s1 := StartSu(s, idx); PeriodOk(s1) && SamePlan(s, s1) && Remaining(s1) < Remaining(s)
  {
    var s1 := StartSu(s, idx);
    assert idx !in s.visited;
    assert NoRepeats(s1.visited);
    assert forall v :: v in s1.visited <==> v in s.visited || v == idx;
  }

  lemma JudgedOk(s: Info, status: bool)
    requires Shaped(s) && PeriodOk(s) && s.phase.SuStart?
    ensures var r := Judged(s, status); PeriodOk(r) && SamePlan(s, r)
  {}

  /** The events that leave a period alone: all but a join in an entry that is on the SU list, the leave of
      the last beamformee, and the period timer when it is overdue or finds nothing running. */
  predicate Ordinary(e: Event, suList: seq<nat>, running: int) {
    match e
    case Join(entry, _) => entry !in suList
    case Left(_, last) => !last
    case Period(forced) => !forced && running != 0
    case _ => true
  }

  /** The event is taken up: a start in an accepting state, or a result for the sounding under way. */
  predicate Takes(s: Info, e: Event) {
    (e.StartPeriod? && Accepts(s.phase)) || (e.EndPeriod? && (s.phase.SuStart? || s.phase.MuStart?))
  }

  lemma StepInPeriod(s: Info, e: Event)
    requires Shaped(s) && PeriodOk(s) && CurrentOk(s) && InPeriod(s.phase) && Ordinary(e, s.suList, s.running)
    ensures var r := Step(s, e);
      && PeriodOk(r) && SamePlan(s, r) && CurrentOk(r)
      && (InPeriod(r.phase) ==> Remaining(r) <= Remaining(s) && (Takes(s, e) ==> Remaining(r) < Remaining(s)))
      && (!InPeriod(r.phase) ==> r.phase.Init? && Complete(r))
  {
    StepKeepsCurrent(s, e);
    match e
    case StartPeriod(scanning) => if Accepts(s.phase) { AdvanceInPeriod(s); }
    case EndPeriod(status) => DownInPeriod(s, status);
    case Period(forced) =>
    case _ => OthersInPeriod(s, e);
  }

  lemma OthersInPeriod(s: Info, e: Event)
    requires Shaped(s) && PeriodOk(s) && InPeriod(s.phase) && Ordinary(e, s.suList, s.running)
    requires e.Expired? || e.Apply? || e.Join? || e.Left? || e.Hal?
    ensures var r := Step(s, e); PeriodOk(r) && SamePlan(s, r) && InPeriod(r.phase) && Remaining(r) == Remaining(s)
  {
    FlagsOnly(s, Step(s, e));
  }

  lemma DownInPeriod(s: Info, status: bool)
    requires Shaped(s) && PeriodOk(s) && CurrentOk(s) && InPeriod(s.phase)
    ensures var r := SoundingDown(s, status);
      && PeriodOk(r) && SamePlan(s, r)
      && (InPeriod(r.phase) ==> Remaining(r) <= Remaining(s))
      && (InPeriod(r.phase) && (s.phase.SuStart? || s.phase.MuStart?) ==> Remaining(r) < Remaining(s))
      && (!InPeriod(r.phase) ==> r.phase.Init? && Complete(r))
  {
    if s.phase.MuStart? {
      AdvanceInPeriod(s.(phase := MuSoundDown));
    } else if s.phase.SuStart? {
      JudgedOk(s, status);
      AdvanceInPeriod(Judged(s, status));
    }
  }

  /** The other events change neither lists nor the marks of what is on them. */
  lemma FlagsOnly(s: Info, r: Info)
    requires Shaped(s) && PeriodOk(s) && InPeriod(s.phase) && Shaped(r)
    requires r == s.(bfee := r.bfee, phase := r.phase, minPeriod := r.minPeriod)
    requires r.phase == s.phase || r.phase == Timeout
    requires forall k :: k in s.suList && k < MAX_BEAMFORMEE_ENTRY_NUM ==> r.bfee[k].sounding == s.bfee[k].sounding
    ensures PeriodOk(r) && SamePlan(s, r) && InPeriod(r.phase) && Remaining(r) == Remaining(s)
  {}

  /** A run that stops when the period is over, and the number of events taken up on the way. */
  function RunPeriod(s: Info, events: seq<Event>): (r: Info)
    requires Shaped(s)
    ensures Shaped(r)
    decreases |events|
  {
    if events == [] || !InPeriod(s.phase) then s else RunPeriod(Step(s, events[0]), events[1..])
  }

  function Taken(s: Info, events: seq<Event>): nat
    requires Shaped(s)
    decreases |events|
  {
    if events == [] || !InPeriod(s.phase) then 0
    else (if Takes(s, events[0]) then 1 else 0) + Taken(Step(s, events[0]), events[1..])
  }

  lemma {:induction false} RunInPeriod(s: Info, events: seq<Event>)
    requires Shaped(s) && PeriodOk(s) && CurrentOk(s) && InPeriod(s.phase)
    requires forall e :: e in events ==> Ordinary(e, s.suList, s.running)
    ensures var r := RunPeriod(s, events);
      && PeriodOk(r) && SamePlan(s, r)
      && (InPeriod(r.phase) ==> Remaining(r) + Taken(s, events) <= Remaining(s))
      && (!InPeriod(r.phase) ==> r.phase.Init? && Complete(r))
    decreases |events|
  {
    if events != [] {
      assert events[0] in events && forall e :: e in events[1..] ==> e in events;
      StepInPeriod(s, events[0]);
      if InPeriod(Step(s, events[0]).phase) { RunInPeriod(Step(s, events[0]), events[1..]); }
    }
  }

  lemma PreparedOk(s: Info)
    requires Shaped(s) && !s.phase.SuStart? && Prepare(s).Ok?
    ensures Shaped(Prepare(s).info) && PeriodOk(Prepare(s).info)
  {
    PreparedShaped(s);
    var r := ResetVars(s);
    ListsKept(SoundingSpec.Lists(r.bfee, [], [], 0), r.bfee, 0, s.minPeriod);
  }

  /** A period that is begun in state INIT handles each SU entry on its list exactly once and
      its MU group exactly once before the state is INIT again, in whatever order results,
      timeouts, repeated starts, rate changes, joins and leaves arrive; and every event taken up uses up one of
      the entries (or the MU group) that remained, so the period ends. */
  lemma WholePeriod(s: Info, events: seq<Event>)
    requires Shaped(s) && s.phase.Init? && Prepare(s).Ok?
    requires forall e :: e in events ==> Ordinary(e, Prepare(s).info.suList, s.running)
    ensures
      var begun := SoundingHandler(s, false);
      var r := RunPeriod(begun, events);
      && r.suList == Prepare(s).info.suList && r.muPlanned == Prepare(s).info.muPlanned
      && NoRepeats(r.visited) && (forall v :: v in r.visited ==> Lists(r, v))
      && (!InPeriod(r.phase) ==> r.phase.Init? && Complete(r))
      && (InPeriod(r.phase) ==> Remaining(r) + Taken(begun, events) <= Remaining(begun))
  {
    PreparedShaped(s);
    PreparedOk(s);
    var p := Prepare(s).info.(waitCnt := 0);
    AdvanceInPeriod(p);
    AdvanceCurrent(p);
    var begun := SoundingHandler(s, false);
    if InPeriod(begun.phase) { RunInPeriod(begun, events); }
  }
}
