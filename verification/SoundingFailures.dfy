/** How failed soundings of an entry are counted, and when its leave is asked for, over any run. */
module SoundingFailures {
  import opened SoundingSpec
  import opened SoundingPeriod

  /** The count has five bits. */
  const FAIL_COUNTS: nat := 32

  /** A result for entry `i`, whose sounding is under way. */
  predicate ResultFor(s: Info, e: Event, i: nat)
    requires Shaped(s)
  {
    e.EndPeriod? && s.phase.SuStart? && s.current == i
  }

  /** The failures of entry `i` since its last success or its last join, as history: `n` before the event.
      The failure of an entry that is to be deleted is none. */
  function Failures(s: Info, e: Event, i: nat, n: nat): nat
    requires Shaped(s) && i < MAX_BEAMFORMEE_ENTRY_NUM
  {
    if e.Join? && e.entry == i then 0
    else if !ResultFor(s, e, i) then n
    else if e.status then 0
    else if s.bfee[i].delete then n
    else n + 1
  }

  /** The history says that a leave of entry `i` is due: this is the 31st failure since the last success or
      join, or the 32nd, 64th and so on after that. */
  predicate LeaveDue(s: Info, e: Event, i: nat, n: nat)
    requires Shaped(s) && i < MAX_BEAMFORMEE_ENTRY_NUM
  {
    Failures(s, e, i, n) == n + 1 && (n + 1) % FAIL_COUNTS == 31
  }

  // ---------------------------------------------------------------- what counts nothing

  predicate SameCounts(s: Info, r: Info) {
    && |r.bfee| == |s.bfee| && r.leaves == s.leaves
    && forall k :: 0 <= k < |s.bfee| ==> r.bfee[k].failCnt == s.bfee[k].failCnt
  }

  lemma {:induction false} AdvanceCounts(s: Info)
    requires Shaped(s) && !s.phase.SuStart?
    ensures SameCounts(s, Advance(s))
    decreases Remaining(s)
  {
    if Unsounded(s, 0) { GoSuCounts(s, s.suList[0]); }
    else if Unsounded(s, 1) { GoSuCounts(s, s.suList[1]); }
  }

  /** An entry that only has to be deleted gets a failure that is not counted. */
  lemma {:induction false} GoSuCounts(s: Info, idx: nat)
    requires Shaped(s) && idx < MAX_BEAMFORMEE_ENTRY_NUM && !s.bfee[idx].sounding
    requires idx == s.suList[0] || idx == s.suList[1]
    ensures SameCounts(s, GoSu(s, idx))
    decreases Remaining(s), 0
  {
    var s1 := StartSu(s, idx);
    if s.bfee[idx].delete { AdvanceCounts(Judged(s1, false)); }
  }

  lemma {:induction false} ConsiderCounts(l: SoundingSpec.Lists, bfee: seq<Bfee>, i: nat, minPeriod: nat)
    requires |l.bfee| == |bfee| && forall k :: 0 <= k < |bfee| ==> l.bfee[k].failCnt == bfee[k].failCnt
    ensures var r := ConsiderFrom(l, i, minPeriod).bfee;
      |r| == |bfee| && forall k :: 0 <= k < |bfee| ==> r[k].failCnt == bfee[k].failCnt
    decreases |l.bfee| - i
  {
    if i < |l.bfee| { ConsiderCounts(Consider(l, i, minPeriod), bfee, i + 1, minPeriod); }
  }

  lemma HandlerCounts(s: Info, scanning: bool)
    requires Shaped(s)
    ensures SameCounts(s, SoundingHandler(s, scanning))
  {
    if s.phase.Init? {
      var r := ResetVars(s);
      PreparedShaped(s);
      ConsiderCounts(SoundingSpec.Lists(r.bfee, [], [], 0), s.bfee, 0, s.minPeriod);
      if Prepare(s).Ok? { AdvanceCounts(Prepare(s).info.(waitCnt := 0)); }
    } else if Accepts(s.phase) {
      AdvanceCounts(s);
    }
  }

  // ---------------------------------------------------------------- one event, and runs

  /** The result of an SU sounding. */
  lemma ResultCounts(s: Info, status: bool)
    requires Shaped(s) && CurrentOk(s) && s.phase.SuStart?
    ensures var b, r := s.bfee[s.current], SoundingDown(s, status);
      var failCnt := if status then 0 else if b.delete then b.failCnt else (b.failCnt + 1) % FAIL_COUNTS;
      && |r.bfee| == |s.bfee| && r.bfee[s.current].failCnt == failCnt
      && (forall k :: 0 <= k < |s.bfee| && k != s.current ==> r.bfee[k].failCnt == s.bfee[k].failCnt)
      && r.leaves == if !status && !b.delete && failCnt == 31 then s.leaves + [s.current] else s.leaves
  {
    AdvanceCounts(Judged(s, status));
  }

  lemma OtherEvents(s: Info, e: Event)
    requires Shaped(s) && !e.Join? && !(e.EndPeriod? && s.phase.SuStart?)
    ensures SameCounts(s, Step(s, e))
  {
    match e
    case StartPeriod(scanning) => HandlerCounts(s, scanning);
    case EndPeriod(status) => if s.phase.MuStart? { AdvanceCounts(s.(phase := MuSoundDown)); }
    case _ =>
  }

  lemma OneMore(n: nat)
    ensures (n % FAIL_COUNTS + 1) % FAIL_COUNTS == (n + 1) % FAIL_COUNTS
  {}

  /** In every event the count of every entry follows the history modulo 32, and leaves are asked for exactly
      when they are due. */
  lemma EventCounts(s: Info, e: Event, i: nat, n: nat)
    requires Shaped(s) && CurrentOk(s) && i < MAX_BEAMFORMEE_ENTRY_NUM && s.bfee[i].failCnt == n % FAIL_COUNTS
    ensures Step(s, e).bfee[i].failCnt == Failures(s, e, i, n) % FAIL_COUNTS
    ensures ResultFor(s, e, i) ==> Step(s, e).leaves == if LeaveDue(s, e, i, n) then s.leaves + [i] else s.leaves
    ensures !(e.EndPeriod? && s.phase.SuStart?) ==> Step(s, e).leaves == s.leaves
  {
    OneMore(n);
    if e.EndPeriod? && s.phase.SuStart? { ResultCounts(s, e.status); }
    else if !e.Join? { OtherEvents(s, e); }
  }

  function FailuresOver(s: Info, events: seq<Event>, i: nat, n: nat): nat
    requires Shaped(s) && i < MAX_BEAMFORMEE_ENTRY_NUM
    decreases |events|
  {
    if events == [] then n else FailuresOver(Step(s, events[0]), events[1..], i, Failures(s, events[0], i, n))
  }

  /** How often a leave of entry `i` became due. */
  function LeavesDue(s: Info, events: seq<Event>, i: nat, n: nat): nat
    requires Shaped(s) && i < MAX_BEAMFORMEE_ENTRY_NUM
    decreases |events|
  {
    if events == [] then 0
    else (if LeaveDue(s, events[0], i, n) then 1 else 0)
         + LeavesDue(Step(s, events[0]), events[1..], i, Failures(s, events[0], i, n))
  }

  lemma AskedOnce(s: Info, e: Event, i: nat, n: nat)
    requires Shaped(s) && CurrentOk(s) && i < MAX_BEAMFORMEE_ENTRY_NUM && s.bfee[i].failCnt == n % FAIL_COUNTS
    ensures multiset(Step(s, e).leaves)[i] == multiset(s.leaves)[i] + if LeaveDue(s, e, i, n) then 1 else 0
  {
    EventCounts(s, e, i, n);
    if e.EndPeriod? && s.phase.SuStart? { ResultCounts(s, e.status); }
  }

  /** Over every run the count of an entry is the number of its failures since its last success or join,
      modulo 32, and a leave is asked for exactly as often as it became due. */
  lemma {:induction false} RunCounts(s: Info, events: seq<Event>, i: nat, n: nat)
    requires Shaped(s) && CurrentOk(s) && i < MAX_BEAMFORMEE_ENTRY_NUM && s.bfee[i].failCnt == n % FAIL_COUNTS
    ensures var r := Run(s, events);
      && r.bfee[i].failCnt == FailuresOver(s, events, i, n) % FAIL_COUNTS
      && multiset(r.leaves)[i] == multiset(s.leaves)[i] + LeavesDue(s, events, i, n)
    decreases |events|
  {
    if events != [] {
      EventCounts(s, events[0], i, n);
      AskedOnce(s, events[0], i, n);
      StepKeepsCurrent(s, events[0]);
      RunCounts(Step(s, events[0]), events[1..], i, Failures(s, events[0], i, n));
    }
  }

  /** A result concerns the entry that was sounded alone; a success clears its count and nothing else, and the
      failure of an entry that is to be deleted clears that mark and nothing else. */
  lemma ResultTouchesOne(s: Info, status: bool, k: nat)
    requires Shaped(s) && s.phase.SuStart? && k < MAX_BEAMFORMEE_ENTRY_NUM
    ensures var b, r := s.bfee[k], Judged(s, status).bfee[k];
      && (k != s.current ==> r == b)
      && (k == s.current && status ==> r == b.(failCnt := 0))
      && (k == s.current && !status && b.delete ==> r == b.(delete := false))
      && (k == s.current && !status && !b.delete ==> r == b.(failCnt := r.failCnt))
  {}

  /** If the leave that was asked for is not obeyed, the next failure starts the count again. */
  lemma CountWraps(s: Info)
    requires Shaped(s) && CurrentOk(s) && s.phase.SuStart?
    requires s.bfee[s.current].failCnt == 31 && !s.bfee[s.current].delete
    ensures var r := SoundingDown(s, false); r.bfee[s.current].failCnt == 0 && r.leaves == s.leaves
  {
    ResultCounts(s, false);
  }
}
