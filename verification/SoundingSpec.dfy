/** The sounding scheduler of core/rtw_beamforming.c (version 2) as functions on its state:
    the start of a period, the choice of the next beamformee, and the two handlers that call
    each other when an entry only has to be deleted. */
module SoundingSpec {

  const MAX_NUM_BEAMFORMEE_SU: nat := 2
  const MAX_NUM_BEAMFORMEE_MU: nat := 6
  const MAX_BEAMFORMEE_ENTRY_NUM: nat := 8
  const NO_ENTRY: nat := 0xFF

  datatype Phase = Idle | Init | SuStart | SuSoundDown | MuStart | MuSoundDown | Timeout

  /** A beamformee_entry.  `ready` is BEAMFORM_ENTRY_HW_STATE_ADDED; `su` stands for
      BEAMFORMEE_CAP_VHT_SU | BEAMFORMEE_CAP_HT_EXPLICIT. */
  datatype Bfee = Bfee(used: bool, ready: bool, mu: bool, su: bool, period: nat, soundCnt: nat,
                       sounding: bool, candidate: bool, timedOut: bool, delete: bool,
                       apply: bool, suspended: bool, failCnt: nat)

  /** `visited` and `muRounds` are history: the SU entries handled since the period began, in
      order, and the number of times the MU group was sounded; `muPlanned` says that the
      period began with MU candidates.  `leaves` are the entries for which a LEAVE command has
      been queued. */
  datatype Info = Info(
    bfee: seq<Bfee>, suList: seq<nat>, muList: seq<nat>, phase: Phase, current: nat, muCnt: nat,
    minPeriod: nat, running: int, waitCnt: nat,
    visited: seq<nat>, muRounds: nat, muPlanned: bool, leaves: seq<nat>)

  // ---------------------------------------------------------------- start of a period

  function Cleared(b: Bfee): Bfee {
    if b.used && b.sounding then b.(sounding := false, candidate := false) else b
  }

  function ClearedAll(bfee: seq<Bfee>): (r: seq<Bfee>)
    ensures |r| == |bfee| && forall i :: 0 <= i < |bfee| ==> r[i] == Cleared(bfee[i])
  {
    seq(|bfee|, i requires 0 <= i < |bfee| => Cleared(bfee[i]))
  }

  function Blank(n: nat): (r: seq<nat>)
    ensures |r| == n && forall i :: 0 <= i < n ==> r[i] == NO_ENTRY
  {
    seq(n, _ => NO_ENTRY)
  }

  /** _sounding_reset_vars */
  function ResetVars(s: Info): Info {
    s.(suList := Blank(MAX_NUM_BEAMFORMEE_SU), muList := Blank(MAX_NUM_BEAMFORMEE_MU),
       current := NO_ENTRY, muCnt := 0,
       bfee := ClearedAll(s.bfee))
  }

  datatype Lists = Lists(bfee: seq<Bfee>, su: seq<nat>, mu: seq<nat>, notReady: nat)

  /** GetInitSoundCnt, stored in a u8.  The minimum is 0 while no entry is in use, and after the last leave,
      when the leaving entry is not ready any more; for 0, by which the code would divide, the count is 0. */
  function InitSoundCnt(period: nat, minPeriod: nat): nat {
    if minPeriod == 0 then 0 else (period / minPeriod) % 256
  }

  function Chosen(b: Bfee, minPeriod: nat): Bfee {
    b.(candidate := true, soundCnt := InitSoundCnt(b.period, minPeriod))
  }

  /** The body of the loop of _sounding_get_list for entry `i`. */
  function Consider(l: Lists, i: nat, minPeriod: nat): Lists
    requires i < |l.bfee|
  {
    var b := l.bfee[i];
    if !b.used then l
    else if !b.ready then l.(notReady := l.notReady + 1)
    else
      var b1 := if b.soundCnt > 0 then b.(soundCnt := b.soundCnt - 1) else b;
      var l1 := l.(bfee := l.bfee[i := b1]);
      if b1.soundCnt > 0 then l1
      else if b.mu then
        if |l.mu| >= MAX_NUM_BEAMFORMEE_MU || !b.apply then l1
        else l1.(bfee := l.bfee[i := Chosen(b1, minPeriod)], mu := l.mu + [i])
      else if b.su then
        if |l.su| >= MAX_NUM_BEAMFORMEE_SU then l1
        else if b.delete then l1.(su := l.su + [i])
        else if b.apply && !b.suspended then l1.(bfee := l.bfee[i := Chosen(b1, minPeriod)], su := l.su + [i])
        else l1
      else l1
  }

  function ConsiderFrom(l: Lists, i: nat, minPeriod: nat): Lists
    decreases |l.bfee| - i
  {
    if i >= |l.bfee| then l else ConsiderFrom(Consider(l, i, minPeriod), i + 1, minPeriod)
  }

  // What the loop selects, said without it: the entries whose turn it is, in order, up to the limits.

  predicate DueMu(b: Bfee) { b.used && b.ready && b.soundCnt <= 1 && b.mu && b.apply }

  predicate DueSu(b: Bfee) {
    b.used && b.ready && b.soundCnt <= 1 && !b.mu && b.su && (b.delete || (b.apply && !b.suspended))
  }

  function Due(bfee: seq<Bfee>, i: nat, mu: bool): seq<nat>
    decreases |bfee| - i
  {
    if i >= |bfee| then []
    else (if (if mu then DueMu(bfee[i]) else DueSu(bfee[i])) then [i] else []) + Due(bfee, i + 1, mu)
  }

  function Take(l: seq<nat>, n: nat): seq<nat> { if |l| <= n then l else l[..n] }

  /** _sounding_get_list lists the first two SU and the first six MU beamformees that are due. */
  lemma {:induction false} ListsTheDue(l: Lists, bfee: seq<Bfee>, i: nat, minPeriod: nat)
    requires |l.bfee| == |bfee| && forall k :: i <= k < |bfee| ==> l.bfee[k] == bfee[k]
    requires |l.su| <= MAX_NUM_BEAMFORMEE_SU && |l.mu| <= MAX_NUM_BEAMFORMEE_MU
    ensures var l' := ConsiderFrom(l, i, minPeriod);
      && l'.su == Take(l.su + Due(bfee, i, false), MAX_NUM_BEAMFORMEE_SU)
      && l'.mu == Take(l.mu + Due(bfee, i, true), MAX_NUM_BEAMFORMEE_MU)
    decreases |bfee| - i
  {
    if i < |bfee| {
      TakeMore(l.su, i, Due(bfee, i + 1, false), MAX_NUM_BEAMFORMEE_SU);
      TakeMore(l.mu, i, Due(bfee, i + 1, true), MAX_NUM_BEAMFORMEE_MU);
      ListsTheDue(Consider(l, i, minPeriod), bfee, i + 1, minPeriod);
    }
  }

  lemma TakeMore(l: seq<nat>, i: nat, rest: seq<nat>, n: nat)
    requires |l| <= n
    ensures [] + rest == rest
    ensures Take(l + ([i] + rest), n) == if |l| < n then Take((l + [i]) + rest, n) else Take(l + rest, n)
  {
    assert l + ([i] + rest) == (l + [i]) + rest;
  }

  function Padded(l: seq<nat>, n: nat): seq<nat>
    requires |l| <= n
  {
    l + Blank(n - |l|)
  }

  datatype Prepared = Ok(info: Info) | NoBfee(info: Info) | NotReady(info: Info)

  /** _sounding_reset_vars followed by _sounding_get_list. */
  function Prepare(s: Info): Prepared {
    var r := ResetVars(s);
    var l := ConsiderFrom(Lists(r.bfee, [], [], 0), 0, s.minPeriod);
    ListsKept(Lists(r.bfee, [], [], 0), r.bfee, 0, s.minPeriod);
    var s' := r.(bfee := l.bfee, suList := Padded(l.su, MAX_NUM_BEAMFORMEE_SU), muList := Padded(l.mu, MAX_NUM_BEAMFORMEE_MU),
                 muCnt := |l.mu|, visited := [], muRounds := 0, muPlanned := |l.mu| > 0);
    if |l.su| + |l.mu| > 0 then Ok(s') else if l.notReady > 0 then NotReady(s') else NoBfee(s')
  }

  /** The lists after considering the entries below `i` of `bfee`. */
  predicate ListsOk(l: Lists, bfee: seq<Bfee>, i: nat) {
    && |l.su| <= MAX_NUM_BEAMFORMEE_SU && |l.mu| <= MAX_NUM_BEAMFORMEE_MU && |l.bfee| == |bfee|
    && (forall k :: 0 <= k < |l.su| ==> l.su[k] < i && l.su[k] < |bfee| && bfee[l.su[k]].used && l.su[k] !in l.mu)
    && (forall k :: 0 <= k < |l.mu| ==> l.mu[k] < i && l.mu[k] < |bfee| && bfee[l.mu[k]].used)
    && (forall j, k :: 0 <= j < k < |l.su| ==> l.su[j] < l.su[k])
    && (forall j, k :: 0 <= j < k < |l.mu| ==> l.mu[j] < l.mu[k])
    && (forall k :: 0 <= k < |bfee| ==> SameMarks(l.bfee[k], bfee[k]))
  }

  predicate SameMarks(b: Bfee, c: Bfee) {
    b.used == c.used && b.sounding == c.sounding && b.delete == c.delete && b.timedOut == c.timedOut
  }

  lemma {:induction false} ListsKept(l: Lists, bfee: seq<Bfee>, i: nat, minPeriod: nat)
    requires ListsOk(l, bfee, i) && i <= |bfee|
    ensures ListsOk(ConsiderFrom(l, i, minPeriod), bfee, |bfee|)
    decreases |bfee| - i
  {
    if i < |l.bfee| {
      ConsiderKeeps(l, bfee, i, minPeriod);
      ListsKept(Consider(l, i, minPeriod), bfee, i + 1, minPeriod);
    }
  }

  lemma ConsiderKeeps(l: Lists, bfee: seq<Bfee>, i: nat, minPeriod: nat)
    requires ListsOk(l, bfee, i) && i < |bfee|
    ensures ListsOk(Consider(l, i, minPeriod), bfee, i + 1)
  {
    ConsiderMarks(l, bfee, i, minPeriod);
    assert i !in l.mu && i !in l.su;
  }

  lemma ConsiderMarks(l: Lists, bfee: seq<Bfee>, i: nat, minPeriod: nat)
    requires |l.bfee| == |bfee| && i < |bfee| && forall k :: 0 <= k < |bfee| ==> SameMarks(l.bfee[k], bfee[k])
    ensures var l' := Consider(l, i, minPeriod);
      |l'.bfee| == |bfee| && forall k :: 0 <= k < |bfee| ==> SameMarks(l'.bfee[k], bfee[k])
  {}

  // ---------------------------------------------------------------- one step

  predicate Shaped(s: Info) {
    && |s.bfee| == MAX_BEAMFORMEE_ENTRY_NUM && |s.suList| == MAX_NUM_BEAMFORMEE_SU && |s.muList| == MAX_NUM_BEAMFORMEE_MU
    && s.muCnt <= MAX_NUM_BEAMFORMEE_MU
    && (forall i :: 0 <= i < s.muCnt ==> s.muList[i] < MAX_BEAMFORMEE_ENTRY_NUM)
    && (s.phase.SuStart? ==> s.current < MAX_BEAMFORMEE_ENTRY_NUM)
  }

  /** The SU slot `i` lists an entry that has not been sounded yet. */
  predicate Unsounded(s: Info, i: nat)
    requires Shaped(s) && i < MAX_NUM_BEAMFORMEE_SU
  {
    s.suList[i] < MAX_BEAMFORMEE_ENTRY_NUM && !s.bfee[s.suList[i]].sounding
  }

  /** Unsounded entries in the SU list, plus one if MU candidates remain. */
  function Remaining(s: Info): nat
    requires Shaped(s)
  {
    (if Unsounded(s, 0) then 1 else 0) + (if Unsounded(s, 1) then 1 else 0) + (if s.muCnt > 0 then 1 else 0)
  }

  function StartSu(s: Info, idx: nat): Info
    requires Shaped(s) && idx < MAX_BEAMFORMEE_ENTRY_NUM
  {
    s.(current := idx, phase := SuStart, bfee := s.bfee[idx := s.bfee[idx].(sounding := true, timedOut := false)],
       visited := s.visited + [idx])
  }

  function MarkMu(bfee: seq<Bfee>, mu: seq<nat>): (r: seq<Bfee>)
    requires forall i :: 0 <= i < |mu| ==> mu[i] < |bfee|
    ensures |r| == |bfee|
    ensures forall k :: 0 <= k < |bfee| ==> r[k] == bfee[k] || r[k] == bfee[k].(sounding := true)
    decreases |mu|
  {
    if mu == [] then bfee else MarkMu(bfee[mu[0] := bfee[mu[0]].(sounding := true)], mu[1..])
  }

  function StartMu(s: Info): Info
    requires Shaped(s)
  {
    s.(phase := MuStart, bfee := MarkMu(s.bfee, s.muList[..s.muCnt]), muCnt := 0, muRounds := s.muRounds + 1)
  }

  /** _sounding_handler once the lists are there: the next SU entry, else the MU group, else the end. */
  function Advance(s: Info): (r: Info)
    requires Shaped(s)
    ensures Shaped(r)
    decreases Remaining(s), 0
  {
    if Unsounded(s, 0) then GoSu(s, s.suList[0])
    else if Unsounded(s, 1) then GoSu(s, s.suList[1])
    else if s.muCnt > 0 then StartMu(s)
    else s.(phase := Init, running := s.running - 1)
  }

  function GoSu(s: Info, idx: nat): (r: Info)
    requires Shaped(s) && idx < MAX_BEAMFORMEE_ENTRY_NUM && !s.bfee[idx].sounding
    requires idx == s.suList[0] || idx == s.suList[1]
    ensures Shaped(r)
    decreases Remaining(s), 0, 0
  {
    var s1 := StartSu(s, idx);
    if s.bfee[idx].delete then SoundingDown(s1, false) else s1
  }

  /** _beamforming_sounding_down */
  function SoundingDown(s: Info, status: bool): (r: Info)
    requires Shaped(s)
    ensures Shaped(r)
    decreases Remaining(s), 1
  {
    match s.phase
    case MuStart => Advance(s.(phase := MuSoundDown))
    case SuStart =>
      var b := s.bfee[s.current];
      if b.timedOut then s.(phase := SuSoundDown, bfee := s.bfee[s.current := b.(timedOut := false)])
      else Advance(Judged(s, status))
    case _ => s
  }

  /** What a sounding result does to the entry that was sounded. */
  function Judged(s: Info, status: bool): (r: Info)
    requires Shaped(s) && s.phase.SuStart?
    ensures Shaped(r) && Remaining(r) == Remaining(s)
  {
    var b := s.bfee[s.current];
    var failCnt := (b.failCnt + 1) % 32;
    var b' := if status then b.(failCnt := 0) else if b.delete then b.(delete := false) else b.(failCnt := failCnt);
    s.(phase := SuSoundDown, bfee := s.bfee[s.current := b'],
       leaves := if !status && !b.delete && failCnt > 30 then s.leaves + [s.current] else s.leaves)
  }

  predicate Accepts(phase: Phase) {
    phase.Init? || phase.SuSoundDown? || phase.MuSoundDown? || phase.Timeout?
  }

  lemma PreparedShaped(s: Info)
    requires Shaped(s) && !s.phase.SuStart?
    ensures Shaped(Prepare(s).info)
  {
    var r := ResetVars(s);
    ListsKept(Lists(r.bfee, [], [], 0), r.bfee, 0, s.minPeriod);
  }

  /** _sounding_handler; `scanning` is WIFI_SITE_MONITOR. */
  function SoundingHandler(s: Info, scanning: bool): (r: Info)
    requires Shaped(s)
    ensures Shaped(r)
  {
    if !Accepts(s.phase) then s
    else if !s.phase.Init? then Advance(s)
    else
      PreparedShaped(s);
      match Prepare(s)
      case NoBfee(p) => p.(waitCnt := 0, phase := Idle, running := s.running - 1)
      case NotReady(p) =>
        if s.waitCnt < 5 then p.(waitCnt := s.waitCnt + 1, running := s.running - 1)
        else p.(waitCnt := 0, phase := Idle, running := s.running - 1)
      case Ok(p) =>
        if scanning then p.(waitCnt := 0, running := s.running - 1) else Advance(p.(waitCnt := 0))
  }

  /** The timer of one sounding: _sounding_timeout_timer_handler, up to the queued command. */
  function TimeoutTimer(s: Info): (r: Info)
    requires Shaped(s)
    ensures Shaped(r)
  {
    match s.phase
    case SuStart => s.(phase := Timeout, bfee := s.bfee[s.current := s.bfee[s.current].(timedOut := true)])
    case MuStart => s.(phase := Timeout)
    case _ => s
  }

  /** _sounding_timer_handler; `forced` says that the period has been overdue too often. */
  function PeriodTimer(s: Info, forced: bool): (r: Info)
    requires Shaped(s)
    ensures Shaped(r)
  {
    if s.phase.Idle? then s
    else if s.running == 0 then s.(phase := Init, running := s.running + 1)
    else if !forced || s.phase.SuStart? || s.phase.MuStart? then s
    else s.(phase := Init, running := s.running - 1)
  }

  /** A beamformee joins in entry `i`, which starts unsounded and not timed out. */
  function Enter(s: Info, i: nat, b: Bfee): (r: Info)
    requires Shaped(s)
    ensures Shaped(r)
  {
    if i >= MAX_BEAMFORMEE_ENTRY_NUM then s
    else
      s.(bfee := s.bfee[i := b.(used := true, ready := false, sounding := false, candidate := false, timedOut := false,
                                    delete := false, failCnt := 0)],
         minPeriod := if s.minPeriod == 0 || b.period < s.minPeriod then b.period else s.minPeriod,
         phase := if s.phase.Idle? then Init else s.phase)
  }

  /** The loop of _sounding_update_min_period after a leave. */
  function LeastFrom(bfee: seq<Bfee>, i: nat, min: nat): (m: nat)
    ensures m <= min && forall k :: i <= k < |bfee| && bfee[k].used ==> m <= bfee[k].period
    ensures m == min || exists k :: i <= k < |bfee| && bfee[k].used && bfee[k].period == m
    decreases |bfee| - i
  {
    if i >= |bfee| then min
    else LeastFrom(bfee, i + 1, if bfee[i].used && bfee[i].period < min then bfee[i].period else min)
  }

  /** The smallest period of the entries in use, or 0 if there is none. */
  function LeastPeriod(bfee: seq<Bfee>): nat {
    var m := LeastFrom(bfee, 0, 0xFFFF);
    if m == 0xFFFF then 0 else m
  }

  /** _beamforming_leave for the beamformee in entry `i`, which stays in use until the HAL is done with it;
      `last` says that the counts of beamformees are zero then. */
  function Leave(s: Info, i: nat, last: bool): (r: Info)
    requires Shaped(s)
    ensures Shaped(r)
  {
    if i >= MAX_BEAMFORMEE_ENTRY_NUM || !s.bfee[i].used then s
    else
      var bfee := s.bfee[i := s.bfee[i].(ready := false)];
      var r := s.(bfee := bfee, minPeriod := LeastPeriod(bfee));
      if last then LeaveLast(r) else r
  }

  /** The HAL has finished adding or deleting entry `i`. */
  function HalDone(s: Info, i: nat, added: bool): (r: Info)
    requires Shaped(s)
    ensures Shaped(r)
  {
    if i >= MAX_BEAMFORMEE_ENTRY_NUM then s
    else
      var b := if added then s.bfee[i].(ready := true) else s.bfee[i].(used := false, ready := false);
      s.(bfee := s.bfee[i := b])
  }

  /** The last beamformee leaves: _sounding_init. */
  function LeaveLast(s: Info): (r: Info)
    requires Shaped(s)
    ensures Shaped(r)
  {
    s.(suList := Blank(MAX_NUM_BEAMFORMEE_SU), muList := Blank(MAX_NUM_BEAMFORMEE_MU),
       phase := Idle, current := NO_ENTRY, muCnt := 0, minPeriod := 0)
  }

  /** The rate watchdog turns the sounding of entry `i` on or off. */
  function ApplySounding(s: Info, i: nat, on: bool): (r: Info)
    requires Shaped(s)
    ensures Shaped(r)
  {
    if i >= MAX_BEAMFORMEE_ENTRY_NUM || !s.bfee[i].used || s.bfee[i].apply == on then s
    else
      var b := s.bfee[i].(apply := on, delete := if on then s.bfee[i].delete else true, soundCnt := 0);
      s.(bfee := s.bfee[i := b], phase := if s.phase.Idle? then Init else s.phase)
  }
}
