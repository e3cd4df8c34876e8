/** When the turn of an entry comes, from period to period. */
module SoundingTurns {
  import opened SoundingSpec
  import opened SoundingPeriod

  // ---------------------------------------------------------------- counting down

  /** The state after the lists of `n` periods have been made. */
  function Periods(s: Info, n: nat): Info { if n == 0 then s else Prepare(Periods(s, n - 1)).info }

  /** What the lists say of entry `k`. */
  predicate Tells(l: SoundingSpec.Lists, k: nat, b: Bfee, listed: bool) {
    k < |l.bfee| && l.bfee[k] == b && (k in l.su || k in l.mu <==> listed)
  }

  lemma ConsiderAnother(l: SoundingSpec.Lists, i: nat, minPeriod: nat, k: nat, b: Bfee, listed: bool)
    requires i < |l.bfee| && i != k && Tells(l, k, b, listed)
    ensures Tells(Consider(l, i, minPeriod), k, b, listed) && |Consider(l, i, minPeriod).bfee| == |l.bfee|
  {}

  lemma ConsiderWaiting(l: SoundingSpec.Lists, k: nat, minPeriod: nat, b: Bfee)
    requires Tells(l, k, b, false) && b.used && b.ready && b.soundCnt > 1
    ensures Tells(Consider(l, k, minPeriod), k, b.(soundCnt := b.soundCnt - 1), false)
    ensures |Consider(l, k, minPeriod).bfee| == |l.bfee|
  {}

  /** Considering later entries does not concern an entry. */
  lemma {:induction false} Behind(l: SoundingSpec.Lists, i: nat, minPeriod: nat, k: nat, b: Bfee, listed: bool)
    requires k < i && Tells(l, k, b, listed)
    ensures Tells(ConsiderFrom(l, i, minPeriod), k, b, listed)
    decreases |l.bfee| - i
  {
    if i < |l.bfee| {
      ConsiderAnother(l, i, minPeriod, k, b, listed);
      Behind(Consider(l, i, minPeriod), i + 1, minPeriod, k, b, listed);
    }
  }

  /** An entry whose count is above 1 is not listed, and its count drops by one. */
  lemma {:induction false} NotYet(l: SoundingSpec.Lists, i: nat, minPeriod: nat, k: nat, b: Bfee)
    requires i <= k && Tells(l, k, b, false) && b.used && b.ready && b.soundCnt > 1
    ensures Tells(ConsiderFrom(l, i, minPeriod), k, b.(soundCnt := b.soundCnt - 1), false)
    decreases |l.bfee| - i
  {
    if i < k {
      ConsiderAnother(l, i, minPeriod, k, b, false);
      NotYet(Consider(l, i, minPeriod), i + 1, minPeriod, k, b);
    } else {
      ConsiderWaiting(l, k, minPeriod, b);
      Behind(Consider(l, k, minPeriod), k + 1, minPeriod, k, b.(soundCnt := b.soundCnt - 1), false);
    }
  }

  lemma OnePeriod(s: Info, k: nat)
    requires k < |s.bfee| && k < NO_ENTRY && s.bfee[k].used && s.bfee[k].ready && s.bfee[k].soundCnt > 1
    ensures var r := Prepare(s).info;
      && |r.bfee| == |s.bfee| && r.bfee[k].used && r.bfee[k].ready && r.bfee[k].soundCnt == s.bfee[k].soundCnt - 1
      && k !in r.suList && k !in r.muList
  {
    var l := SoundingSpec.Lists(ResetVars(s).bfee, [], [], 0);
    ListsKept(l, l.bfee, 0, s.minPeriod);
    NotYet(l, 0, s.minPeriod, k, l.bfee[k]);
  }

  /** The count of an entry that is ready drops by one per period, and until it is down to 1 the entry is on no
      list. */
  lemma {:induction false} CountsDown(s: Info, k: nat, n: nat)
    requires k < |s.bfee| && k < NO_ENTRY && s.bfee[k].used && s.bfee[k].ready && s.bfee[k].soundCnt > n
    ensures var r := Periods(s, n);
      && |r.bfee| == |s.bfee| && r.bfee[k].used && r.bfee[k].ready && r.bfee[k].soundCnt == s.bfee[k].soundCnt - n
      && (n > 0 ==> k !in r.suList && k !in r.muList)
    decreases n
  {
    if n > 0 {
      CountsDown(s, k, n - 1);
      OnePeriod(Periods(s, n - 1), k);
    }
  }

  // ---------------------------------------------------------------- from turn to turn

  /** An entry that is listed, and not in order to be deleted, starts from its period in units of the minimum. */
  lemma ListedCount(s: Info, k: nat)
    requires k < |s.bfee| && k < NO_ENTRY && !s.bfee[k].delete
    requires k in Prepare(s).info.suList || k in Prepare(s).info.muList
    ensures |Prepare(s).info.bfee| == |s.bfee|
    ensures var b := Prepare(s).info.bfee[k];
      b.used && b.ready && b.soundCnt == InitSoundCnt(s.bfee[k].period, s.minPeriod)
  {
    var l := SoundingSpec.Lists(ResetVars(s).bfee, [], [], 0);
    ListsKept(l, l.bfee, 0, s.minPeriod);
    Starts(l, 0, s.minPeriod, k, l.bfee[k]);
  }

  lemma ConsiderIt(l: SoundingSpec.Lists, k: nat, minPeriod: nat, b: Bfee)
    requires Tells(l, k, b, false) && !b.delete
    ensures var l' := Consider(l, k, minPeriod);
      |l'.bfee| == |l.bfee| && (Tells(l', k, l'.bfee[k], false) || (Tells(l', k, l'.bfee[k], true) && Started(l'.bfee[k], b, minPeriod)))
  {}

  predicate Started(b': Bfee, b: Bfee, minPeriod: nat) {
    b'.used && b'.ready && b'.soundCnt == InitSoundCnt(b.period, minPeriod)
  }

  lemma {:induction false} Starts(l: SoundingSpec.Lists, i: nat, minPeriod: nat, k: nat, b: Bfee)
    requires i <= k && Tells(l, k, b, false) && !b.delete
    ensures var r := ConsiderFrom(l, i, minPeriod);
      k < |r.bfee| && (k in r.su || k in r.mu ==> Started(r.bfee[k], b, minPeriod))
    decreases |l.bfee| - i
  {
    var l' := Consider(l, i, minPeriod);
    if i < k {
      ConsiderAnother(l, i, minPeriod, k, b, false);
      Starts(l', i + 1, minPeriod, k, b);
    } else {
      ConsiderIt(l, k, minPeriod, b);
      Behind(l', k + 1, minPeriod, k, l'.bfee[k], k in l'.su || k in l'.mu);
    }
  }

  /** An entry whose period is `q` times the minimum, rounded down, is listed at most every `q` periods: after it was listed it
      is on no list for `q` - 1 periods, and then its count is down to 1. */
  lemma EveryQth(s: Info, k: nat, q: nat, n: nat)
    requires k < |s.bfee| && k < NO_ENTRY && !s.bfee[k].delete
    requires k in Prepare(s).info.suList || k in Prepare(s).info.muList
    requires 0 < q < 256 && s.minPeriod > 0 && s.bfee[k].period / s.minPeriod == q && n < q
    ensures var r := Periods(Prepare(s).info, n);
      && k < |r.bfee| && r.bfee[k].soundCnt == q - n && (n > 0 ==> k !in r.suList && k !in r.muList)
  {
    ListedCount(s, k);
    CountsDown(Prepare(s).info, k, n);
  }

  // ---------------------------------------------------------------- what an event means for a turn

  /** The MU group is begun with every entry on its list, and no other entry, marked. */
  lemma GroupBegun(s: Info, k: nat)
    requires Shaped(s) && k < MAX_BEAMFORMEE_ENTRY_NUM
    ensures var r := StartMu(s);
      && r.bfee[k] == (if k in s.muList[..s.muCnt] then s.bfee[k].(sounding := true) else s.bfee[k])
      && r.phase.MuStart? && r.muCnt == 0
  {
    GroupMarked(s.bfee, s.muList[..s.muCnt], k);
  }

  lemma {:induction false} GroupMarked(bfee: seq<Bfee>, mu: seq<nat>, k: nat)
    requires k < |bfee| && forall i :: 0 <= i < |mu| ==> mu[i] < |bfee|
    ensures MarkMu(bfee, mu)[k] == if k in mu then bfee[k].(sounding := true) else bfee[k]
    decreases |mu|
  {
    if mu != [] {
      GroupMarked(bfee[mu[0] := bfee[mu[0]].(sounding := true)], mu[1..], k);
      assert k in mu <==> k == mu[0] || k in mu[1..];
    }
  }

  /** A sounding that is overdue is over: its late result is ignored, and the start that is queued goes on with
      what remains of the period. */
  lemma TimeoutGoesOn(s: Info, status: bool, scanning: bool)
    requires Shaped(s) && PeriodOk(s) && CurrentOk(s) && (s.phase.SuStart? || s.phase.MuStart?)
    ensures var t := TimeoutTimer(s); var r := SoundingHandler(t, scanning);
      && t.phase.Timeout? && (s.phase.SuStart? ==> t.bfee[s.current].timedOut)
      && SoundingDown(t, status) == t
      && if InPeriod(r.phase) then Remaining(r) < Remaining(s) else r.phase.Init? && Complete(r)
  {
    var t := TimeoutTimer(s);
    StepInPeriod(s, Expired);
    StepInPeriod(t, StartPeriod(scanning));
  }

  /** While the station scans no period is begun. */
  lemma NotWhileScanning(s: Info)
    requires Shaped(s) && s.phase.Init?
    ensures var r := SoundingHandler(s, true); (r.phase.Init? || r.phase.Idle?) && r.visited == [] && r.muRounds == 0
  {}

  /** An SU entry that is switched off is due once more, to be deleted, and not any more when that is over; one
      that is switched on is due at once. */
  lemma SwitchedOff(s: Info, i: nat)
    requires Shaped(s) && i < MAX_BEAMFORMEE_ENTRY_NUM && !s.phase.SuStart?
    requires var b := s.bfee[i]; b.used && b.ready && b.su && !b.mu && b.apply
    ensures var r := ApplySounding(s, i, false);
      DueSu(r.bfee[i]) && !DueSu(Judged(StartSu(r, i), false).bfee[i])
  {}

  lemma SwitchedOn(s: Info, i: nat)
    requires Shaped(s) && i < MAX_BEAMFORMEE_ENTRY_NUM
    requires var b := s.bfee[i]; b.used && b.ready && !b.apply && !b.suspended && (b.mu || b.su)
    ensures var b := ApplySounding(s, i, true).bfee[i]; if b.mu then DueMu(b) else DueSu(b)
    ensures ApplySounding(s, i, true).phase != Idle
  {}

  /** An entry that leaves is not due, and the minimum period is none, or at most that of every entry in use. */
  lemma LeavingIsNotDue(s: Info, i: nat, last: bool)
    requires Shaped(s) && i < MAX_BEAMFORMEE_ENTRY_NUM && s.bfee[i].used
    ensures var r := Leave(s, i, last);
      && !DueSu(r.bfee[i]) && !DueMu(r.bfee[i])
      && (r.minPeriod > 0 ==> forall k :: 0 <= k < MAX_BEAMFORMEE_ENTRY_NUM && r.bfee[k].used ==> r.minPeriod <= r.bfee[k].period)
      && (last ==> r.phase.Idle? && r.minPeriod == 0)
  {}

  /** An entry that joins is not due before the hardware is ready for it, and keeps the minimum period a lower bound. */
  lemma JoiningIsNotDue(s: Info, i: nat, b: Bfee)
    requires Shaped(s) && i < MAX_BEAMFORMEE_ENTRY_NUM
    ensures var r := Enter(s, i, b);
      && r.bfee[i].used && !DueSu(r.bfee[i]) && !DueMu(r.bfee[i]) && r.bfee[i].failCnt == 0
      && r.minPeriod <= b.period && (s.minPeriod > 0 ==> r.minPeriod <= s.minPeriod) && !r.phase.Idle?
      && (r.minPeriod == b.period || r.minPeriod == s.minPeriod)
  {}

  // ---------------------------------------------------------------- nobody ready

  predicate NobodyReady(bfee: seq<Bfee>) {
    (forall k :: 0 <= k < |bfee| && bfee[k].used ==> !bfee[k].ready) && exists k :: 0 <= k < |bfee| && bfee[k].used
  }

  lemma {:induction false} NoneListed(l: SoundingSpec.Lists, i: nat, minPeriod: nat)
    requires forall k :: 0 <= k < |l.bfee| && l.bfee[k].used ==> !l.bfee[k].ready
    ensures var r := ConsiderFrom(l, i, minPeriod);
      && r.bfee == l.bfee && r.su == l.su && r.mu == l.mu && r.notReady >= l.notReady
      && ((exists k :: i <= k < |l.bfee| && l.bfee[k].used) ==> r.notReady > l.notReady)
    decreases |l.bfee| - i
  {
    if i < |l.bfee| { NoneListed(Consider(l, i, minPeriod), i + 1, minPeriod); }
  }

  lemma NobodyPrepared(s: Info)
    requires Shaped(s) && NobodyReady(s.bfee)
    ensures Prepare(s).NotReady? && NobodyReady(Prepare(s).info.bfee)
  {
    var r := ResetVars(s).bfee;
    var k :| 0 <= k < |s.bfee| && s.bfee[k].used;
    assert r[k].used;
    NoneListed(SoundingSpec.Lists(r, [], [], 0), 0, s.minPeriod);
  }

  /** When no entry is in use, a period that is started is the end of sounding. */
  lemma NobodyUsed(s: Info, scanning: bool)
    requires Shaped(s) && s.phase.Init? && forall k :: 0 <= k < |s.bfee| ==> !s.bfee[k].used
    ensures var r := SoundingHandler(s, scanning); r.phase.Idle? && r.waitCnt == 0 && r.running == s.running - 1
  {
    var r := ResetVars(s).bfee;
    NobodyListed(SoundingSpec.Lists(r, [], [], 0), 0, s.minPeriod);
  }

  lemma {:induction false} NobodyListed(l: SoundingSpec.Lists, i: nat, minPeriod: nat)
    requires forall k :: 0 <= k < |l.bfee| ==> !l.bfee[k].used
    ensures ConsiderFrom(l, i, minPeriod) == l
    decreases |l.bfee| - i
  {
    if i < |l.bfee| { NobodyListed(l, i + 1, minPeriod); }
  }

  /** From then on nothing but a join or a change of a rate begins it again. */
  lemma IdleStays(s: Info, e: Event)
    requires Shaped(s) && s.phase.Idle?
    ensures Step(s, e).phase.Idle? || e.Join? || e.Apply?
  {}

  function Attempts(s: Info, n: nat): (r: Info)
    requires Shaped(s)
    ensures Shaped(r)
  {
    if n == 0 then s else SoundingHandler(Attempts(s, n - 1), false)
  }

  /** While no entry in use is ready, five periods that are started keep waiting, and the sixth gives up. */
  lemma {:induction false} GivesUp(s: Info, n: nat)
    requires Shaped(s) && s.phase.Init? && s.waitCnt == 0 && NobodyReady(s.bfee) && n <= 6
    ensures var r := Attempts(s, n);
      && (n <= 5 ==> r.phase.Init? && r.waitCnt == n && NobodyReady(r.bfee))
      && (n == 6 ==> r.phase.Idle? && r.waitCnt == 0)
    decreases n
  {
    if n > 0 {
      GivesUp(s, n - 1);
      NobodyPrepared(Attempts(s, n - 1));
    }
  }
}
