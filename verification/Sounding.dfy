/** The sounding scheduler as the driver keeps it: one object whose fields the timers, the
    firmware events and the commands update.  A command sent without queueing calls its
    handler at once, so the two handlers below call each other. */
module Sounding {
  import opened SoundingSpec

  class BeamformingInfo {
    var bfee: seq<Bfee>
    var suList: seq<nat>
    var muList: seq<nat>
    var phase: Phase
    var current: nat
    var muCnt: nat
    var minPeriod: nat
    var running: int
    var waitCnt: nat
    ghost var visited: seq<nat>
    ghost var muRounds: nat
    ghost var muPlanned: bool
    var leaves: seq<nat>

    ghost function Snapshot(): Info
      reads this
    {
      Info(bfee, suList, muList, phase, current, muCnt, minPeriod, running, waitCnt, visited, muRounds, muPlanned, leaves)
    }

    ghost predicate Valid()
      reads this
    {
      Shaped(Snapshot())
    }

    constructor ()
      ensures Valid() && phase == Idle && minPeriod == 0
    {
      var unused := Bfee(false, false, false, false, 0, 0, false, false, false, false, false, false, 0);
      bfee := seq(MAX_BEAMFORMEE_ENTRY_NUM, _ => unused);
      suList, muList := Blank(MAX_NUM_BEAMFORMEE_SU), Blank(MAX_NUM_BEAMFORMEE_MU);
      phase, current, muCnt, minPeriod, running, waitCnt := Idle, NO_ENTRY, 0, 0, 0, 0;
      visited, muRounds, muPlanned, leaves := [], 0, false, [];
    }

    /** _sounding_reset_vars */
    method ResetVars()
      requires Valid()
      modifies this`suList, this`muList, this`current, this`muCnt, this`bfee
      ensures Snapshot() == SoundingSpec.ResetVars(old(Snapshot()))
    {
      suList, muList := Blank(MAX_NUM_BEAMFORMEE_SU), Blank(MAX_NUM_BEAMFORMEE_MU);
      current, muCnt := NO_ENTRY, 0;
      for idx := 0 to MAX_BEAMFORMEE_ENTRY_NUM
        invariant suList == Blank(MAX_NUM_BEAMFORMEE_SU) && muList == Blank(MAX_NUM_BEAMFORMEE_MU)
        invariant current == NO_ENTRY && muCnt == 0 && |bfee| == MAX_BEAMFORMEE_ENTRY_NUM
        invariant forall k :: 0 <= k < idx ==> bfee[k] == Cleared(old(bfee)[k])
        invariant forall k :: idx <= k < MAX_BEAMFORMEE_ENTRY_NUM ==> bfee[k] == old(bfee)[k]
      {
        if bfee[idx].used && bfee[idx].sounding {
          bfee := bfee[idx := bfee[idx].(sounding := false, candidate := false)];
        }
      }
      assert bfee == ClearedAll(old(bfee));
    }

    /** _sounding_get_list: 0, -1 (nothing to sound) or -2 (not ready yet). */
    method GetList() returns (ret: int)
      requires |bfee| == MAX_BEAMFORMEE_ENTRY_NUM
      requires suList == Blank(MAX_NUM_BEAMFORMEE_SU) && muList == Blank(MAX_NUM_BEAMFORMEE_MU)
      modifies this`suList, this`muList, this`muCnt, this`bfee
      ensures var l := ConsiderFrom(Lists(old(bfee), [], [], 0), 0, minPeriod);
        && |l.su| <= MAX_NUM_BEAMFORMEE_SU && |l.mu| <= MAX_NUM_BEAMFORMEE_MU
        && bfee == l.bfee && muCnt == |l.mu|
        && suList == Padded(l.su, MAX_NUM_BEAMFORMEE_SU) && muList == Padded(l.mu, MAX_NUM_BEAMFORMEE_MU)
        && ret == (if |l.su| + |l.mu| > 0 then 0 else if l.notReady > 0 then -2 else -1)
    {
      var suIdx, muIdx, notReady := 0, 0, 0;
      ghost var l := Lists(bfee, [], [], 0);
      ghost var end := ConsiderFrom(l, 0, minPeriod);
      ListsKept(l, bfee, 0, minPeriod);
      for i := 0 to MAX_BEAMFORMEE_ENTRY_NUM
        invariant Mirrors(l, suIdx, muIdx) && notReady == l.notReady && ConsiderFrom(l, i, minPeriod) == end
      {
        suIdx, muIdx, notReady := ConsiderEntry(i, suIdx, muIdx, notReady, l);
        l := Consider(l, i, minPeriod);
      }
      muCnt := muIdx;
      ret := 0;
      if suIdx + muIdx == 0 {
        ret := -1;
        if notReady > 0 { ret := -2; }
      }
    }

    ghost predicate Mirrors(l: Lists, suIdx: nat, muIdx: nat)
      reads this
    {
      && |bfee| == MAX_BEAMFORMEE_ENTRY_NUM && l.bfee == bfee
      && suIdx == |l.su| <= MAX_NUM_BEAMFORMEE_SU && suList == Padded(l.su, MAX_NUM_BEAMFORMEE_SU)
      && muIdx == |l.mu| <= MAX_NUM_BEAMFORMEE_MU && muList == Padded(l.mu, MAX_NUM_BEAMFORMEE_MU)
    }

    /** The body of the loop of _sounding_get_list. */
    method ConsiderEntry(i: nat, suIdx: nat, muIdx: nat, notReady: nat, ghost l: Lists)
      returns (suIdx': nat, muIdx': nat, notReady': nat)
      requires i < MAX_BEAMFORMEE_ENTRY_NUM && Mirrors(l, suIdx, muIdx) && notReady == l.notReady
      modifies this`suList, this`muList, this`bfee
      ensures Mirrors(Consider(l, i, minPeriod), suIdx', muIdx') && notReady' == Consider(l, i, minPeriod).notReady
    {
      suIdx', muIdx', notReady' := suIdx, muIdx, notReady;
      var b := bfee[i];
      if !b.used { return; }
      if !b.ready { notReady' := notReady + 1; return; }
      if b.soundCnt > 0 {
        b := b.(soundCnt := b.soundCnt - 1);
        bfee := bfee[i := b];
        if b.soundCnt > 0 { return; }
      }
      if b.mu {
        if muIdx >= MAX_NUM_BEAMFORMEE_MU { return; }
        if b.apply {
          bfee := bfee[i := Chosen(b, minPeriod)];
          muList := muList[muIdx := i];
          muIdx' := muIdx + 1;
        }
      } else if b.su {
        if suIdx >= MAX_NUM_BEAMFORMEE_SU { return; }
        if b.delete {
          suList := suList[suIdx := i];
          suIdx' := suIdx + 1;
        } else if b.apply && !b.suspended {
          bfee := bfee[i := Chosen(b, minPeriod)];
          suList := suList[suIdx := i];
          suIdx' := suIdx + 1;
        }
      }
    }

    /** _sounding_handler; `scanning` is WIFI_SITE_MONITOR. */
    method SoundingHandler(scanning: bool)
      requires Valid()
      modifies this
      ensures Valid() && Snapshot() == SoundingSpec.SoundingHandler(old(Snapshot()), scanning)
      decreases if phase.Init? then 1 else 0, Remaining(Snapshot()), 0, 1
    {
      if !Accepts(phase) { return; }
      if phase.Init? {
        PreparedShaped(Snapshot());
        var ready := OpenPeriod(scanning);
        if !ready { return; }
      }
      Advance();
    }

    /** The part of _sounding_handler for a new period; true if there is something to sound now. */
    method OpenPeriod(scanning: bool) returns (ready: bool)
      requires Valid() && phase.Init?
      modifies this
      ensures Valid() && !phase.SuStart?
      ensures ready == (Prepare(old(Snapshot())).Ok? && !scanning)
      ensures ready ==> Snapshot() == Prepare(old(Snapshot())).info.(waitCnt := 0)
      ensures !ready ==> Snapshot() == SoundingSpec.SoundingHandler(old(Snapshot()), scanning)
    {
      var ret := BuildLists();
      if ret == 0 {
        waitCnt := 0;
        ready := !scanning;
        if scanning { running := running - 1; }
      } else {
        ready := false;
        if ret == -2 && waitCnt < 5 { waitCnt := waitCnt + 1; } else { waitCnt, phase := 0, Idle; }
        running := running - 1;
      }
    }

    method BuildLists() returns (ret: int)
      requires Valid() && !phase.SuStart?
      modifies this`suList, this`muList, this`current, this`muCnt, this`bfee, this`visited, this`muRounds, this`muPlanned
      ensures Valid() && Snapshot() == Prepare(old(Snapshot())).info
      ensures match Prepare(old(Snapshot())) case Ok(_) => ret == 0 case NoBfee(_) => ret == -1 case NotReady(_) => ret == -2
    {
      PreparedShaped(Snapshot());
      ResetVars();
      ret := GetList();
      visited, muRounds, muPlanned := [], 0, muCnt > 0;
    }

    /** The part of _sounding_handler that picks the next beamformee. */
    method Advance()
      requires Valid()
      modifies this
      ensures Valid() && Snapshot() == SoundingSpec.Advance(old(Snapshot()))
      decreases 0, Remaining(Snapshot()), 0, 0
    {
      var i := NextSu();
      assert i > 0 ==> !Unsounded(Snapshot(), 0);
      assert i > 1 ==> !Unsounded(Snapshot(), 1);
      if i < MAX_NUM_BEAMFORMEE_SU {
        var idx := suList[i];
        var delete := bfee[idx].delete;
        BeginSu(idx);
        if delete { SoundingDown(false); }
      } else if muCnt > 0 {
        MarkMuGroup();
        phase, muCnt, muRounds := MuStart, 0, muRounds + 1;
      } else {
        running, phase := running - 1, Init;
      }
    }

    /** The first slot of the SU list whose entry has not been sounded. */
    method NextSu() returns (i: nat)
      requires Valid()
      ensures i <= MAX_NUM_BEAMFORMEE_SU && (i < MAX_NUM_BEAMFORMEE_SU ==> Unsounded(Snapshot(), i))
      ensures forall k :: 0 <= k < i ==> !Unsounded(Snapshot(), k)
    {
      i := 0;
      while i < MAX_NUM_BEAMFORMEE_SU && (suList[i] >= MAX_BEAMFORMEE_ENTRY_NUM || bfee[suList[i]].sounding)
        invariant i <= MAX_NUM_BEAMFORMEE_SU
        invariant forall k :: 0 <= k < i ==> !Unsounded(Snapshot(), k)
      {
        i := i + 1;
      }
    }

    method BeginSu(idx: nat)
      requires Valid() && idx < MAX_BEAMFORMEE_ENTRY_NUM
      modifies this`current, this`phase, this`bfee, this`visited
      ensures Valid() && Snapshot() == StartSu(old(Snapshot()), idx)
    {
      current, phase := idx, SuStart;
      bfee := bfee[idx := bfee[idx].(sounding := true, timedOut := false)];
      visited := visited + [idx];
    }

    method MarkMuGroup()
      requires Valid()
      modifies this`bfee
      ensures bfee == MarkMu(old(bfee), muList[..muCnt])
    {
      for i := 0 to muCnt
        invariant |bfee| == MAX_BEAMFORMEE_ENTRY_NUM
        invariant MarkMu(bfee, muList[i..muCnt]) == MarkMu(old(bfee), muList[..muCnt])
      {
        assert muList[i..muCnt][1..] == muList[i + 1..muCnt];
        bfee := bfee[muList[i] := bfee[muList[i]].(sounding := true)];
      }
    }

    /** _beamforming_sounding_down */
    method SoundingDown(status: bool)
      requires Valid()
      modifies this
      ensures Valid() && Snapshot() == SoundingSpec.SoundingDown(old(Snapshot()), status)
      decreases 0, Remaining(Snapshot()), 1, 0
    {
      if phase.MuStart? {
        phase := MuSoundDown;
      } else if phase.SuStart? {
        if bfee[current].timedOut {
          phase := SuSoundDown;
          bfee := bfee[current := bfee[current].(timedOut := false)];
          return;
        }
        Judge(status);
      } else {
        return;
      }
      SoundingHandler(false);
    }

    /** What _beamforming_sounding_down does to the entry that was sounded. */
    method Judge(status: bool)
      requires Valid() && phase.SuStart?
      modifies this`phase, this`bfee, this`leaves
      ensures Valid() && Snapshot() == Judged(old(Snapshot()), status)
    {
      var b := bfee[current];
      phase := SuSoundDown;
      if status {
        bfee := bfee[current := b.(failCnt := 0)];
      } else if b.delete {
        bfee := bfee[current := b.(delete := false)];
      } else {
        bfee := bfee[current := b.(failCnt := (b.failCnt + 1) % 32)];
        if bfee[current].failCnt > 30 { leaves := leaves + [current]; }
      }
    }

    /** _beamforming_leave for the beamformee in entry `i`. */
    method Leave(i: nat, last: bool)
      requires Valid()
      modifies this
      ensures Valid() && Snapshot() == SoundingSpec.Leave(old(Snapshot()), i, last)
    {
      if i >= MAX_BEAMFORMEE_ENTRY_NUM || !bfee[i].used { return; }
      bfee := bfee[i := bfee[i].(ready := false)];
      UpdateMinPeriod();
      if last { SoundingInit(); }
    }

    /** _sounding_init */
    method SoundingInit()
      requires Valid()
      modifies this`suList, this`muList, this`phase, this`current, this`muCnt, this`minPeriod
      ensures Valid() && Snapshot() == LeaveLast(old(Snapshot()))
    {
      suList, muList := Blank(MAX_NUM_BEAMFORMEE_SU), Blank(MAX_NUM_BEAMFORMEE_MU);
      phase, current, muCnt, minPeriod := Idle, NO_ENTRY, 0, 0;
    }

    /** _sounding_update_min_period after a leave. */
    method UpdateMinPeriod()
      modifies this`minPeriod
      ensures minPeriod == LeastPeriod(bfee)
    {
      var minVal := 0xFFFF;
      for i := 0 to |bfee|
        invariant LeastFrom(bfee, i, minVal) == LeastFrom(bfee, 0, 0xFFFF)
      {
        if bfee[i].used && bfee[i].period < minVal { minVal := bfee[i].period; }
      }
      minPeriod := if minVal == 0xFFFF then 0 else minVal;
    }

    /** _sounding_timeout_timer_handler; the caller queues a start of period if `queue` holds. */
    method TimeoutTimer() returns (queue: bool)
      requires Valid()
      modifies this`phase, this`bfee
      ensures Valid() && Snapshot() == SoundingSpec.TimeoutTimer(old(Snapshot()))
      ensures queue == (old(phase).SuStart? || old(phase).MuStart?)
    {
      queue := true;
      if phase.SuStart? {
        phase := Timeout;
        bfee := bfee[current := bfee[current].(timedOut := true)];
      } else if phase.MuStart? {
        phase := Timeout;
      } else {
        queue := false;
      }
    }
  }
}
