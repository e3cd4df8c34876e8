/** The same on the fields that the driver updates in place (core/rtw_ap.c). */
module StationCounters {
  import opened Elements
  import opened StationSpec

  class StaInfo {
    var noShortPreambleSet: bool
    var nonerpSet: bool
    var noShortSlotTimeSet: bool
    var noHtSet: bool
    var noHtGfSet: bool
    var ht20mhzSet: bool
    var ht40mhzIntolerant: bool

    /** _rtw_init_stainfo */
    constructor ()
      ensures Flags() == NO_FLAGS
    {
      noShortPreambleSet, nonerpSet, noShortSlotTimeSet := false, false, false;
      noHtSet, noHtGfSet, ht20mhzSet, ht40mhzIntolerant := false, false, false, false;
    }

    function Flags(): Flags
      reads this
    {
      StationSpec.Flags(noShortPreambleSet, nonerpSet, noShortSlotTimeSet, noHtSet, noHtGfSet, ht20mhzSet, ht40mhzIntolerant)
    }
  }

  class MlmePriv {
    var numStaNoShortPreamble: int
    var numStaNonErp: int
    var numStaNoShortSlotTime: int
    var numStaNoHt: int
    var numStaHtNoGf: int
    var numStaHt20mhz: int
    var numSta40mhzIntolerant: int
    var htOpMode: HtOpMode
    var olbcHt: bool
    var htOption: bool
    var supWidth: bool
    var ht20mhzWidthReq: bool
    var htIntolerantChReported: bool

    function Nums(): Nums
      reads this
    {
      StationSpec.Nums(numStaNoShortPreamble, numStaNonErp, numStaNoShortSlotTime, numStaNoHt, numStaHtNoGf,
                       numStaHt20mhz, numSta40mhzIntolerant)
    }

    /** rtw_ht_operation_update */
    method HtOperationUpdate() returns (opModeChanges: nat)
      modifies this`htOpMode
      ensures htOpMode == if htOption then NewMode(old(htOpMode), Nums(), supWidth, olbcHt) else old(htOpMode)
      ensures opModeChanges == if htOption then Changes(old(htOpMode), htOpMode) else 0
    {
      opModeChanges := 0;
      if !htOption { return; }
      if !htOpMode.nonGf && numStaHtNoGf != 0 {
        htOpMode := htOpMode.(nonGf := true);
        opModeChanges := opModeChanges + 1;
      } else if htOpMode.nonGf && numStaHtNoGf == 0 {
        htOpMode := htOpMode.(nonGf := false);
        opModeChanges := opModeChanges + 1;
      }
      if !htOpMode.nonHt && (numStaNoHt != 0 || olbcHt) {
        htOpMode := htOpMode.(nonHt := true);
        opModeChanges := opModeChanges + 1;
      } else if htOpMode.nonHt && numStaNoHt == 0 && !olbcHt {
        htOpMode := htOpMode.(nonHt := false);
        opModeChanges := opModeChanges + 1;
      }
      var newOpMode := PURE;
      if numStaNoHt != 0 {
        newOpMode := MIXED;
      } else if supWidth && numStaHt20mhz != 0 {
        newOpMode := HT20_ASSOCED;
      } else if olbcHt {
        newOpMode := MAY_BE_LEGACY;
      }
      var curOpMode := htOpMode.op;
      if curOpMode != newOpMode {
        htOpMode := htOpMode.(op := newOpMode);
        opModeChanges := opModeChanges + 1;
      }
    }

    /** Set or clear a flag of a station, and count; `announced` if that made the counter 1 or 0. */
    method SetNoShortPreamble(psta: StaInfo, on: bool) returns (announced: bool)
      modifies this`numStaNoShortPreamble, psta`noShortPreambleSet
      ensures psta.Flags() == old(psta.Flags()).(noShortPreamble := on)
      ensures Nums() == Moved(old(Nums()), old(psta.Flags()), psta.Flags())
      ensures announced == Announced(old(psta.Flags()).noShortPreamble, on, Nums().noShortPreamble)
    {
      announced := false;
      if on {
        if !psta.noShortPreambleSet {
          psta.noShortPreambleSet := true;
          numStaNoShortPreamble := numStaNoShortPreamble + 1;
          announced := numStaNoShortPreamble == 1;
        }
      } else {
        if psta.noShortPreambleSet {
          psta.noShortPreambleSet := false;
          numStaNoShortPreamble := numStaNoShortPreamble - 1;
          announced := numStaNoShortPreamble == 0;
        }
      }
    }

    /** The same for stations without ERP. */
    method SetNonErp(psta: StaInfo, on: bool) returns (announced: bool)
      modifies this`numStaNonErp, psta`nonerpSet
      ensures psta.Flags() == old(psta.Flags()).(nonErp := on)
      ensures Nums() == Moved(old(Nums()), old(psta.Flags()), psta.Flags())
      ensures announced == Announced(old(psta.Flags()).nonErp, on, Nums().nonErp)
    {
      announced := false;
      if on {
        if !psta.nonerpSet {
          psta.nonerpSet := true;
          numStaNonErp := numStaNonErp + 1;
          announced := numStaNonErp == 1;
        }
      } else {
        if psta.nonerpSet {
          psta.nonerpSet := false;
          numStaNonErp := numStaNonErp - 1;
          announced := numStaNonErp == 0;
        }
      }
    }

    /** The same for stations without short slot time. */
    method SetNoShortSlotTime(psta: StaInfo, on: bool) returns (announced: bool)
      modifies this`numStaNoShortSlotTime, psta`noShortSlotTimeSet
      ensures psta.Flags() == old(psta.Flags()).(noShortSlotTime := on)
      ensures Nums() == Moved(old(Nums()), old(psta.Flags()), psta.Flags())
      ensures announced == Announced(old(psta.Flags()).noShortSlotTime, on, Nums().noShortSlotTime)
    {
      announced := false;
      if on {
        if !psta.noShortSlotTimeSet {
          psta.noShortSlotTimeSet := true;
          numStaNoShortSlotTime := numStaNoShortSlotTime + 1;
          announced := numStaNoShortSlotTime == 1;
        }
      } else {
        if psta.noShortSlotTimeSet {
          psta.noShortSlotTimeSet := false;
          numStaNoShortSlotTime := numStaNoShortSlotTime - 1;
          announced := numStaNoShortSlotTime == 0;
        }
      }
    }

    /** The same for stations without HT; nothing is announced for these and the following. */
    method SetNoHt(psta: StaInfo, on: bool)
      modifies this`numStaNoHt, psta`noHtSet
      ensures psta.Flags() == old(psta.Flags()).(noHt := on)
      ensures Nums() == Moved(old(Nums()), old(psta.Flags()), psta.Flags())
    {
      if on {
        if !psta.noHtSet {
          psta.noHtSet := true;
          numStaNoHt := numStaNoHt + 1;
        }
      } else {
        if psta.noHtSet {
          psta.noHtSet := false;
          numStaNoHt := numStaNoHt - 1;
        }
      }
    }

    /** The same for HT stations without greenfield. */
    method SetNoHtGf(psta: StaInfo, on: bool)
      modifies this`numStaHtNoGf, psta`noHtGfSet
      ensures psta.Flags() == old(psta.Flags()).(noHtGf := on)
      ensures Nums() == Moved(old(Nums()), old(psta.Flags()), psta.Flags())
    {
      if on {
        if !psta.noHtGfSet {
          psta.noHtGfSet := true;
          numStaHtNoGf := numStaHtNoGf + 1;
        }
      } else {
        if psta.noHtGfSet {
          psta.noHtGfSet := false;
          numStaHtNoGf := numStaHtNoGf - 1;
        }
      }
    }

    /** The same for 20 MHz HT stations. */
    method SetHt20Mhz(psta: StaInfo, on: bool)
      modifies this`numStaHt20mhz, psta`ht20mhzSet
      ensures psta.Flags() == old(psta.Flags()).(ht20Mhz := on)
      ensures Nums() == Moved(old(Nums()), old(psta.Flags()), psta.Flags())
    {
      if on {
        if !psta.ht20mhzSet {
          psta.ht20mhzSet := true;
          numStaHt20mhz := numStaHt20mhz + 1;
        }
      } else {
        if psta.ht20mhzSet {
          psta.ht20mhzSet := false;
          numStaHt20mhz := numStaHt20mhz - 1;
        }
      }
    }

    /** The same for stations that do not tolerate 40 MHz. */
    method SetIntolerant(psta: StaInfo, on: bool)
      modifies this`numSta40mhzIntolerant, psta`ht40mhzIntolerant
      ensures psta.Flags() == old(psta.Flags()).(ht40MhzIntolerant := on)
      ensures Nums() == Moved(old(Nums()), old(psta.Flags()), psta.Flags())
    {
      if on {
        if !psta.ht40mhzIntolerant {
          psta.ht40mhzIntolerant := true;
          numSta40mhzIntolerant := numSta40mhzIntolerant + 1;
        }
      } else {
        if psta.ht40mhzIntolerant {
          psta.ht40mhzIntolerant := false;
          numSta40mhzIntolerant := numSta40mhzIntolerant - 1;
        }
      }
    }

    /** The part for preamble, ERP and slot time, of a join and of a leave. */
    method SetLegacy(psta: StaInfo, noShortPreamble: bool, nonErp: bool, noShortSlotTime: bool, faster: bool)
      returns (updated: bool)
      modifies this`numStaNoShortPreamble, this`numStaNonErp, this`numStaNoShortSlotTime
      modifies psta`noShortPreambleSet, psta`nonerpSet, psta`noShortSlotTimeSet
      ensures psta.Flags() == old(psta.Flags()).(noShortPreamble := noShortPreamble, nonErp := nonErp,
                                                 noShortSlotTime := noShortSlotTime)
      ensures Nums() == Moved(old(Nums()), old(psta.Flags()), psta.Flags())
      ensures updated == LegacyAnnounced(old(psta.Flags()), psta.Flags(), Nums(), faster)
    {
      ghost var n, f0 := Nums(), psta.Flags();
      var preamble, erp := SetPreambleAndErp(psta, noShortPreamble, nonErp);
      ghost var f1 := psta.Flags();
      var slot := SetNoShortSlotTime(psta, noShortSlotTime);
      MovedTwice(n, f0, f1, psta.Flags());
      updated := erp || (faster && (preamble || slot));
    }

    method SetPreambleAndErp(psta: StaInfo, noShortPreamble: bool, nonErp: bool) returns (preamble: bool, erp: bool)
      modifies this`numStaNoShortPreamble, this`numStaNonErp, psta`noShortPreambleSet, psta`nonerpSet
      ensures psta.Flags() == old(psta.Flags()).(noShortPreamble := noShortPreamble, nonErp := nonErp)
      ensures Nums() == Moved(old(Nums()), old(psta.Flags()), psta.Flags())
      ensures preamble == Announced(old(psta.Flags()).noShortPreamble, noShortPreamble, Nums().noShortPreamble)
      ensures erp == Announced(old(psta.Flags()).nonErp, nonErp, Nums().nonErp)
    {
      ghost var n, f0 := Nums(), psta.Flags();
      preamble := SetNoShortPreamble(psta, noShortPreamble);
      ghost var f1 := psta.Flags();
      erp := SetNonErp(psta, nonErp);
      MovedTwice(n, f0, f1, psta.Flags());
    }

    /** bss_cap_update_on_sta_join: the part for HT. */
    method JoinHt(psta: StaInfo, c: Caps)
      modifies this`numStaNoHt, this`numStaHtNoGf, this`numStaHt20mhz, this`numSta40mhzIntolerant
      modifies psta`noHtSet, psta`noHtGfSet, psta`ht20mhzSet, psta`ht40mhzIntolerant
      ensures psta.Flags() == JoinHtFlags(old(psta.Flags()), c)
      ensures Nums() == Moved(old(Nums()), old(psta.Flags()), psta.Flags())
    {
      ghost var n, f0 := Nums(), psta.Flags();
      SetNoHt(psta, !c.ht);
      if !c.ht { return; }
      ghost var f1 := psta.Flags();
      if !c.greenField { SetNoHtGf(psta, true); }
      ghost var f2 := psta.Flags();
      MovedTwice(n, f0, f1, f2);
      if !c.width40 { SetHt20Mhz(psta, true); }
      ghost var f3 := psta.Flags();
      MovedTwice(n, f0, f2, f3);
      if c.intolerant { SetIntolerant(psta, true); }
      MovedTwice(n, f0, f3, psta.Flags());
    }

    /** bss_cap_update_on_sta_join; `faster` tells that the wireless mode is above 11b. */
    method OnStaJoin(psta: StaInfo, c: Caps, htOn: bool, faster: bool) returns (beaconUpdated: bool)
      modifies this`numStaNoShortPreamble, this`numStaNonErp, this`numStaNoShortSlotTime, this`numStaNoHt
      modifies this`numStaHtNoGf, this`numStaHt20mhz, this`numSta40mhzIntolerant, this`htOpMode, psta
      ensures psta.Flags() == JoinFlags(old(psta.Flags()), c, htOn)
      ensures Nums() == Moved(old(Nums()), old(psta.Flags()), psta.Flags())
      ensures htOpMode == if htOn && htOption then NewMode(old(htOpMode), Nums(), supWidth, olbcHt) else old(htOpMode)
      ensures beaconUpdated
          <==> LegacyAnnounced(old(psta.Flags()), psta.Flags(), Nums(), faster) || htOpMode != old(htOpMode)
    {
      beaconUpdated := SetLegacy(psta, !c.shortPreamble, c.nonErp, !c.shortSlotTime, faster);
      if htOn {
        JoinHt(psta, c);
        var changes := HtOperationUpdate();
        if changes > 0 { beaconUpdated := true; }
      }
    }

    /** bss_cap_update_on_sta_leave; `timSet` tells that the station has a bit in the TIM bitmap. */
    method OnStaLeave(psta: StaInfo?, timSet: bool, faster: bool) returns (beaconUpdated: bool)
      modifies this`numStaNoShortPreamble, this`numStaNonErp, this`numStaNoShortSlotTime, this`numStaNoHt
      modifies this`numStaHtNoGf, this`numStaHt20mhz, this`numSta40mhzIntolerant, this`htOpMode, psta
      ensures psta == null ==> !beaconUpdated && Nums() == old(Nums()) && htOpMode == old(htOpMode)
      ensures psta != null ==>
        && psta.Flags() == NO_FLAGS
        && Nums() == Left(old(Nums()), old(psta.Flags()))
        && htOpMode == (if htOption then NewMode(old(htOpMode), Nums(), supWidth, olbcHt) else old(htOpMode))
        && (beaconUpdated <==> timSet || LegacyAnnounced(old(psta.Flags()), NO_FLAGS, Nums(), faster))
    {
      beaconUpdated := false;
      if psta == null { return; }
      var updated := LeaveFlags(psta, faster);
      beaconUpdated := timSet || updated;
      var changes := HtOperationUpdate();
    }

    /** The flags and counters in the leave. */
    method LeaveFlags(psta: StaInfo, faster: bool) returns (updated: bool)
      modifies this`numStaNoShortPreamble, this`numStaNonErp, this`numStaNoShortSlotTime, this`numStaNoHt
      modifies this`numStaHtNoGf, this`numStaHt20mhz, this`numSta40mhzIntolerant, psta
      ensures psta.Flags() == NO_FLAGS && Nums() == Left(old(Nums()), old(psta.Flags()))
      ensures updated <==> LegacyAnnounced(old(psta.Flags()), NO_FLAGS, Nums(), faster)
    {
      updated := SetLegacy(psta, false, false, false, faster);
      LeaveHt(psta);
    }

    /** The HT part of the leave; the last counter stops at zero. */
    method LeaveHt(psta: StaInfo)
      modifies this`numStaNoHt, this`numStaHtNoGf, this`numStaHt20mhz, this`numSta40mhzIntolerant
      modifies psta`noHtSet, psta`noHtGfSet, psta`ht20mhzSet, psta`ht40mhzIntolerant
      ensures psta.Flags() == old(psta.Flags()).(noHt := false, noHtGf := false, ht20Mhz := false, ht40MhzIntolerant := false)
      ensures var kept := old(psta.ht40mhzIntolerant && numSta40mhzIntolerant <= 0);
        var m := Moved(old(Nums()), old(psta.Flags()), psta.Flags());
        Nums() == if kept then m.(ht40MhzIntolerant := old(numSta40mhzIntolerant)) else m
    {
      ghost var n, f0 := Nums(), psta.Flags();
      SetNoHtGf(psta, false);
      ghost var f1 := psta.Flags();
      SetNoHt(psta, false);
      ghost var f2 := psta.Flags();
      MovedTwice(n, f0, f1, f2);
      SetHt20Mhz(psta, false);
      ghost var f3 := psta.Flags();
      MovedTwice(n, f0, f2, f3);
      if psta.ht40mhzIntolerant {
        psta.ht40mhzIntolerant := false;
        if numSta40mhzIntolerant > 0 { numSta40mhzIntolerant := numSta40mhzIntolerant - 1; }
      }
      MovedTwice(n, f0, f3, psta.Flags());
    }

    /** rtw_process_public_act_bsscoex on the body of a frame from the station. */
    method OnBssCoex(psta: StaInfo?, body: seq<Byte>) returns (beaconUpdated: bool)
      requires psta != null ==> Readable(body)
      modifies psta, this`numSta40mhzIntolerant, this`ht20mhzWidthReq, this`htIntolerantChReported
      ensures psta == null ==> !beaconUpdated && Nums() == old(Nums())
      ensures psta != null ==>
        && psta.Flags() == old(psta.Flags()).(ht40MhzIntolerant := old(psta.ht40mhzIntolerant) || SaysIntolerant(body))
        && Nums() == Moved(old(Nums()), old(psta.Flags()), psta.Flags())
        && ht20mhzWidthReq == (old(ht20mhzWidthReq) || AsksFor20(body))
        && htIntolerantChReported == (old(htIntolerantChReported) || ReportsChannels(body))
        && (beaconUpdated <==> psta.Flags() != old(psta.Flags()) || ht20mhzWidthReq != old(ht20mhzWidthReq)
                               || htIntolerantChReported != old(htIntolerantChReported))
    {
      beaconUpdated := false;
      if psta == null { return; }
      beaconUpdated := CoexElement(psta, body);
      if |body| > 8 && body[5] == 73 && body[6] > 0 && !htIntolerantChReported {
        htIntolerantChReported := true;
        beaconUpdated := true;
      }
    }

    /** The 20/40 coexistence element at the start of the body. */
    method CoexElement(psta: StaInfo, body: seq<Byte>) returns (beaconUpdated: bool)
      requires Readable(body)
      modifies psta`ht40mhzIntolerant, this`numSta40mhzIntolerant, this`ht20mhzWidthReq
      ensures psta.Flags() == old(psta.Flags()).(ht40MhzIntolerant := old(psta.ht40mhzIntolerant) || SaysIntolerant(body))
      ensures Nums() == Moved(old(Nums()), old(psta.Flags()), psta.Flags())
      ensures ht20mhzWidthReq == (old(ht20mhzWidthReq) || AsksFor20(body))
      ensures beaconUpdated <==> psta.Flags() != old(psta.Flags()) || ht20mhzWidthReq != old(ht20mhzWidthReq)
    {
      beaconUpdated := false;
      if |body| > 0 && body[2] == 72 && body[3] > 0 {
        var ieData := body[4];
        if ieData / 2 % 2 == 1 {
          if !psta.ht40mhzIntolerant {
            SetIntolerant(psta, true);
            beaconUpdated := true;
          }
        } else if ieData / 4 % 2 == 1 {
          if !ht20mhzWidthReq {
            ht20mhzWidthReq := true;
            beaconUpdated := true;
          }
        } else {
          beaconUpdated := false;
        }
      }
    }

    /** rtw_sta_flush: every station of the list leaves; `fs` are their flags before. */
    method Flush(asoc: seq<StaInfo>, isAp: bool, faster: bool, ghost fs: seq<Flags>)
      requires Distinct(asoc) && |fs| == |asoc| && AllHave(asoc, fs)
      modifies this`numStaNoShortPreamble, this`numStaNonErp, this`numStaNoShortSlotTime, this`numStaNoHt
      modifies this`numStaHtNoGf, this`numStaHt20mhz, this`numSta40mhzIntolerant, this`htOpMode, asoc
      ensures !isAp ==> Nums() == old(Nums()) && htOpMode == old(htOpMode) && AllHave(asoc, fs)
      ensures isAp ==> Nums() == Dropped(old(Nums()), fs) && AllHave(asoc, seq(|fs|, _ => NO_FLAGS))
      ensures isAp ==>
        htOpMode == if asoc != [] && htOption then NewMode(old(htOpMode), Nums(), supWidth, olbcHt) else old(htOpMode)
    {
      if !isAp { return; }
      var i := 0;
      ghost var n, mode, now := Nums(), htOpMode, fs;
      assert fs[..0] == [];
      while i < |asoc|
        invariant i <= |asoc| == |now| && Nums() == Dropped(n, fs[..i])
        invariant AllHave(asoc, now) && now[i..] == fs[i..] && forall j :: 0 <= j < i ==> now[j] == NO_FLAGS
        invariant htOpMode == if i > 0 && htOption then NewMode(mode, Nums(), supWidth, olbcHt) else mode
      {
        assert now[i] == now[i..][0] == fs[i];
        DropNext(n, fs, i);
        var updated := OnStaLeave(asoc[i], false, faster);
        now := now[i := NO_FLAGS];
        i := i + 1;
      }
      assert fs[..i] == fs && now == seq(|fs|, _ => NO_FLAGS);
    }
  }

  ghost predicate AllHave(stas: seq<StaInfo>, fs: seq<Flags>)
    requires |stas| == |fs|
    reads stas
  {
    forall i :: 0 <= i < |stas| ==> stas[i].Flags() == fs[i]
  }

  lemma DropNext(n: Nums, fs: seq<Flags>, i: nat)
    requires i < |fs|
    ensures Dropped(n, fs[..i + 1]) == Left(Dropped(n, fs[..i]), fs[i])
  {
    assert fs[..i + 1][..i] == fs[..i];
    DroppedLast(n, fs[..i + 1]);
  }

  /** The code does not compare the length of a body that is not empty with how far it looks into it. */
  predicate Readable(body: seq<Byte>) {
    |body| > 0 ==> |body| >= 3 && (body[2] == 72 ==> |body| >= 4 && (body[3] > 0 ==> |body| >= 5))
  }

  predicate SaysIntolerant(body: seq<Byte>) {
    |body| >= 5 && body[2] == 72 && body[3] > 0 && body[4] / 2 % 2 == 1
  }

  predicate AsksFor20(body: seq<Byte>) {
    |body| >= 5 && body[2] == 72 && body[3] > 0 && body[4] / 2 % 2 == 0 && body[4] / 4 % 2 == 1
  }

  predicate ReportsChannels(body: seq<Byte>) { |body| > 8 && body[5] == 73 && body[6] > 0 }
}
