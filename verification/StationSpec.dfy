/** What the soft AP knows about its stations: their flags, how many stations have each flag, and the
    HT operation mode that follows (core/rtw_ap.c). */
module StationSpec {

  datatype Flag = NoShortPreamble | NonErp | NoShortSlotTime | NoHt | NoHtGf | Ht20Mhz | Ht40MhzIntolerant

  /** The `*_set` fields of a station. */
  datatype Flags = Flags(noShortPreamble: bool, nonErp: bool, noShortSlotTime: bool, noHt: bool, noHtGf: bool,
                         ht20Mhz: bool, ht40MhzIntolerant: bool)
  {
    predicate Has(f: Flag) {
      match f
      case NoShortPreamble => noShortPreamble
      case NonErp => nonErp
      case NoShortSlotTime => noShortSlotTime
      case NoHt => noHt
      case NoHtGf => noHtGf
      case Ht20Mhz => ht20Mhz
      case Ht40MhzIntolerant => ht40MhzIntolerant
    }
  }

  const NO_FLAGS := Flags(false, false, false, false, false, false, false)

  /** The `num_sta_*` fields. */
  datatype Nums = Nums(noShortPreamble: int, nonErp: int, noShortSlotTime: int, noHt: int, noHtGf: int,
                       ht20Mhz: int, ht40MhzIntolerant: int)
  {
    function Of(f: Flag): int {
      match f
      case NoShortPreamble => noShortPreamble
      case NonErp => nonErp
      case NoShortSlotTime => noShortSlotTime
      case NoHt => noHt
      case NoHtGf => noHtGf
      case Ht20Mhz => ht20Mhz
      case Ht40MhzIntolerant => ht40MhzIntolerant
    }
  }

  function Bit(b: bool): nat { if b then 1 else 0 }

  /** The counters after a station's flags went from `a` to `b`. */
  function Moved(n: Nums, a: Flags, b: Flags): Nums {
    Nums(n.noShortPreamble + Bit(b.noShortPreamble) - Bit(a.noShortPreamble),
         n.nonErp + Bit(b.nonErp) - Bit(a.nonErp),
         n.noShortSlotTime + Bit(b.noShortSlotTime) - Bit(a.noShortSlotTime),
         n.noHt + Bit(b.noHt) - Bit(a.noHt),
         n.noHtGf + Bit(b.noHtGf) - Bit(a.noHtGf),
         n.ht20Mhz + Bit(b.ht20Mhz) - Bit(a.ht20Mhz),
         n.ht40MhzIntolerant + Bit(b.ht40MhzIntolerant) - Bit(a.ht40MhzIntolerant))
  }

  /** The counters after a station with these flags has left; that of the intolerant ones stops at zero. */
  function Left(n: Nums, a: Flags): Nums {
    var m := Moved(n, a, NO_FLAGS);
    if a.ht40MhzIntolerant && n.ht40MhzIntolerant <= 0 then m.(ht40MhzIntolerant := n.ht40MhzIntolerant) else m
  }

  lemma MovedOf(n: Nums, a: Flags, b: Flags, f: Flag)
    ensures Moved(n, a, b).Of(f) == n.Of(f) + Bit(b.Has(f)) - Bit(a.Has(f))
  {}

  // ---------------------------------------------------------------- the HT operation mode

  /** The parts of the 16-bit mode field: bits 0 and 1, bit 2, bit 4, and the other bits. */
  datatype HtOpMode = HtOpMode(op: nat, nonGf: bool, nonHt: bool, others: nat)

  const PURE: nat := 0
  const MAY_BE_LEGACY: nat := 1
  const HT20_ASSOCED: nat := 2
  const MIXED: nat := 3

  function OpMode(noHt: bool, ht20: bool, olbcHt: bool): nat {
    if noHt then MIXED else if ht20 then HT20_ASSOCED else if olbcHt then MAY_BE_LEGACY else PURE
  }

  /** The mode that the counters ask for; the other bits are those of the mode before. */
  function NewMode(mode: HtOpMode, n: Nums, supWidth: bool, olbcHt: bool): HtOpMode {
    HtOpMode(OpMode(n.noHt != 0, supWidth && n.ht20Mhz != 0, olbcHt), n.noHtGf != 0, n.noHt != 0 || olbcHt, mode.others)
  }

  /** How many of the three parts differ. */
  function Changes(a: HtOpMode, b: HtOpMode): nat {
    Bit(a.nonGf != b.nonGf) + Bit(a.nonHt != b.nonHt) + Bit(a.op != b.op)
  }

  // ---------------------------------------------------------------- the events

  datatype Caps = Caps(shortPreamble: bool, nonErp: bool, shortSlotTime: bool, ht: bool,
                       greenField: bool, width40: bool, intolerant: bool)

  /** The HT flags after a join; only NoHt is ever cleared by one. */
  function JoinHtFlags(a: Flags, c: Caps): Flags {
    if c.ht then
      a.(noHt := false,
         noHtGf := a.noHtGf || !c.greenField,
         ht20Mhz := a.ht20Mhz || !c.width40,
         ht40MhzIntolerant := a.ht40MhzIntolerant || c.intolerant)
    else a.(noHt := true)
  }

  /** The flags after a join. */
  function JoinFlags(a: Flags, c: Caps, htOn: bool): Flags {
    var b := a.(noShortPreamble := !c.shortPreamble, nonErp := c.nonErp, noShortSlotTime := !c.shortSlotTime);
    if htOn then JoinHtFlags(b, c) else b
  }

  type Stations = map<nat, Flags>

  function FlagsOf(stas: Stations, id: nat): Flags { if id in stas then stas[id] else NO_FLAGS }

  datatype Ap = Ap(stas: Stations, num: Nums, mode: HtOpMode, olbcHt: bool, htOption: bool, supWidth: bool)

  function HtUpdate(ap: Ap): Ap {
    if !ap.htOption then ap else ap.(mode := NewMode(ap.mode, ap.num, ap.supWidth, ap.olbcHt))
  }

  function SetFlags(ap: Ap, id: nat, b: Flags): Ap {
    ap.(stas := ap.stas[id := b], num := Moved(ap.num, FlagsOf(ap.stas, id), b))
  }

  /** bss_cap_update_on_sta_join */
  function Join(ap: Ap, id: nat, c: Caps, htOn: bool): Ap {
    var r := SetFlags(ap, id, JoinFlags(FlagsOf(ap.stas, id), c, htOn));
    if htOn then HtUpdate(r) else r
  }

  /** bss_cap_update_on_sta_leave */
  function Leave(ap: Ap, id: nat): Ap { HtUpdate(SetFlags(ap, id, NO_FLAGS)) }

  /** rtw_process_public_act_bsscoex with the 40 MHz intolerant bit set */
  function Intolerant(ap: Ap, id: nat): Ap {
    SetFlags(ap, id, FlagsOf(ap.stas, id).(ht40MhzIntolerant := true))
  }

  /** rtw_sta_flush of the stations in the list of associated ones */
  function Flush(ap: Ap, ids: seq<nat>): Ap
    decreases |ids|
  {
    if ids == [] then ap else Flush(Leave(ap, ids[0]), ids[1..])
  }

  /** The reset after a scan of the AP. */
  function ScanReset(ap: Ap): Ap { ap.(num := ap.num.(noHt := 0)) }

  datatype Event =
    | EJoin(id: nat, caps: Caps, htOn: bool)
    | ELeave(id: nat)
    | EIntolerant(id: nat)
    | EFlush(ids: seq<nat>)
    | EScanReset
    | EOlbcHt(seen: bool)

  /** Leaves and frames of stations that are not known are ignored. */
  function Step(ap: Ap, e: Event): Ap {
    match e
    case EJoin(id, caps, htOn) => Join(ap, id, caps, htOn)
    case ELeave(id) => if id in ap.stas then Leave(ap, id) else ap
    case EIntolerant(id) => if id in ap.stas then Intolerant(ap, id) else ap
    case EFlush(ids) => Flush(ap, ids)
    case EScanReset => ScanReset(ap)
    case EOlbcHt(seen) => ap.(olbcHt := seen)
  }

  function Run(ap: Ap, es: seq<Event>): Ap
    decreases |es|
  {
    if es == [] then ap else Run(Step(ap, es[0]), es[1..])
  }

  // ---------------------------------------------------------------- the counters count

  function Flagged(stas: Stations, f: Flag): set<nat> { set id | id in stas && stas[id].Has(f) }

  ghost predicate Counted(ap: Ap) { forall f: Flag :: ap.num.Of(f) == |Flagged(ap.stas, f)| }

  /** By how much a counter is short of the number of stations. */
  function Short(ap: Ap, f: Flag): int { |Flagged(ap.stas, f)| - ap.num.Of(f) }

  lemma CountedIsShort(ap: Ap)
    ensures Counted(ap) <==> forall f: Flag :: Short(ap, f) == 0
  {
    assert forall f: Flag :: Short(ap, f) == |Flagged(ap.stas, f)| - ap.num.Of(f);
  }

  lemma OneStation(stas: Stations, id: nat, b: Flags, f: Flag)
    ensures |Flagged(stas[id := b], f)| == |Flagged(stas, f)| + Bit(b.Has(f)) - Bit(FlagsOf(stas, id).Has(f))
  {
    var s, t := Flagged(stas, f), Flagged(stas[id := b], f);
    assert id in t <==> b.Has(f);
    assert id in s <==> FlagsOf(stas, id).Has(f);
    OtherStations(stas, id, b, f);
    Without(s, id);
    Without(t, id);
  }

  lemma OtherStations(stas: Stations, id: nat, b: Flags, f: Flag)
    ensures Flagged(stas[id := b], f) - {id} == Flagged(stas, f) - {id}
  {
    var stas' := stas[id := b];
    forall i | i != id ensures i in Flagged(stas', f) <==> i in Flagged(stas, f) {
      assert i in stas' <==> i in stas;
      if i in stas { assert stas'[i] == stas[i]; }
    }
  }

  lemma Without(s: set<nat>, id: nat)
    ensures |s - {id}| == |s| - Bit(id in s)
  {
    if id !in s { assert s - {id} == s; }
  }

  lemma SetFlagsShort(ap: Ap, id: nat, b: Flags, f: Flag)
    ensures Short(SetFlags(ap, id, b), f) == Short(ap, f)
  {
    OneStation(ap.stas, id, b, f);
    MovedOf(ap.num, FlagsOf(ap.stas, id), b, f);
  }

  lemma {:induction false} FlushShort(ap: Ap, ids: seq<nat>, f: Flag)
    ensures Short(Flush(ap, ids), f) == Short(ap, f)
    decreases |ids|
  {
    if ids != [] {
      SetFlagsShort(ap, ids[0], NO_FLAGS, f);
      FlushShort(Leave(ap, ids[0]), ids[1..], f);
    }
  }

  lemma SetFlagsCounted(ap: Ap, id: nat, b: Flags)
    requires Counted(ap)
    ensures Counted(SetFlags(ap, id, b))
  {
    var r := SetFlags(ap, id, b);
    forall f: Flag ensures Short(r, f) == Short(ap, f) {
      SetFlagsShort(ap, id, b, f);
    }
    CountedIsShort(ap);
    CountedIsShort(r);
  }

  lemma FlushCounted(ap: Ap, ids: seq<nat>)
    requires Counted(ap)
    ensures Counted(Flush(ap, ids))
  {
    forall f: Flag ensures Short(Flush(ap, ids), f) == Short(ap, f) {
      FlushShort(ap, ids, f);
    }
    CountedIsShort(ap);
    CountedIsShort(Flush(ap, ids));
  }

  /** The reset after a scan is right exactly when there is no non-HT station. */
  lemma ScanResetCounted(ap: Ap)
    requires Counted(ap)
    ensures Counted(ScanReset(ap)) <==> Flagged(ap.stas, NoHt) == {}
  {
    var r := ScanReset(ap);
    assert r.num.Of(NoHt) == 0;
    if Flagged(ap.stas, NoHt) == {} {
      forall f: Flag ensures r.num.Of(f) == |Flagged(r.stas, f)| {
        assert ap.num.Of(f) == |Flagged(ap.stas, f)|;
      }
    }
  }

  /** One associated station that cannot do HT. */
  const LEGACY: Ap :=
    Ap(map[1 := NO_FLAGS.(noHt := true)], Nums(0, 0, 0, 1, 0, 0, 0), HtOpMode(MIXED, false, true, 0), false, true, true)

  /** The reset forgets it. */
  lemma ScanForgets()
    ensures Counted(LEGACY) && Flagged(LEGACY.stas, NoHt) == {1} && !Counted(ScanReset(LEGACY))
  {
    assert 1 in LEGACY.stas && LEGACY.stas[1].Has(NoHt);
    forall f: Flag ensures LEGACY.num.Of(f) == |Flagged(LEGACY.stas, f)| {
      assert Flagged(LEGACY.stas, f) == if f == NoHt then {1} else {};
    }
    ScanResetCounted(LEGACY);
    assert 1 in Flagged(LEGACY.stas, NoHt);
  }

  /** The stations of the list of associated ones are known, and each is on it once. */
  ghost predicate Feasible(ap: Ap, e: Event) {
    e.EFlush? ==> Distinct(e.ids) && forall id :: id in e.ids ==> id in ap.stas
  }

  /** Nothing but the reset makes a counter wrong or right. */
  lemma StepShort(ap: Ap, e: Event, f: Flag)
    ensures Short(Step(ap, e), f) == if e.EScanReset? && f == NoHt then |Flagged(ap.stas, NoHt)| else Short(ap, f)
  {
    match e
    case EJoin(id, caps, htOn) => SetFlagsShort(ap, id, JoinFlags(FlagsOf(ap.stas, id), caps, htOn), f);
    case ELeave(id) => SetFlagsShort(ap, id, NO_FLAGS, f);
    case EIntolerant(id) => SetFlagsShort(ap, id, FlagsOf(ap.stas, id).(ht40MhzIntolerant := true), f);
    case EFlush(ids) => FlushShort(ap, ids, f);
    case EScanReset =>
    case EOlbcHt(seen) =>
  }

  ghost predicate AllFeasible(ap: Ap, es: seq<Event>)
    decreases |es|
  {
    es == [] || (Feasible(ap, es[0]) && AllFeasible(Step(ap, es[0]), es[1..]))
  }

  predicate NoReset(es: seq<Event>) { forall i :: 0 <= i < |es| ==> !es[i].EScanReset? }

  predicate LastReset(es: seq<Event>, i: nat) { i < |es| && es[i].EScanReset? && NoReset(es[i + 1..]) }

  lemma {:induction false} RunShort(ap: Ap, es: seq<Event>, f: Flag)
    requires f != NoHt || NoReset(es)
    ensures Short(Run(ap, es), f) == Short(ap, f)
    decreases |es|
  {
    if es != [] {
      StepShort(ap, es[0], f);
      RunShort(Step(ap, es[0]), es[1..], f);
    }
  }

  lemma {:induction false} RunSplit(ap: Ap, es: seq<Event>, i: nat)
    requires i <= |es|
    ensures Run(ap, es) == Run(Run(ap, es[..i]), es[i..])
    decreases i
  {
    if i > 0 {
      RunSplit(Step(ap, es[0]), es[1..], i - 1);
      assert es[..i][1..] == es[1..][..i - 1] && es[1..][i - 1..] == es[i..];
    } else {
      assert es[..0] == [] && es[0..] == es;
    }
  }

  /** After any run every counter but that of the non-HT stations is as right as before, and that one is short
      by the number of such stations at the last reset. */
  lemma ShortByLastReset(ap: Ap, es: seq<Event>, i: nat)
    requires LastReset(es, i)
    ensures Short(Run(ap, es), NoHt) == |Flagged(Run(ap, es[..i]).stas, NoHt)|
  {
    var at := Run(ap, es[..i]);
    RunSplit(ap, es, i);
    StepShort(at, es[i], NoHt);
    assert es[i..][1..] == es[i + 1..];
    RunShort(Step(at, es[i]), es[i + 1..], NoHt);
  }

  /** Over any run the counters stay the numbers of flagged stations exactly if there was no reset, or no
      non-HT station at the last one. */
  lemma RunCounted(ap: Ap, es: seq<Event>)
    requires Counted(ap)
    ensures NoReset(es) ==> Counted(Run(ap, es))
    ensures forall i: nat :: LastReset(es, i) ==> (Counted(Run(ap, es)) <==> Flagged(Run(ap, es[..i]).stas, NoHt) == {})
  {
    var r := Run(ap, es);
    CountedIsShort(ap);
    CountedIsShort(r);
    forall f: Flag | f != NoHt || NoReset(es) ensures Short(r, f) == 0 {
      RunShort(ap, es, f);
    }
    forall i: nat | LastReset(es, i) ensures Counted(r) <==> Flagged(Run(ap, es[..i]).stas, NoHt) == {} {
      ShortByLastReset(ap, es, i);
    }
  }

  /** What the mode tells if the counter of the non-HT stations may be short. */
  lemma ModeWhenShort(ap: Ap)
    requires ap.htOption
    ensures var m, short := HtUpdate(ap).mode, Short(ap, NoHt);
      && (m.nonHt <==> |Flagged(ap.stas, NoHt)| != short || ap.olbcHt)
      && (m.op == 3 <==> |Flagged(ap.stas, NoHt)| != short)
  {}

  /** When the only non-HT station, such as that of the state above, leaves after the reset, the counter
      becomes -1, and the mode stays mixed. */
  lemma MixedForNobody(ap: Ap, id: nat)
    requires ap.htOption && Flagged(ap.stas, NoHt) == {id}
    ensures var r := Run(ap, [EScanReset, ELeave(id)]);
      r.num.noHt == -1 && Flagged(r.stas, NoHt) == {} && r.mode.op == 3 && r.mode.nonHt
  {
    assert id in Flagged(ap.stas, NoHt);
    var es, s := [EScanReset, ELeave(id)], ScanReset(ap);
    var r := Leave(s, id);
    assert es[1..] == [ELeave(id)] && [ELeave(id)][1..] == [];
    assert Run(r, []) == r && Run(s, [ELeave(id)]) == r && Run(ap, es) == r;
    OtherStations(ap.stas, id, NO_FLAGS, NoHt);
    assert Flagged(r.stas, NoHt) - {id} == {} && id !in Flagged(r.stas, NoHt);
  }

  // ---------------------------------------------------------------- joining, leaving, flushing

  lemma JoinAgain(ap: Ap, id: nat, c: Caps, htOn: bool)
    ensures Join(Join(ap, id, c, htOn), id, c, htOn) == Join(ap, id, c, htOn)
  {
    var a := FlagsOf(ap.stas, id);
    var b := JoinFlags(a, c, htOn);
    var r := SetFlags(ap, id, b);
    JoinFlagsAgain(a, c, htOn);
    SameFlags(r, id, b);
    var j := Join(ap, id, c, htOn);
    assert j.stas == r.stas && j.num == r.num && SetFlags(j, id, b) == j;
    assert HtUpdate(HtUpdate(r)) == HtUpdate(r);
  }

  lemma JoinFlagsAgain(a: Flags, c: Caps, htOn: bool)
    ensures JoinFlags(JoinFlags(a, c, htOn), c, htOn) == JoinFlags(a, c, htOn)
  {}

  lemma SameFlags(ap: Ap, id: nat, b: Flags)
    requires id in ap.stas && ap.stas[id] == b
    ensures SetFlags(ap, id, b) == ap
  {
    assert ap.stas[id := b] == ap.stas;
  }

  lemma LeaveAgain(ap: Ap, id: nat)
    ensures Leave(Leave(ap, id), id) == Leave(ap, id)
  {
    var r := SetFlags(ap, id, NO_FLAGS);
    assert r.stas[id := NO_FLAGS] == r.stas;
  }

  /** A join, and whether HT was switched on at the time. */
  datatype Joining = Joining(caps: Caps, htOn: bool)

  /** The flags after joins, one after the other. */
  function JoinAll(a: Flags, js: seq<Joining>): Flags
    decreases |js|
  {
    if js == [] then a
    else var last := js[|js| - 1]; JoinFlags(JoinAll(a, js[..|js| - 1]), last.caps, last.htOn)
  }

  /** The HT capabilities give the station this flag. */
  predicate Gives(c: Caps, f: Flag) {
    c.ht && match f case NoHtGf => !c.greenField case Ht20Mhz => !c.width40 case Ht40MhzIntolerant => c.intolerant case _ => false
  }

  ghost predicate SomeGives(js: seq<Joining>, f: Flag) {
    exists i :: 0 <= i < |js| && js[i].htOn && Gives(js[i].caps, f)
  }

  /** Join `i` is the last one with HT switched on. */
  predicate LastHt(js: seq<Joining>, i: nat)
    requires i < |js|
  {
    js[i].htOn && forall j :: i < j < |js| ==> !js[j].htOn
  }

  /** The last join with HT switched on was by a station without HT. */
  ghost predicate LastIsLegacy(js: seq<Joining>) {
    exists i :: 0 <= i < |js| && LastHt(js, i) && !js[i].caps.ht
  }

  /** What the flags of a station say that has joined since it last left: three tell about the last join,
      one about the last join with HT switched on, the other three about any of those. */
  lemma {:induction false} JoinsTell(js: seq<Joining>)
    requires js != []
    ensures var b, last := JoinAll(NO_FLAGS, js), js[|js| - 1].caps;
      && b.noShortPreamble == !last.shortPreamble && b.nonErp == last.nonErp
      && b.noShortSlotTime == !last.shortSlotTime
      && (b.noHt <==> LastIsLegacy(js))
      && (b.noHtGf <==> SomeGives(js, NoHtGf))
      && (b.ht20Mhz <==> SomeGives(js, Ht20Mhz))
      && (b.ht40MhzIntolerant <==> SomeGives(js, Ht40MhzIntolerant))
    decreases |js|
  {
    var n := |js| - 1;
    var before := js[..n];
    if n > 0 { JoinsTell(before); }
    OneMore(js, NoHtGf);
    OneMore(js, Ht20Mhz);
    OneMore(js, Ht40MhzIntolerant);
    LastOneMore(js);
  }

  lemma OneMore(js: seq<Joining>, f: Flag)
    requires js != []
    ensures var last := js[|js| - 1]; SomeGives(js, f) <==> SomeGives(js[..|js| - 1], f) || (last.htOn && Gives(last.caps, f))
  {
    var n := |js| - 1;
    assert forall i :: 0 <= i < n ==> js[..n][i] == js[i];
    assert SomeGives(js[..n], f) ==> exists i :: 0 <= i < n && js[i].htOn && Gives(js[i].caps, f);
  }

  lemma LastOneMore(js: seq<Joining>)
    requires js != []
    ensures var last := js[|js| - 1];
      LastIsLegacy(js) <==> if last.htOn then !last.caps.ht else LastIsLegacy(js[..|js| - 1])
  {
    var n := |js| - 1;
    if js[n].htOn {
      assert LastHt(js, n);
      assert forall i :: 0 <= i < n ==> !LastHt(js, i);
    } else {
      assert forall i :: 0 <= i < n ==> (LastHt(js, i) <==> LastHt(js[..n], i));
      assert forall i :: 0 <= i < n ==> js[..n][i] == js[i];
    }
  }

  lemma MovedTwice(n: Nums, a: Flags, b: Flags, c: Flags)
    ensures Moved(Moved(n, a, b), b, c) == Moved(n, a, c)
  {}

  /** Leaving undoes whatever a join did. */
  lemma LeaveUndoesJoin(ap: Ap, id: nat, c: Caps, htOn: bool)
    ensures Leave(Join(ap, id, c, htOn), id) == Leave(ap, id)
  {
    var a, b := FlagsOf(ap.stas, id), JoinFlags(FlagsOf(ap.stas, id), c, htOn);
    var r := SetFlags(ap, id, b);
    LeaveAfterChange(ap, id, b);
  }

  lemma LeaveAfterChange(ap: Ap, id: nat, b: Flags)
    ensures SetFlags(SetFlags(ap, id, b), id, NO_FLAGS) == SetFlags(ap, id, NO_FLAGS)
  {
    assert ap.stas[id := b][id := NO_FLAGS] == ap.stas[id := NO_FLAGS];
    MovedTwice(ap.num, FlagsOf(ap.stas, id), b, NO_FLAGS);
  }

  lemma {:induction false} FlushFlags(ap: Ap, ids: seq<nat>, id: nat)
    ensures FlagsOf(Flush(ap, ids).stas, id) == if id in ids then NO_FLAGS else FlagsOf(ap.stas, id)
    decreases |ids|
  {
    if ids != [] {
      FlushFlags(Leave(ap, ids[0]), ids[1..], id);
      assert id in ids <==> id == ids[0] || id in ids[1..];
    }
  }

  ghost predicate AllZero(n: Nums) { forall f: Flag :: n.Of(f) == 0 }

  ghost predicate FlaggedOnlyIn(stas: Stations, ids: seq<nat>) {
    forall id :: id !in ids ==> FlagsOf(stas, id) == NO_FLAGS
  }

  /** A flush brings every counter to zero exactly when no station outside the list has a flag. */
  lemma FlushZero(ap: Ap, ids: seq<nat>)
    requires Counted(ap)
    ensures AllZero(Flush(ap, ids).num) <==> FlaggedOnlyIn(ap.stas, ids)
  {
    var r := Flush(ap, ids);
    FlushCounted(ap, ids);
    if FlaggedOnlyIn(ap.stas, ids) { FlushedToZero(ap, ids); }
    if AllZero(r.num) {
      forall id | id !in ids ensures FlagsOf(ap.stas, id) == NO_FLAGS {
        FlushFlags(ap, ids, id);
        NoneFlagged(r, id);
      }
    }
  }

  lemma FlushedToZero(ap: Ap, ids: seq<nat>)
    requires Counted(ap) && FlaggedOnlyIn(ap.stas, ids)
    ensures AllZero(Flush(ap, ids).num)
  {
    var r := Flush(ap, ids);
    FlushCounted(ap, ids);
    forall f: Flag ensures r.num.Of(f) == 0 {
      forall id ensures id !in Flagged(r.stas, f) {
        FlushFlags(ap, ids, id);
        assert FlagsOf(r.stas, id) == NO_FLAGS;
      }
      assert Flagged(r.stas, f) == {};
      assert r.num.Of(f) == |Flagged(r.stas, f)|;
    }
  }

  lemma NoneFlagged(ap: Ap, id: nat)
    requires Counted(ap) && AllZero(ap.num)
    ensures FlagsOf(ap.stas, id) == NO_FLAGS
  {
    forall f: Flag ensures !FlagsOf(ap.stas, id).Has(f) {
      assert ap.num.Of(f) == |Flagged(ap.stas, f)|;
      assert id !in Flagged(ap.stas, f);
    }
    var b := FlagsOf(ap.stas, id);
    assert !b.Has(NoShortPreamble) && !b.Has(NonErp) && !b.Has(NoShortSlotTime) && !b.Has(NoHt);
    assert !b.Has(NoHtGf) && !b.Has(Ht20Mhz) && !b.Has(Ht40MhzIntolerant);
  }

  // ---------------------------------------------------------------- what is announced

  /** The test that the code makes after a counter moved: it just became 1, or 0. */
  predicate Announced(a: bool, b: bool, n: int) { (!a && b && n == 1) || (a && !b && n == 0) }

  /** The beacon is sent again because of these counters. */
  predicate LegacyAnnounced(a: Flags, b: Flags, n: Nums, faster: bool) {
    || Announced(a.nonErp, b.nonErp, n.nonErp)
    || (faster && (Announced(a.noShortPreamble, b.noShortPreamble, n.noShortPreamble)
                   || Announced(a.noShortSlotTime, b.noShortSlotTime, n.noShortSlotTime)))
  }

  /** It is true exactly when the presence of such stations changed. */
  lemma AnnouncedIsChange(ap: Ap, id: nat, b: Flags, f: Flag)
    requires Counted(ap)
    ensures var r := SetFlags(ap, id, b);
      Announced(FlagsOf(ap.stas, id).Has(f), b.Has(f), r.num.Of(f))
      <==> (Flagged(ap.stas, f) == {}) != (Flagged(r.stas, f) == {})
  {
    var r := SetFlags(ap, id, b);
    SetFlagsCounted(ap, id, b);
    OneStation(ap.stas, id, b, f);
    assert ap.num.Of(f) == |Flagged(ap.stas, f)| && r.num.Of(f) == |Flagged(r.stas, f)|;
    assert FlagsOf(ap.stas, id).Has(f) ==> id in Flagged(ap.stas, f);
    assert b.Has(f) ==> id in Flagged(r.stas, f);
  }

  /** What the beacon is sent again for: a change of the presence of stations without ERP, and above 11b of
      stations without short preamble or short slot time. */
  lemma LegacyIsChange(ap: Ap, id: nat, b: Flags, faster: bool)
    requires Counted(ap)
    ensures var r := SetFlags(ap, id, b);
      LegacyAnnounced(FlagsOf(ap.stas, id), b, r.num, faster) <==>
        Appeared(ap, r, NonErp) || (faster && (Appeared(ap, r, NoShortPreamble) || Appeared(ap, r, NoShortSlotTime)))
  {
    AnnouncedIsChange(ap, id, b, NonErp);
    AnnouncedIsChange(ap, id, b, NoShortPreamble);
    AnnouncedIsChange(ap, id, b, NoShortSlotTime);
  }

  /** Such stations appeared, or disappeared. */
  predicate Appeared(ap: Ap, r: Ap, f: Flag) { (Flagged(ap.stas, f) == {}) != (Flagged(r.stas, f) == {}) }

  /** The number of changes is that of the parts in which two modes differ. */
  lemma ChangesCount(a: HtOpMode, b: HtOpMode)
    ensures Changes(a, b) == 0 <==> a.op == b.op && a.nonGf == b.nonGf && a.nonHt == b.nonHt
    ensures Changes(a, b) == 3 <==> a.op != b.op && a.nonGf != b.nonGf && a.nonHt != b.nonHt
    ensures Changes(a, b) == |(if a.op != b.op then {0} else {}) + (if a.nonGf != b.nonGf then {1} else {})
                               + (if a.nonHt != b.nonHt then {2} else {})|
  {}

  /** After any run the AP knows what was last seen elsewhere. */
  lemma {:induction false} LastSeen(ap: Ap, es: seq<Event>, i: nat)
    requires i < |es| && es[i].EOlbcHt? && forall j :: i < j < |es| ==> !es[j].EOlbcHt?
    ensures Run(ap, es).olbcHt == es[i].seen
    decreases |es|
  {
    var r := Step(ap, es[0]);
    if i > 0 { LastSeen(r, es[1..], i - 1); } else { NoneSeen(r, es[1..]); }
  }

  lemma {:induction false} NoneSeen(ap: Ap, es: seq<Event>)
    requires forall j :: 0 <= j < |es| ==> !es[j].EOlbcHt?
    ensures Run(ap, es).olbcHt == ap.olbcHt
    decreases |es|
  {
    if es != [] {
      if es[0].EFlush? { FlushSees(ap, es[0].ids); }
      NoneSeen(Step(ap, es[0]), es[1..]);
    }
  }

  lemma {:induction false} FlushSees(ap: Ap, ids: seq<nat>)
    ensures Flush(ap, ids).olbcHt == ap.olbcHt
    decreases |ids|
  {
    if ids != [] { FlushSees(Leave(ap, ids[0]), ids[1..]); }
  }

  /** Some station has the flag. */
  predicate AnyHas(stas: Stations, f: Flag) { exists id :: id in stas && stas[id].Has(f) }

  lemma AnyIsFlagged(stas: Stations, f: Flag)
    ensures AnyHas(stas, f) <==> |Flagged(stas, f)| > 0
  {
    if AnyHas(stas, f) {
      var id :| id in stas && stas[id].Has(f);
      assert id in Flagged(stas, f);
    } else {
      assert Flagged(stas, f) == {};
    }
  }

  /** Whenever the mode is brought up to date it tells which kinds of stations there are: 3 if there is one
      without HT; else 2 if the AP supports 40 MHz and there is one that does not; else 1 if such stations were
      seen elsewhere; else 0. */
  lemma ModeTellsStations(ap: Ap)
    requires Counted(ap) && ap.htOption
    ensures var m, legacy, narrow := HtUpdate(ap).mode, AnyHas(ap.stas, NoHt), ap.supWidth && AnyHas(ap.stas, Ht20Mhz);
      && (m.op == 3 <==> legacy)
      && (m.op == 2 <==> !legacy && narrow)
      && (m.op == 1 <==> !legacy && !narrow && ap.olbcHt)
      && (m.op == 0 <==> !legacy && !narrow && !ap.olbcHt)
      && (m.nonGf <==> AnyHas(ap.stas, NoHtGf))
      && (m.nonHt <==> legacy || ap.olbcHt)
      && m.others == ap.mode.others && HtUpdate(HtUpdate(ap)) == HtUpdate(ap)
  {
    AnyIsFlagged(ap.stas, NoHtGf);
    AnyIsFlagged(ap.stas, NoHt);
    AnyIsFlagged(ap.stas, Ht20Mhz);
    assert ap.num.Of(NoHtGf) == |Flagged(ap.stas, NoHtGf)|;
    assert ap.num.Of(NoHt) == |Flagged(ap.stas, NoHt)|;
    assert ap.num.Of(Ht20Mhz) == |Flagged(ap.stas, Ht20Mhz)|;
  }

  /** The mode is up to date after every join with HT switched on, and after every leave. */
  lemma ModeFollows(ap: Ap, id: nat, c: Caps)
    ensures HtUpdate(Join(ap, id, c, true)) == Join(ap, id, c, true) && HtUpdate(Leave(ap, id)) == Leave(ap, id)
    ensures Join(ap, id, c, false).mode == ap.mode
  {}

  /** A station that reported to be intolerant keeps the flag until it leaves or is flushed, whatever else
      happens. */
  lemma {:induction false} IntolerantStays(ap: Ap, es: seq<Event>, id: nat)
    requires id in ap.stas && forall e :: e in es ==> !(e.ELeave? && e.id == id) && !(e.EFlush? && id in e.ids)
    requires ap.stas[id].ht40MhzIntolerant || (es != [] && es[0] == EIntolerant(id))
    ensures var r := Run(ap, es); id in r.stas && r.stas[id].ht40MhzIntolerant
    decreases |es|
  {
    if es != [] {
      assert es[0] in es && forall e :: e in es[1..] ==> e in es;
      StaysIntolerant(ap, es[0], id);
      IntolerantStays(Step(ap, es[0]), es[1..], id);
    }
  }

  lemma StaysIntolerant(ap: Ap, e: Event, id: nat)
    requires id in ap.stas && (ap.stas[id].ht40MhzIntolerant || e == EIntolerant(id))
    requires !(e.ELeave? && e.id == id) && !(e.EFlush? && id in e.ids)
    ensures var r := Step(ap, e); id in r.stas && r.stas[id].ht40MhzIntolerant
  {
    match e
    case EFlush(ids) =>
      FlushFlags(ap, ids, id);
      FlushKnown(ap, ids, id);
    case EJoin(i, c, htOn) => if i == id { assert JoinFlags(ap.stas[id], c, htOn).ht40MhzIntolerant; }
    case _ =>
  }

  lemma {:induction false} FlushKnown(ap: Ap, ids: seq<nat>, id: nat)
    requires id in ap.stas
    ensures id in Flush(ap, ids).stas
    decreases |ids|
  {
    if ids != [] { FlushKnown(Leave(ap, ids[0]), ids[1..], id); }
  }

  /** The counter of a flag that a station has is positive, so the warning in the leave code is never reached. */
  lemma FlaggedIsPositive(ap: Ap, id: nat, f: Flag)
    requires Short(ap, f) == 0 && FlagsOf(ap.stas, id).Has(f)
    ensures ap.num.Of(f) > 0
  {
    assert id in Flagged(ap.stas, f);
  }

  /** The counters after stations with these flags have left. */
  function Dropped(n: Nums, fs: seq<Flags>): Nums
    decreases |fs|
  {
    if fs == [] then n else Dropped(Left(n, fs[0]), fs[1..])
  }

  ghost predicate Distinct<T>(s: seq<T>) { forall i, j :: 0 <= i < j < |s| ==> s[i] != s[j] }

  /** When that counter is right, a station that leaves takes exactly its flags with it. */
  lemma LeftIsMoved(ap: Ap, id: nat)
    requires Short(ap, Ht40MhzIntolerant) == 0
    ensures Left(ap.num, FlagsOf(ap.stas, id)) == Moved(ap.num, FlagsOf(ap.stas, id), NO_FLAGS)
  {
    if FlagsOf(ap.stas, id).ht40MhzIntolerant { FlaggedIsPositive(ap, id, Ht40MhzIntolerant); }
  }

  /** On the counters a flush of distinct stations is the sum of what they leave. */
  lemma {:induction false} FlushIsDropped(ap: Ap, ids: seq<nat>, fs: seq<Flags>)
    requires Short(ap, Ht40MhzIntolerant) == 0 && Distinct(ids)
    requires |fs| == |ids| && forall i :: 0 <= i < |ids| ==> fs[i] == FlagsOf(ap.stas, ids[i])
    ensures Flush(ap, ids).num == Dropped(ap.num, fs)
    decreases |ids|
  {
    if ids != [] {
      LeftIsMoved(ap, ids[0]);
      SetFlagsShort(ap, ids[0], NO_FLAGS, Ht40MhzIntolerant);
      FlushIsDropped(Leave(ap, ids[0]), ids[1..], fs[1..]);
    }
  }

  /** A flush changes nothing but flags, counters and the mode, which is that of the counters it leaves. */
  lemma {:induction false} FlushFields(ap: Ap, ids: seq<nat>)
    requires forall id :: id in ids ==> id in ap.stas
    ensures var r := Flush(ap, ids);
      && r.stas.Keys == ap.stas.Keys && r.olbcHt == ap.olbcHt && r.htOption == ap.htOption && r.supWidth == ap.supWidth
      && r.mode == if ids != [] && ap.htOption then NewMode(ap.mode, r.num, ap.supWidth, ap.olbcHt) else ap.mode
    decreases |ids|
  {
    if ids != [] { FlushFields(Leave(ap, ids[0]), ids[1..]); }
  }

  lemma {:induction false} DroppedLast(n: Nums, fs: seq<Flags>)
    requires fs != []
    ensures Dropped(n, fs) == Left(Dropped(n, fs[..|fs| - 1]), fs[|fs| - 1])
    decreases |fs|
  {
    if |fs| > 1 {
      DroppedLast(Left(n, fs[0]), fs[1..]);
      assert fs[1..][..|fs| - 2] == fs[..|fs| - 1][1..];
    }
  }

  /** The counter of the stations that do not tolerate 40 MHz covers those that leave. */
  ghost predicate Positive(n: Nums, fs: seq<Flags>) {
    forall k :: 0 <= k < |fs| && fs[k].ht40MhzIntolerant ==> Dropped(n, fs[..k]).ht40MhzIntolerant > 0
  }

  /** That holds whenever it counts. */
  lemma CountedIsPositive(ap: Ap, ids: seq<nat>, fs: seq<Flags>)
    requires Short(ap, Ht40MhzIntolerant) == 0 && Distinct(ids)
    requires |fs| == |ids| && forall i :: 0 <= i < |ids| ==> fs[i] == FlagsOf(ap.stas, ids[i])
    ensures Positive(ap.num, fs)
  {
    forall k | 0 <= k < |fs| && fs[k].ht40MhzIntolerant ensures Dropped(ap.num, fs[..k]).ht40MhzIntolerant > 0 {
      FlushIsDropped(ap, ids[..k], fs[..k]);
      FlushShort(ap, ids[..k], Ht40MhzIntolerant);
      FlushFlags(ap, ids[..k], ids[k]);
      assert fs[k] == FlagsOf(ap.stas, ids[k]);
      FlaggedIsPositive(Flush(ap, ids[..k]), ids[k], Ht40MhzIntolerant);
    }
  }
}
