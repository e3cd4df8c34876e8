/** Runs of events on the fields: they follow the runs of the specification. */
module StationRun {
  import opened StationCounters
  import opened StationSpec

  ghost predicate OneObjectEach(stas: map<nat, StaInfo>) {
    forall i, j :: i in stas && j in stas && i != j ==> stas[i] != stas[j]
  }

  ghost predicate Agree(mlme: MlmePriv, ap: Ap)
    reads mlme
  {
    && mlme.Nums() == ap.num && mlme.htOpMode == ap.mode
    && mlme.olbcHt == ap.olbcHt && mlme.htOption == ap.htOption && mlme.supWidth == ap.supWidth
  }

  ghost predicate StationsAgree(stas: map<nat, StaInfo>, flags: Stations)
    reads stas.Values
  {
    stas.Keys == flags.Keys && forall id :: id in stas ==> stas[id].Flags() == flags[id]
  }

  /** A join. */
  method HandleJoin(mlme: MlmePriv, stas: map<nat, StaInfo>, id: nat, c: Caps, htOn: bool, faster: bool, ghost ap: Ap)
    requires OneObjectEach(stas) && id in stas && Agree(mlme, ap) && StationsAgree(stas, ap.stas)
    modifies mlme, stas[id]
    ensures Agree(mlme, Join(ap, id, c, htOn)) && StationsAgree(stas, Join(ap, id, c, htOn).stas)
  {
    var sta := stas[id];
    assert sta.Flags() == FlagsOf(ap.stas, id);
    var updated := mlme.OnStaJoin(sta, c, htOn, faster);
    ghost var now := Join(ap, id, c, htOn).stas;
    forall j | j in stas ensures stas[j].Flags() == now[j] {
      if j != id { assert stas[j] != sta; }
    }
  }

  /** A leave; the counters are such that the warning in it is not reached. */
  method HandleLeave(mlme: MlmePriv, stas: map<nat, StaInfo>, id: nat, faster: bool, ghost ap: Ap)
    requires OneObjectEach(stas) && id in stas && Agree(mlme, ap) && StationsAgree(stas, ap.stas)
    requires Short(ap, Ht40MhzIntolerant) == 0
    modifies mlme, stas[id]
    ensures Agree(mlme, Leave(ap, id)) && StationsAgree(stas, Leave(ap, id).stas)
  {
    var sta := stas[id];
    assert sta.Flags() == FlagsOf(ap.stas, id);
    if sta.ht40mhzIntolerant { FlaggedIsPositive(ap, id, Ht40MhzIntolerant); }
    var updated := mlme.OnStaLeave(sta, false, faster);
    ghost var now := Leave(ap, id).stas;
    forall j | j in stas ensures stas[j].Flags() == now[j] {
      if j != id { assert stas[j] != sta; }
    }
  }

  /** A coexistence frame. */
  method HandleIntolerant(mlme: MlmePriv, stas: map<nat, StaInfo>, id: nat, ghost ap: Ap)
    requires OneObjectEach(stas) && id in stas && Agree(mlme, ap) && StationsAgree(stas, ap.stas)
    modifies mlme, stas[id]
    ensures Agree(mlme, Intolerant(ap, id)) && StationsAgree(stas, Intolerant(ap, id).stas)
  {
    var sta := stas[id];
    assert sta.Flags() == FlagsOf(ap.stas, id);
    mlme.SetIntolerant(sta, true);
    ghost var now := Intolerant(ap, id).stas;
    forall j | j in stas ensures stas[j].Flags() == now[j] {
      if j != id { assert stas[j] != sta; }
    }
  }

  lemma FlushedStations(ap: Ap, ids: seq<nat>, fs: seq<Flags>) returns (now: Stations)
    requires Short(ap, Ht40MhzIntolerant) == 0 && Distinct(ids) && forall id :: id in ids ==> id in ap.stas
    requires |fs| == |ids| && forall i :: 0 <= i < |ids| ==> fs[i] == FlagsOf(ap.stas, ids[i])
    ensures now == Flush(ap, ids).stas && now.Keys == ap.stas.Keys
    ensures forall id :: id in now ==> now[id] == if id in ids then NO_FLAGS else ap.stas[id]
    ensures Flush(ap, ids) == AfterFlush(ap, now, fs)
  {
    now := Flush(ap, ids).stas;
    FlushIsDropped(ap, ids, fs);
    FlushFields(ap, ids);
    forall id | id in now ensures now[id] == if id in ids then NO_FLAGS else ap.stas[id] {
      FlushFlags(ap, ids, id);
    }
  }

  /** A flush of the list of associated stations. */
  method HandleFlush(mlme: MlmePriv, stas: map<nat, StaInfo>, ids: seq<nat>, faster: bool, ghost ap: Ap)
    requires OneObjectEach(stas) && Agree(mlme, ap) && StationsAgree(stas, ap.stas)
    requires Short(ap, Ht40MhzIntolerant) == 0
    requires Distinct(ids) && forall id :: id in ids ==> id in stas
    modifies mlme, stas.Values
    ensures Agree(mlme, Flush(ap, ids)) && StationsAgree(stas, Flush(ap, ids).stas)
  {
    var asoc := Listed(stas, ids);
    ghost var fs := seq(|ids|, i requires 0 <= i < |ids| => FlagsOf(ap.stas, ids[i]));
    ghost var now := FlushedStations(ap, ids, fs);
    assert AllHave(asoc, fs);
    FlushListed(mlme, asoc, faster, ap, Flush(ap, ids), fs);
    Flushed(stas, ids, asoc, ap.stas, now);
  }

  method FlushListed(mlme: MlmePriv, asoc: seq<StaInfo>, faster: bool, ghost ap: Ap, ghost flushed: Ap, ghost fs: seq<Flags>)
    requires Distinct(asoc) && |fs| == |asoc| && AllHave(asoc, fs) && Agree(mlme, ap)
    requires flushed == AfterFlush(ap, flushed.stas, fs)
    modifies mlme, asoc
    ensures Agree(mlme, flushed) && AllHave(asoc, seq(|fs|, _ => NO_FLAGS))
  {
    mlme.Flush(asoc, true, faster, fs);
  }

  /** After stations with these flags have left. */
  function AfterFlush(ap: Ap, stas: Stations, fs: seq<Flags>): Ap {
    var num := Dropped(ap.num, fs);
    var mode := if fs != [] && ap.htOption then NewMode(ap.mode, num, ap.supWidth, ap.olbcHt) else ap.mode;
    ap.(stas := stas, num := num, mode := mode)
  }

  /** The objects of the stations, in order. */
  function Listed(stas: map<nat, StaInfo>, ids: seq<nat>): (asoc: seq<StaInfo>)
    requires OneObjectEach(stas) && Distinct(ids) && forall id :: id in ids ==> id in stas
    ensures |asoc| == |ids| && Distinct(asoc) && forall i :: 0 <= i < |ids| ==> asoc[i] == stas[ids[i]]
    ensures forall id :: id in stas ==> (stas[id] in asoc <==> id in ids)
  {
    seq(|ids|, i requires 0 <= i < |ids| => stas[ids[i]])
  }

  lemma Flushed(stas: map<nat, StaInfo>, ids: seq<nat>, asoc: seq<StaInfo>, before: Stations, now: Stations)
    requires OneObjectEach(stas) && Distinct(ids) && (forall id :: id in ids ==> id in stas) && asoc == Listed(stas, ids)
    requires stas.Keys == before.Keys && AllHave(asoc, seq(|asoc|, _ => NO_FLAGS))
    requires forall id :: id in stas && stas[id] !in asoc ==> stas[id].Flags() == before[id]
    requires now.Keys == before.Keys && forall id :: id in now ==> now[id] == if id in ids then NO_FLAGS else before[id]
    ensures StationsAgree(stas, now)
  {
    forall id | id in stas ensures stas[id].Flags() == now[id] {
      if id in ids {
        var i :| 0 <= i < |ids| && ids[i] == id;
        assert asoc[i] == stas[id];
      }
    }
  }

  /** A station that joins for the first time gets an object. */
  method Known(stas: map<nat, StaInfo>, id: nat, ghost ap: Ap) returns (stas': map<nat, StaInfo>, ghost ap': Ap)
    requires OneObjectEach(stas) && StationsAgree(stas, ap.stas)
    ensures OneObjectEach(stas') && StationsAgree(stas', ap'.stas) && id in stas'
    ensures ap' == ap.(stas := ap.stas[id := FlagsOf(ap.stas, id)])
    ensures forall j :: j in stas' ==> fresh(stas'[j]) || stas'[j] in stas.Values
  {
    stas', ap' := stas, ap;
    if id in stas {
      assert ap.stas[id := FlagsOf(ap.stas, id)] == ap.stas;
    } else {
      var sta := new StaInfo();
      stas', ap' := stas[id := sta], ap.(stas := ap.stas[id := NO_FLAGS]);
    }
  }

  /** One event; `stas'` are the stations afterwards. */
  method Handle(mlme: MlmePriv, stas: map<nat, StaInfo>, e: Event, faster: bool, ghost ap: Ap)
    returns (stas': map<nat, StaInfo>)
    requires OneObjectEach(stas) && Feasible(ap, e)
    requires Agree(mlme, ap) && StationsAgree(stas, ap.stas) && Short(ap, Ht40MhzIntolerant) == 0
    modifies mlme, stas.Values
    ensures OneObjectEach(stas') && forall j :: j in stas' ==> fresh(stas'[j]) || stas'[j] in stas.Values
    ensures Agree(mlme, Step(ap, e)) && StationsAgree(stas', Step(ap, e).stas)
  {
    stas' := stas;
    match e {
      case EJoin(id, caps, htOn) =>
        ghost var ap';
        stas', ap' := Known(stas, id, ap);
        JoinKnown(ap, ap', id, caps, htOn);
        HandleJoin(mlme, stas', id, caps, htOn, faster, ap');
      case ELeave(id) => if id in stas { HandleLeave(mlme, stas, id, faster, ap); }
      case EIntolerant(id) => if id in stas { HandleIntolerant(mlme, stas, id, ap); }
      case EFlush(ids) => HandleFlush(mlme, stas, ids, faster, ap);
      case EScanReset => mlme.numStaNoHt := 0;
      case EOlbcHt(seen) => mlme.olbcHt := seen;
    }
  }

  lemma JoinKnown(ap: Ap, ap': Ap, id: nat, c: Caps, htOn: bool)
    requires ap' == ap.(stas := ap.stas[id := FlagsOf(ap.stas, id)])
    ensures Join(ap', id, c, htOn) == Join(ap, id, c, htOn)
  {
    var b := JoinFlags(FlagsOf(ap.stas, id), c, htOn);
    assert ap'.stas[id := b] == ap.stas[id := b];
  }

  /** A run, resets at any time included. */
  method HandleAll(mlme: MlmePriv, stas: map<nat, StaInfo>, es: seq<Event>, faster: bool, ghost ap: Ap)
    returns (stas': map<nat, StaInfo>)
    requires OneObjectEach(stas) && AllFeasible(ap, es)
    requires Agree(mlme, ap) && StationsAgree(stas, ap.stas) && Short(ap, Ht40MhzIntolerant) == 0
    modifies mlme, stas.Values
    ensures Agree(mlme, Run(ap, es)) && StationsAgree(stas', Run(ap, es).stas)
  {
    stas' := stas;
    ghost var now, rest := ap, es;
    var i := 0;
    while i < |es|
      invariant i <= |es| && rest == es[i..] && OneObjectEach(stas')
      invariant forall j :: j in stas' ==> fresh(stas'[j]) || stas'[j] in stas.Values
      invariant Agree(mlme, now) && StationsAgree(stas', now.stas) && Short(now, Ht40MhzIntolerant) == 0
      invariant AllFeasible(now, rest)
      invariant Run(now, rest) == Run(ap, es)
    {
      stas' := Handle(mlme, stas', es[i], faster, now);
      StepShort(now, es[i], Ht40MhzIntolerant);
      now, rest := Step(now, es[i]), rest[1..];
      i := i + 1;
    }
  }
}
