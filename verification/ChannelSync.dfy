/** The same functions on settings that are updated in place. */
module ChannelSync {
  import opened ChannelGroup
  import opened Wrappers

  /** The three bytes that the callers pass by reference. */
  class ChSetting {
    var ch: nat
    var bw: nat
    var offset: nat

    constructor (c: nat, b: nat, o: nat)
      ensures Value() == Chbw(c, b, o)
    {
      ch, bw, offset := c, b, o;
    }

    function Value(): Chbw
      reads this
    {
      Chbw(ch, bw, offset)
    }
  }

  /** rtw_get_offset_by_chbw */
  method GetOffsetByChbw(ch: nat, bw: nat, offset: nat) returns (valid: bool, rOffset: nat)
    ensures rOffset == OffsetByChbw(ch, bw, offset)
    ensures valid <==> bw == WIDTH_20 || (!(bw >= WIDTH_80 && ch <= 14) && (1 <= ch <= 13 || Offset5G(ch) != OFFSET_DONT_CARE))
  {
    valid := true;
    var o := OFFSET_DONT_CARE;
    rOffset := offset;
    if bw != WIDTH_20 {
      if bw >= WIDTH_80 && ch <= 14 { return false, offset; }
      if ch >= 1 && ch <= 4 {
        o := OFFSET_LOWER;
      } else if ch >= 5 && ch <= 9 {
        if offset == OFFSET_LOWER || offset == OFFSET_UPPER {
          o := offset;
        } else {
          o := OFFSET_UPPER;
        }
      } else if ch >= 10 && ch <= 13 {
        o := OFFSET_UPPER;
      } else if ch == 14 {
        return false, offset;
      } else if ch >= 36 && ch <= 177 {
        o := Offset5G(ch);
        valid := o != OFFSET_DONT_CARE;
      } else {
        valid := false;
      }
    }
    if valid { rOffset := o; }
  }

  /** rtw_sync_chbw */
  method SyncChbw(req: ChSetting, g: ChSetting)
    requires req != g
    modifies req, g`bw, g`offset
    ensures req.Value() == Adjusted(old(req.Value()), old(g.Value()))
    ensures g.Value() == Widened(old(req.Value()), old(g.Value()))
  {
    req.ch := g.ch;
    if req.bw == WIDTH_80 && g.ch <= 14 { req.bw := WIDTH_40; }
    if req.bw == WIDTH_80 || req.bw == WIDTH_40 {
      if g.bw == WIDTH_40 || g.bw == WIDTH_80 {
        req.offset := g.offset;
      } else if g.bw == WIDTH_20 {
        var valid, o := GetOffsetByChbw(req.ch, req.bw, req.offset);
        req.offset := o;
      }
      if req.offset == OFFSET_DONT_CARE { req.bw := WIDTH_20; }
    } else if req.bw == WIDTH_20 {
      req.offset := OFFSET_DONT_CARE;
    }
    if req.bw > g.bw {
      g.bw := req.bw;
      g.offset := req.offset;
    }
  }

  /** rtw_adjust_chbw, given the width that the registry and the hardware allow on the channel. */
  method AdjustChbw(allowed: nat, c: Chbw) returns (r: Chbw, changed: bool)
    ensures r == CutToAllowed(c, allowed)
    ensures changed <==> r.bw < c.bw
  {
    r, changed := c, true;
    if allowed == WIDTH_80 && c.bw > WIDTH_80 {
      r := c.(bw := WIDTH_80);
    } else if allowed == WIDTH_40 && c.bw > WIDTH_40 {
      r := c.(bw := WIDTH_40);
    } else if allowed == WIDTH_20 && c.bw > WIDTH_20 {
      r := c.(bw := WIDTH_20, offset := OFFSET_DONT_CARE);
    } else {
      changed := false;
    }
  }

  /** The union loop of rtw_ap_chbw_decision; a selected interface is one that is in the bitmap and present. */
  method UnionLoop(dec: array<Chbw>, selected: seq<bool>, allowed: nat -> nat) returns (u: ChSetting)
    requires |selected| == dec.Length
    ensures fresh(u) && u.Value() == Union(Chbw(0, 0, 0), dec[..], selected, allowed)
  {
    u := new ChSetting(0, 0, 0);
    ghost var start := Chbw(0, 0, 0);
    var i := 0;
    assert dec[..0] == [] && selected[..0] == [];
    while i < dec.Length
      invariant i <= dec.Length && fresh(u)
      invariant u.Value() == Union(start, dec[..i], selected[..i], allowed)
    {
      UnionNext(start, dec[..], selected, allowed, i);
      assert dec[..][..i] == dec[..i] && dec[..][..i + 1] == dec[..i + 1];
      if selected[i] {
        var tmp, changed := AdjustChbw(allowed(dec[i].ch), dec[i]);
        var valid, o := GetOffsetByChbw(tmp.ch, tmp.bw, tmp.offset);
        if u.ch == 0 {
          u.ch, u.bw, u.offset := tmp.ch, tmp.bw, o;
        } else {
          var req := new ChSetting(tmp.ch, tmp.bw, o);
          SyncChbw(req, u);
        }
      }
      i := i + 1;
    }
    assert dec[..i] == dec[..] && selected[..i] == selected;
  }

  lemma UnionNext(u: Chbw, decs: seq<Chbw>, selected: seq<bool>, allowed: nat -> nat, i: nat)
    requires |selected| == |decs| && i < |decs|
    ensures var before := Union(u, decs[..i], selected[..i], allowed);
      Union(u, decs[..i + 1], selected[..i + 1], allowed)
      == if selected[i] then UnionStep(before, decs[i], allowed) else before
  {
    UnionSplit(u, decs[..i + 1], selected[..i + 1], allowed, i);
    assert decs[..i + 1][..i] == decs[..i] && selected[..i + 1][..i] == selected[..i];
    assert decs[..i + 1][i..] == [decs[i]] && selected[..i + 1][i..] == [selected[i]];
  }

  /** The update_bss_chbw loop: every selected interface follows the union. */
  method UpdateBssChbw(dec: array<Chbw>, selected: seq<bool>, u: Chbw)
    requires |selected| == dec.Length
    modifies dec
    ensures forall i :: 0 <= i < dec.Length ==> dec[i] == if selected[i] then Follow(old(dec[i]), u) else old(dec[i])
  {
    for i := 0 to dec.Length
      invariant forall j :: 0 <= j < dec.Length ==>
        dec[j] == if j < i && selected[j] then Follow(old(dec[j]), u) else old(dec[j])
    {
      if selected[i] {
        var c := dec[i].(ch := u.ch);
        if c.bw > u.bw { c := c.(bw := u.bw); }
        dec[i] := c.(offset := if c.bw == WIDTH_20 then OFFSET_DONT_CARE else u.offset);
      }
    }
  }

  /** The decision for a requested channel.  `checked` is what the checks between the loops make of the
      union: nothing if no channel can be used, else the union, cut down or not, or another setting that was
      chosen.  Either no interface changes, or all selected ones are grouped with that setting. */
  method DecideOnRequestedChannel(dec: array<Chbw>, selected: seq<bool>, allowed: nat -> nat,
                                  checked: Chbw -> Option<Chbw>) returns (decided: Option<Chbw>)
    requires |selected| == dec.Length
    modifies dec
    ensures decided == checked(Union(Chbw(0, 0, 0), old(dec[..]), selected, allowed))
    ensures decided.None? ==> dec[..] == old(dec[..])
    ensures decided.Some? ==> forall i :: 0 <= i < dec.Length ==>
      if selected[i] then IsGrouped(dec[i], decided.value)
                          && dec[i].bw == (if old(dec[i]).bw > decided.value.bw then decided.value.bw else old(dec[i]).bw)
      else dec[i] == old(dec[i])
  {
    var u := UnionLoop(dec, selected, allowed);
    decided := checked(u.Value());
    if decided.Some? { UpdateBssChbw(dec, selected, decided.value); }
  }
}
