/** Channel settings that are grouped (core/rtw_ieee80211.c, core/rtw_wlan_util.c), and the loops of
    rtw_ap_chbw_decision that find a union of settings and apply it (core/rtw_ap.c). */
module ChannelGroup {

  datatype Chbw = Chbw(ch: nat, bw: nat, offset: nat)

  const WIDTH_20: nat := 0
  const WIDTH_40: nat := 1
  const WIDTH_80: nat := 2

  const OFFSET_DONT_CARE: nat := 0
  const OFFSET_LOWER: nat := 1
  const OFFSET_UPPER: nat := 2

  /** The widths for which the offset matters. */
  predicate Wide(bw: nat) { bw == WIDTH_40 || bw == WIDTH_80 }

  /** rtw_is_chbw_grouped */
  predicate IsGrouped(a: Chbw, b: Chbw) {
    if a.ch != b.ch then false
    else if Wide(a.bw) && Wide(b.bw) && a.offset != b.offset then false
    else true
  }

  // ---------------------------------------------------------------- rtw_get_offset_by_chbw

  function Offset5G(ch: nat): nat {
    if ch in [36, 44, 52, 60, 100, 108, 116, 124, 132, 140, 149, 157, 165, 173] then OFFSET_LOWER
    else if ch in [40, 48, 56, 64, 104, 112, 120, 128, 136, 144, 153, 161, 169, 177] then OFFSET_UPPER
    else OFFSET_DONT_CARE
  }

  /** The offset afterwards; it stays as it is when there is none for this channel and width. */
  function OffsetByChbw(ch: nat, bw: nat, offset: nat): nat {
    if bw == WIDTH_20 then OFFSET_DONT_CARE
    else if bw >= WIDTH_80 && ch <= 14 then offset
    else if 1 <= ch <= 4 then OFFSET_LOWER
    else if 5 <= ch <= 9 then if offset == OFFSET_LOWER then offset else OFFSET_UPPER
    else if 10 <= ch <= 13 then OFFSET_UPPER
    else if 36 <= ch <= 177 && Offset5G(ch) != OFFSET_DONT_CARE then Offset5G(ch)
    else offset
  }

  /** The channels are paired: the upper neighbour of a lower channel is an upper one, and conversely. */
  lemma PairedChannels(ch: nat)
    ensures Offset5G(ch) == OFFSET_LOWER <==> Offset5G(ch + 4) == OFFSET_UPPER
    ensures ch < 36 ==> Offset5G(ch) == OFFSET_DONT_CARE
  {
    if Offset5G(ch) == OFFSET_LOWER { UpperBehind(ch); }
    if Offset5G(ch + 4) == OFFSET_UPPER { LowerBefore(ch); }
  }

  lemma UpperBehind(ch: nat)
    requires Offset5G(ch) == OFFSET_LOWER
    ensures Offset5G(ch + 4) == OFFSET_UPPER
  {}

  lemma LowerBefore(ch: nat)
    requires Offset5G(ch + 4) == OFFSET_UPPER
    ensures Offset5G(ch) == OFFSET_LOWER
  {}

  /** A wide setting on a channel that has an offset gets one, whatever was asked for. */
  lemma WideGetsOffset(ch: nat, bw: nat, offset: nat)
    requires Wide(bw) && (bw == WIDTH_80 ==> ch > 14) && (1 <= ch <= 13 || Offset5G(ch) != OFFSET_DONT_CARE)
    ensures var o := OffsetByChbw(ch, bw, offset); o == OFFSET_LOWER || o == OFFSET_UPPER
    ensures OffsetByChbw(ch, bw, OffsetByChbw(ch, bw, offset)) == OffsetByChbw(ch, bw, offset)
  {}

  /** The channel 20 MHz above, or below. */
  function Secondary(ch: nat, offset: nat): int { if offset == OFFSET_LOWER then ch + 4 else ch - 4 }

  /** The channel that the offset pairs with exists.  In the 2.4 GHz band it is the one above up to channel 4,
      the one below from channel 10 on, and the one asked for in between, or else the one below; in the 5 GHz
      band the two are paired both ways. */
  lemma SecondaryExists(ch: nat, bw: nat, offset: nat)
    requires Wide(bw) && (bw == WIDTH_80 ==> ch > 14) && (1 <= ch <= 13 || Offset5G(ch) != OFFSET_DONT_CARE)
    ensures var second := Secondary(ch, OffsetByChbw(ch, bw, offset));
      && (ch <= 13 ==> 1 <= second <= 13)
      && (ch <= 4 || (5 <= ch <= 9 && offset == OFFSET_LOWER) ==> second == ch + 4)
      && (10 <= ch <= 13 || (5 <= ch <= 9 && offset != OFFSET_LOWER) ==> second == ch - 4)
      && (ch > 14 ==> second > 14 && Secondary(second, OffsetByChbw(second, bw, offset)) == ch)
  {
    WideGetsOffset(ch, bw, offset);
    if ch > 13 {
      LargeChannels(ch);
      if Offset5G(ch) == OFFSET_LOWER {
        UpperBehind(ch);
        LargeChannels(ch + 4);
      } else {
        PairedChannels(ch - 4);
        LargeChannels(ch - 4);
      }
    }
  }

  lemma LargeChannels(ch: nat)
    ensures Offset5G(ch) != OFFSET_DONT_CARE ==> 36 <= ch <= 177
    ensures Offset5G(ch) == OFFSET_UPPER ==> ch >= 40
  {}

  // ---------------------------------------------------------------- rtw_sync_chbw

  /** The request, made to fit the group. */
  function Adjusted(req: Chbw, g: Chbw): Chbw {
    var bw := if req.bw == WIDTH_80 && g.ch <= 14 then WIDTH_40 else req.bw;
    if Wide(bw) then
      var offset :=
        if Wide(g.bw) then g.offset
        else if g.bw == WIDTH_20 then OffsetByChbw(g.ch, bw, req.offset)
        else req.offset;
      Chbw(g.ch, if offset == OFFSET_DONT_CARE then WIDTH_20 else bw, offset)
    else if bw == WIDTH_20 then Chbw(g.ch, bw, OFFSET_DONT_CARE)
    else Chbw(g.ch, bw, req.offset)
  }

  /** The group, widened to the adjusted request if that is wider. */
  function Widened(req: Chbw, g: Chbw): Chbw {
    var r := Adjusted(req, g);
    if r.bw > g.bw then g.(bw := r.bw, offset := r.offset) else g
  }

  /** A fold over requests: what they became, and the group. */
  function SyncAll(reqs: seq<Chbw>, g: Chbw): (seq<Chbw>, Chbw)
    decreases |reqs|
  {
    if reqs == [] then ([], g)
    else
      var (rest, g') := SyncAll(reqs[1..], Widened(reqs[0], g));
      ([Adjusted(reqs[0], g)] + rest, g')
  }

  /** A group may only grow, and keeps its offset once it has one. */
  predicate Extends(g: Chbw, g': Chbw) { IsGrouped(g, g') && g.bw <= g'.bw }

  lemma ExtendsTransitive(a: Chbw, b: Chbw, c: Chbw)
    requires Extends(a, b) && Extends(b, c)
    ensures Extends(a, c)
  {}

  lemma SyncOne(req: Chbw, g: Chbw)
    ensures Extends(g, Widened(req, g)) && Extends(Adjusted(req, g), Widened(req, g))
    ensures Wide(Adjusted(req, g).bw) ==> Adjusted(req, g).offset != OFFSET_DONT_CARE
    ensures Widened(req, g).bw == if Adjusted(req, g).bw > g.bw then Adjusted(req, g).bw else g.bw
  {}

  /** What a request becomes: on the channel of the group, at its own width as far as the band has it, and at
      20 MHz only if that was asked for or there is no offset.  In a group of 20 MHz the offset is that of the
      channel, and where there are two, in the 2.4 GHz band, the one asked for or else the upper one. */
  lemma AdjustedExactly(req: Chbw, g: Chbw)
    requires req.bw <= WIDTH_80 && g.bw <= WIDTH_80
    ensures var r := Adjusted(req, g);
      && r.ch == g.ch && r.bw <= req.bw && (g.ch <= 14 ==> r.bw <= WIDTH_40)
      && (r.bw == WIDTH_20 ==> req.bw == WIDTH_20 || r.offset == OFFSET_DONT_CARE)
      && (Wide(r.bw) ==> r.bw == if g.ch <= 14 then WIDTH_40 else req.bw)
      && (Wide(r.bw) && g.bw == WIDTH_20 && 5 <= g.ch <= 9 ==>
            r.offset == if req.offset == OFFSET_LOWER then OFFSET_LOWER else OFFSET_UPPER)
      && (Wide(r.bw) && g.bw == WIDTH_20 && g.ch > 14 && Offset5G(g.ch) != OFFSET_DONT_CARE ==> r.offset == Offset5G(g.ch))
  {
    if g.ch > 14 { LargeChannels(g.ch); }
  }

  function MaxWidth(bw: nat, rs: seq<Chbw>): nat
    decreases |rs|
  {
    if rs == [] then bw else MaxWidth(if rs[0].bw > bw then rs[0].bw else bw, rs[1..])
  }

  /** The group keeps its channel, is never narrowed, and ends at the maximum of the widths. */
  lemma {:induction false} SyncAllExtends(reqs: seq<Chbw>, g: Chbw)
    ensures var (rs, g') := SyncAll(reqs, g);
      |rs| == |reqs| && Extends(g, g') && g'.bw == MaxWidth(g.bw, rs)
    decreases |reqs|
  {
    if reqs != [] {
      SyncOne(reqs[0], g);
      SyncAllExtends(reqs[1..], Widened(reqs[0], g));
      ExtendsTransitive(g, Widened(reqs[0], g), SyncAll(reqs, g).1);
      assert SyncAll(reqs, g).0[1..] == SyncAll(reqs[1..], Widened(reqs[0], g)).0;
    }
  }

  /** Every adjusted request is grouped with the final group, and not wider. */
  lemma {:induction false} SyncAllGroups(reqs: seq<Chbw>, g: Chbw, i: nat)
    requires i < |reqs|
    ensures var (rs, g') := SyncAll(reqs, g);
      |rs| == |reqs| && IsGrouped(rs[i], g') && rs[i].bw <= g'.bw
    decreases |reqs|
  {
    var g1 := Widened(reqs[0], g);
    SyncAllExtends(reqs, g);
    if i > 0 {
      SyncAllGroups(reqs[1..], g1, i - 1);
    } else {
      SyncOne(reqs[0], g);
      SyncAllExtends(reqs[1..], g1);
      ExtendsTransitive(Adjusted(reqs[0], g), g1, SyncAll(reqs[1..], g1).1);
    }
  }

  /** A group without an offset cannot be widened to 40 MHz: the request is cut down to 20 MHz. */
  lemma NoOffsetNoWidth(req: Chbw, g: Chbw)
    requires Wide(g.bw) && g.offset == OFFSET_DONT_CARE && Wide(req.bw)
    ensures Adjusted(req, g).bw == WIDTH_20 && Widened(req, g) == g
  {}

  // ---------------------------------------------------------------- the loops of the AP decision

  /** rtw_adjust_chbw, given the width that the registry and the hardware allow on the channel. */
  function CutToAllowed(c: Chbw, allowed: nat): Chbw {
    if c.bw <= allowed || allowed > WIDTH_80 then c
    else Chbw(c.ch, allowed, if allowed == WIDTH_20 then OFFSET_DONT_CARE else c.offset)
  }

  function Prepared(c: Chbw, allowed: nat -> nat): Chbw {
    var d := CutToAllowed(c, allowed(c.ch));
    d.(offset := OffsetByChbw(d.ch, d.bw, d.offset))
  }

  /** One round of the union loop; a union on channel 0 is none yet. */
  function UnionStep(u: Chbw, dec: Chbw, allowed: nat -> nat): Chbw {
    if u.ch == 0 then Prepared(dec, allowed) else Widened(Prepared(dec, allowed), u)
  }

  function Union(u: Chbw, decs: seq<Chbw>, selected: seq<bool>, allowed: nat -> nat): Chbw
    requires |selected| == |decs|
    decreases |decs|
  {
    if decs == [] then u
    else Union(if selected[0] then UnionStep(u, decs[0], allowed) else u, decs[1..], selected[1..], allowed)
  }

  /** What an interface is set to under a union. */
  function Follow(dec: Chbw, u: Chbw): Chbw {
    var bw := if dec.bw > u.bw then u.bw else dec.bw;
    Chbw(u.ch, bw, if bw == WIDTH_20 then OFFSET_DONT_CARE else u.offset)
  }

  /** It is grouped with the union, and as wide as it can be. */
  lemma FollowGrouped(dec: Chbw, u: Chbw)
    ensures IsGrouped(Follow(dec, u), u) && Follow(dec, u).bw <= u.bw
    ensures dec.bw <= u.bw ==> Follow(dec, u).bw == dec.bw
    ensures Extends(dec, u) && (dec.bw == WIDTH_20 ==> dec.offset == OFFSET_DONT_CARE) && u.bw <= WIDTH_80
            ==> Follow(dec, u) == dec
  {}

  lemma {:induction false} UnionExtends(u: Chbw, decs: seq<Chbw>, selected: seq<bool>, allowed: nat -> nat)
    requires |selected| == |decs| && u.ch != 0
    ensures Extends(u, Union(u, decs, selected, allowed))
    decreases |decs|
  {
    if decs != [] {
      var u1 := if selected[0] then UnionStep(u, decs[0], allowed) else u;
      if selected[0] { SyncOne(Prepared(decs[0], allowed), u); }
      UnionExtends(u1, decs[1..], selected[1..], allowed);
      ExtendsTransitive(u, u1, Union(u, decs, selected, allowed));
    }
  }

  lemma {:induction false} UnionSplit(u: Chbw, decs: seq<Chbw>, selected: seq<bool>, allowed: nat -> nat, i: nat)
    requires |selected| == |decs| && i <= |decs|
    ensures Union(u, decs, selected, allowed)
         == Union(Union(u, decs[..i], selected[..i], allowed), decs[i..], selected[i..], allowed)
    decreases i
  {
    if i > 0 {
      var u1 := if selected[0] then UnionStep(u, decs[0], allowed) else u;
      UnionSplit(u1, decs[1..], selected[1..], allowed, i - 1);
      assert decs[..i][1..] == decs[1..][..i - 1] && selected[..i][1..] == selected[1..][..i - 1];
      assert decs[1..][i - 1..] == decs[i..] && selected[1..][i - 1..] == selected[i..];
    }
  }

  /** What a setting becomes when it meets the union `u`. */
  function Fitted(dec: Chbw, u: Chbw, allowed: nat -> nat): Chbw {
    if u.ch == 0 then Prepared(dec, allowed) else Adjusted(Prepared(dec, allowed), u)
  }

  /** The union is grouped with, and at least as wide as, what each selected setting became. */
  lemma UnionCovers(u: Chbw, decs: seq<Chbw>, selected: seq<bool>, allowed: nat -> nat, i: nat)
    requires |selected| == |decs| && i < |decs| && selected[i]
    requires forall j :: 0 <= j < |decs| ==> decs[j].ch != 0
    ensures Extends(Fitted(decs[i], Union(u, decs[..i], selected[..i], allowed), allowed), Union(u, decs, selected, allowed))
  {
    var before := Union(u, decs[..i], selected[..i], allowed);
    var after := UnionStep(before, decs[i], allowed);
    UnionSplit(u, decs, selected, allowed, i);
    assert decs[i..][1..] == decs[i + 1..] && selected[i..][1..] == selected[i + 1..];
    SyncOne(Prepared(decs[i], allowed), before);
    UnionExtends(after, decs[i + 1..], selected[i + 1..], allowed);
    ExtendsTransitive(Fitted(decs[i], before, allowed), after, Union(u, decs, selected, allowed));
  }

  // ---------------------------------------------------------------- what the union may be

  /** The channel has an offset for this width. */
  predicate Pairable(c: Chbw) {
    c.bw <= WIDTH_80 && (c.bw == WIDTH_80 ==> c.ch > 14) && (1 <= c.ch <= 13 || Offset5G(c.ch) != OFFSET_DONT_CARE)
  }

  /** A wide setting says which side the other channels are on. */
  predicate HasSide(c: Chbw) { Wide(c.bw) ==> c.offset == OFFSET_LOWER || c.offset == OFFSET_UPPER }

  lemma NoSideAt20(c: Chbw)
    requires c.bw > WIDTH_20
    ensures CutToAllowed(c, WIDTH_20) == Chbw(c.ch, WIDTH_20, OFFSET_DONT_CARE)
  {}

  /** One setting is cut to the width allowed on its channel, and no further, and gets a side. */
  lemma PreparedExactly(dec: Chbw, allowed: nat -> nat)
    requires allowed(dec.ch) <= WIDTH_80
    ensures var r := Prepared(dec, allowed);
      && r.ch == dec.ch && r.bw == (if dec.bw < allowed(dec.ch) then dec.bw else allowed(dec.ch))
      && (Pairable(dec) ==> HasSide(r))
  {
    var d := CutToAllowed(dec, allowed(dec.ch));
    if Pairable(dec) && Wide(d.bw) { WideGetsOffset(d.ch, d.bw, d.offset); }
  }

  lemma StepMayBe(u: Chbw, dec: Chbw, allowed: nat -> nat, w: nat)
    requires u.bw <= w <= WIDTH_80 && allowed(dec.ch) <= w && Pairable(dec) && HasSide(u)
    ensures var r := UnionStep(u, dec, allowed); r.bw <= w && HasSide(r)
  {
    var p := Prepared(dec, allowed);
    PreparedExactly(dec, allowed);
    if u.ch != 0 {
      SyncOne(p, u);
      AdjustedExactly(p, u);
      AdjustedSide(p, u);
    }
  }

  lemma AdjustedSide(req: Chbw, g: Chbw)
    requires HasSide(req) && HasSide(g) && req.bw <= WIDTH_80 && g.bw <= WIDTH_80
    ensures HasSide(Adjusted(req, g))
  {
    if g.bw == WIDTH_20 { OffsetIsSide(g.ch, if req.bw == WIDTH_80 && g.ch <= 14 then WIDTH_40 else req.bw, req.offset); }
  }

  lemma OffsetIsSide(ch: nat, bw: nat, offset: nat)
    ensures OffsetByChbw(ch, bw, offset) in {OFFSET_DONT_CARE, OFFSET_LOWER, OFFSET_UPPER} || OffsetByChbw(ch, bw, offset) == offset
  {}

  /** The union is at most as wide as what is allowed on all the channels, and says which side it extends to. */
  lemma {:induction false} UnionMayBe(u: Chbw, decs: seq<Chbw>, selected: seq<bool>, allowed: nat -> nat, w: nat)
    requires |selected| == |decs| && u.bw <= w <= WIDTH_80 && HasSide(u)
    requires forall i :: 0 <= i < |decs| && selected[i] ==> Pairable(decs[i]) && allowed(decs[i].ch) <= w
    ensures var r := Union(u, decs, selected, allowed); r.bw <= w && HasSide(r)
    decreases |decs|
  {
    if decs != [] {
      if selected[0] { StepMayBe(u, decs[0], allowed, w); }
      UnionMayBe(if selected[0] then UnionStep(u, decs[0], allowed) else u, decs[1..], selected[1..], allowed, w);
    }
  }
}
