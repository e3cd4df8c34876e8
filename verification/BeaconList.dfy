/** The edits that core/rtw_ap.c makes on the elements of a beacon, on lists. */
module BeaconList {
  import opened Elements
  import opened Sequences
  import opened Wrappers

  const TIM: Pattern := Pattern(5, [])

  function Replace(es: seq<Elem>, k: nat, e: Elem): seq<Elem>
    requires k < |es|
  {
    es[..k] + [e] + es[k + 1..]
  }

  function Insert(es: seq<Elem>, k: nat, e: Elem): seq<Elem>
    requires k <= |es|
  {
    es[..k] + [e] + es[k..]
  }

  // ---------------------------------------------------------------- update_BCNTIM

  predicate HasTim(es: seq<Elem>) { First(es, TIM) < |es| && es[First(es, TIM)].body != [] }

  /** How many octets the first element with this ID takes. */
  function FirstSize(es: seq<Elem>, id: Byte): nat {
    var f := First(es, Pattern(id, []));
    if f < |es| then 2 + |es[f].body| else 0
  }

  /** Where a TIM is inserted: SSID and rates are taken to stand in front, and behind them a DS parameter set. */
  function TimOffset(es: seq<Elem>): nat { FirstSize(es, 0) + FirstSize(es, 1) + 3 }

  /** The element that starts at this offset, or the end of the list. */
  function IndexAt(es: seq<Elem>, off: nat): (k: Option<nat>)
    ensures k.Some? ==> k.value <= |es| && |Encode(es[..k.value])| == off
    decreases |es|
  {
    if off == 0 then Some(0)
    else if es == [] || off < 2 + |es[0].body| then None
    else
      var n := off - 2 - |es[0].body|;
      match IndexAt(es[1..], n)
      case None => None
      case Some(k) =>
        assert es[..k + 1][1..] == es[1..][..k];
        Some(k + 1)
  }

  /** It has no value only if no element starts there. */
  lemma {:induction false} IndexIs(es: seq<Elem>, k: nat)
    requires k <= |es|
    ensures IndexAt(es, |Encode(es[..k])|) == Some(k)
    decreases |es|
  {
    if k == 0 {
      assert es[..0] == [];
    } else {
      IndexIs(es[1..], k - 1);
      assert es[..k][1..] == es[1..][..k - 1];
    }
  }

  /** If SSID and rates do stand in front, that is so exactly if the third element has a body of one octet,
      as a DS parameter set has. */
  lemma UsualHead(es: seq<Elem>)
    requires |es| >= 2 && es[0].id == 0 && es[1].id == 1
    ensures IndexAt(es, TimOffset(es)) == if |es| >= 3 && |es[2].body| == 1 then Some(3) else None
  {
    var rest, more := es[1..], es[2..];
    assert First(es, Pattern(0, [])) == 0 && First(es, Pattern(1, [])) == 1;
    assert rest[1..] == more;
    assert IndexAt(more, 3) == if |more| >= 1 && |more[0].body| == 1 then Some(1) else None by { ThreeOctets(more); }
  }

  lemma ThreeOctets(es: seq<Elem>)
    ensures IndexAt(es, 3) == if |es| >= 1 && |es[0].body| == 1 then Some(1) else None
  {}

  /** The bytes in front of the TIM, and those behind it. */
  function Front(es: seq<Elem>): seq<Byte>
    requires HasTim(es) || TimOffset(es) <= |Encode(es)|
  {
    if HasTim(es) then Encode(es[..First(es, TIM)]) else Encode(es)[..TimOffset(es)]
  }

  function Back(es: seq<Elem>): seq<Byte>
    requires HasTim(es) || TimOffset(es) <= |Encode(es)|
  {
    if HasTim(es) then Encode(es[First(es, TIM) + 1..]) else Encode(es)[TimOffset(es)..]
  }

  /** The bytes that update_BCNTIM makes of a list. */
  function Updated(es: seq<Elem>, tim: Elem): seq<Byte>
    requires HasTim(es) || TimOffset(es) <= |Encode(es)|
  {
    Front(es) + Bytes(tim) + Back(es)
  }

  /** They are a list with the TIM in place of the old one, or inserted between two elements. */
  predicate Placed(es: seq<Elem>) { HasTim(es) || IndexAt(es, TimOffset(es)).Some? }

  function UpdateTim(es: seq<Elem>, tim: Elem): seq<Elem>
    requires Placed(es)
  {
    if HasTim(es) then Replace(es, First(es, TIM), tim) else Insert(es, IndexAt(es, TimOffset(es)).value, tim)
  }

  lemma OffsetInside(es: seq<Elem>)
    requires Placed(es)
    ensures HasTim(es) || TimOffset(es) <= |Encode(es)|
  {
    if !HasTim(es) { CutEncoding(es, IndexAt(es, TimOffset(es)).value); }
  }

  lemma CutEncoding(es: seq<Elem>, k: nat)
    requires k <= |es|
    ensures var n := |Encode(es[..k])|; n <= |Encode(es)| && Encode(es)[..n] == Encode(es[..k]) && Encode(es)[n..] == Encode(es[k..])
  {
    assert es == es[..k] + es[k..];
    EncodeConcat(es[..k], es[k..]);
  }

  lemma UpdatedList(es: seq<Elem>, tim: Elem)
    requires Placed(es)
    ensures HasTim(es) || TimOffset(es) <= |Encode(es)|
    ensures Updated(es, tim) == Encode(UpdateTim(es, tim)) && Decode(Updated(es, tim)) == Some(UpdateTim(es, tim))
  {
    OffsetInside(es);
    var k := if HasTim(es) then First(es, TIM) else IndexAt(es, TimOffset(es)).value;
    if !HasTim(es) { CutEncoding(es, k); }
    EncodeAround(es[..k], tim, if HasTim(es) then es[k + 1..] else es[k..]);
    DecodeEncode(UpdateTim(es, tim));
  }

  lemma EncodeAround(a: seq<Elem>, e: Elem, b: seq<Elem>)
    ensures Encode(a + [e] + b) == Encode(a) + Bytes(e) + Encode(b)
  {
    EncodeConcat(a, [e]);
    EncodeOne(e);
    EncodeConcat(a + [e], b);
  }

  /** What stands in front of the new TIM is complete elements exactly if it is placed. */
  lemma PlacedExactly(es: seq<Elem>)
    requires !HasTim(es) && TimOffset(es) <= |Encode(es)|
    ensures Decode(Front(es)).Some? <==> Placed(es)
  {
    PrefixDecodes(es, TimOffset(es));
  }

  lemma {:induction false} PrefixDecodes(es: seq<Elem>, off: nat)
    requires off <= |Encode(es)|
    ensures Decode(Encode(es)[..off]).Some? <==> IndexAt(es, off).Some?
    decreases |es|
  {
    var s := Encode(es)[..off];
    if off > 0 {
      EncodeHead(es);
      var n := 2 + |es[0].body|;
      if off >= n {
        assert HasHead(s) && Tail(s) == Encode(es[1..])[..off - n];
        PrefixDecodes(es[1..], off - n);
      } else {
        assert !HasHead(s);
      }
    }
  }

  /** The octets between the offset and the start of element `k`. */
  function Between(es: seq<Elem>, k: nat): seq<Byte>
    requires TimOffset(es) <= |Encode(es)| && k <= |es|
  {
    var off, at := TimOffset(es), |Encode(es[..k])|;
    CutEncoding(es, k);
    if at <= off then Encode(es)[at..off] else Encode(es)[off..at]
  }

  /** The result is the list with the TIM in front of element `k` exactly if the octets between there and the
      offset commute with those of the TIM; there are none if the offset is there. */
  lemma InsertedExactly(es: seq<Elem>, tim: Elem, k: nat)
    requires !HasTim(es) && TimOffset(es) <= |Encode(es)| && k <= |es|
    ensures Updated(es, tim) == Encode(Insert(es, k, tim))
       <==> Between(es, k) + Bytes(tim) == Bytes(tim) + Between(es, k)
  {
    var off, at := TimOffset(es), |Encode(es[..k])|;
    CutEncoding(es, k);
    EncodeAround(es[..k], tim, es[k..]);
    if at <= off { Commuting(Encode(es), at, off, Bytes(tim)); } else { Commuting(Encode(es), off, at, Bytes(tim)); }
  }

  lemma Commuting(e: seq<Byte>, i: nat, j: nat, t: seq<Byte>)
    requires i <= j <= |e|
    ensures e[..i] + t + e[i..] == e[..j] + t + e[j..] <==> e[i..j] + t == t + e[i..j]
  {
    var a, w, c := e[..i], e[i..j], e[j..];
    assert e[..j] == a + w && e[i..] == w + c;
    Assoc(a, w, t);
    Assoc(a + t, w, c);
    Assoc(a, t, w);
    SameMiddle(a, w + t, t + w, c);
  }

  lemma SameMiddle(a: seq<Byte>, x: seq<Byte>, y: seq<Byte>, c: seq<Byte>)
    requires |x| == |y|
    ensures a + x + c == a + y + c <==> x == y
  {
    var s, t := a + x + c, a + y + c;
    assert s[|a|..|a| + |x|] == x && t[|a|..|a| + |x|] == y;
  }

  lemma EncodeThree(es: seq<Elem>)
    requires |es| == 3
    ensures Encode(es) == Bytes(es[0]) + Bytes(es[1]) + Bytes(es[2])
  {
    assert es[1..][1..] == [es[2]];
    EncodeOne(es[2]);
    Assoc(Bytes(es[0]), Bytes(es[1]), Bytes(es[2]));
  }

  const NO_BITMAP: Elem := Element(5, [0, 1, 0, 0])
  const HEAD: seq<Elem> := [Element(0, [65]), Element(1, [12])]
  const FIVE_GHZ: seq<Elem> := HEAD + [Element(48, [1, 0])]
  const READ: seq<Elem> := HEAD + [Element(48, [1, 5])] + [Element(4, []), Element(1, []), Element(0, [])]

  /** A list without a DS parameter set: the TIM goes into the third element, and a reader finds none. */
  lemma TimLost()
    ensures !HasTim(FIVE_GHZ) && TimOffset(FIVE_GHZ) <= |Encode(FIVE_GHZ)| && !Placed(FIVE_GHZ)
    ensures Decode(Updated(FIVE_GHZ, NO_BITMAP)) == Some(READ) && First(READ, TIM) == |READ|
  {
    var head := Bytes(HEAD[0]) + Bytes(HEAD[1]);
    UsualHead(FIVE_GHZ);
    EncodeThree(FIVE_GHZ);
    var e, n := head + [48, 2, 1, 0], |head| + 3;
    assert Encode(FIVE_GHZ) == e && TimOffset(FIVE_GHZ) == n;
    assert e[..n] == head + [48, 2, 1] && e[n..] == [0];
    assert Front(FIVE_GHZ) == head + [48, 2, 1] && Back(FIVE_GHZ) == [0];
    assert Updated(FIVE_GHZ, NO_BITMAP) == head + [48, 2, 1, 5, 4, 0, 1, 0, 0, 0];
    EncodeRead(head);
    DecodeEncode(READ);
  }

  lemma EncodeRead(head: seq<Byte>)
    requires head == Bytes(HEAD[0]) + Bytes(HEAD[1])
    ensures Encode(READ) == head + [48, 2, 1, 5, 4, 0, 1, 0, 0, 0]
  {
    EncodeConcat(READ[..3], READ[3..]);
    EncodeThree(READ[..3]);
    EncodeThree(READ[3..]);
    assert READ == READ[..3] + READ[3..];
    assert Encode(READ[..3]) == head + [48, 2, 1, 5] && Encode(READ[3..]) == [4, 0, 1, 0, 0, 0];
  }

  // ---------------------------------------------------------------- one update after the other

  lemma FirstIs(es: seq<Elem>, p: Pattern, k: nat)
    requires k < |es| && Matches(es[k], p) && forall j :: 0 <= j < k ==> !Matches(es[j], p)
    ensures First(es, p) == k
  {}

  /** Where the TIM is put in a list of elements. */
  function TimIndex(es: seq<Elem>): (k: nat)
    requires Placed(es)
    ensures k <= |es| && (HasTim(es) ==> k < |es|)
  {
    if HasTim(es) then First(es, TIM) else IndexAt(es, TimOffset(es)).value
  }

  /** No empty TIM stands in front of where the new one is put. */
  predicate Visible(es: seq<Elem>) { Placed(es) && First(es, TIM) >= TimIndex(es) }

  /** Nothing but the TIM changes, and the search finds the new one exactly if it is visible. */
  lemma OthersUntouched(es: seq<Elem>, tim: Elem)
    requires Placed(es) && tim.id == 5
    ensures var r, k := UpdateTim(es, tim), TimIndex(es);
      && k < |r| && r[k] == tim && Delete(r, k) == (if HasTim(es) then Delete(es, k) else es)
      && (First(r, TIM) == k <==> Visible(es))
      && (!Visible(es) ==> First(r, TIM) == First(es, TIM) && r[First(r, TIM)].body == [])
  {
    var r, k, f := UpdateTim(es, tim), TimIndex(es), First(es, TIM);
    assert r[..k] == es[..k];
    assert r[k + 1..] == if HasTim(es) then es[k + 1..] else es[k..];
    if !HasTim(es) { assert es == es[..k] + es[k..]; }
    forall j | 0 <= j < k ensures r[j] == es[j] {}
    if f < k { FirstIs(r, TIM, f); } else { FirstIs(r, TIM, k); }
  }

  /** A TIM that is inserted leaves the offset as it was. */
  lemma SizesSurvive(es: seq<Elem>, k: nat, tim: Elem, id: Byte)
    requires k <= |es| && tim.id != id
    ensures FirstSize(Insert(es, k, tim), id) == FirstSize(es, id)
  {
    var r, p, f := Insert(es, k, tim), Pattern(id, []), First(es, Pattern(id, []));
    forall j | 0 <= j < |r| ensures r[j] == if j < k then es[j] else if j == k then tim else es[j - 1] {}
    if f < |es| {
      FirstIs(r, p, if f < k then f else f + 1);
    } else {
      assert forall j :: 0 <= j < |r| ==> !Matches(r[j], p);
    }
  }

  lemma PlacedAgain(es: seq<Elem>, tim: Elem)
    requires Placed(es) && tim.id == 5 && tim.body != []
    ensures var r := UpdateTim(es, tim);
      Placed(r) && TimIndex(r) == TimIndex(es) && (HasTim(r) <==> Visible(es)) && (Visible(r) <==> Visible(es))
  {
    var r, k := UpdateTim(es, tim), TimIndex(es);
    OthersUntouched(es, tim);
    if !Visible(es) {
      SizesSurvive(es, k, tim, 0);
      SizesSurvive(es, k, tim, 1);
      assert r[..k] == es[..k];
      IndexIs(r, k);
    }
  }

  /** A second update replaces the element of the first, so that repeating changes nothing, exactly if the
      first one is visible; otherwise it inserts another TIM. */
  lemma UpdateAgain(es: seq<Elem>, tim: Elem, tim': Elem)
    requires Placed(es) && tim.id == 5 && tim.body != []
    ensures var r := UpdateTim(es, tim);
      && Placed(r) && (UpdateTim(r, tim') == UpdateTim(es, tim') <==> Visible(es))
      && (!Visible(es) ==> UpdateTim(r, tim') == Insert(r, TimIndex(es), tim'))
  {
    var r, k := UpdateTim(es, tim), TimIndex(es);
    PlacedAgain(es, tim);
    OthersUntouched(es, tim);
    if Visible(es) {
      assert r[..k] == es[..k];
      assert r[k + 1..] == if HasTim(es) then es[k + 1..] else es[k..];
    } else {
      assert |UpdateTim(r, tim')| == |es| + 2;
    }
  }

  function UpdateAll(es: seq<Elem>, tims: seq<Elem>): seq<Elem>
    requires Placed(es) && forall t :: t in tims ==> t.id == 5 && t.body != []
    decreases |tims|
  {
    if tims == [] then es
    else
      PlacedAgain(es, tims[0]);
      UpdateAll(UpdateTim(es, tims[0]), tims[1..])
  }

  /** Over any run of updates the last bitmap alone counts if the TIM is visible; if not, every update adds
      an element. */
  lemma {:induction false} UpdatesAddUp(es: seq<Elem>, tims: seq<Elem>)
    requires Placed(es) && tims != [] && forall t :: t in tims ==> t.id == 5 && t.body != []
    ensures Visible(es) ==> UpdateAll(es, tims) == UpdateTim(es, tims[|tims| - 1])
    ensures !Visible(es) ==> |UpdateAll(es, tims)| == |es| + |tims|
    decreases |tims|
  {
    var r := UpdateTim(es, tims[0]);
    PlacedAgain(es, tims[0]);
    OthersUntouched(es, tims[0]);
    if |tims| > 1 {
      UpdatesAddUp(r, tims[1..]);
      UpdateAgain(es, tims[0], tims[|tims| - 1]);
    }
  }

  /** On the bytes, whatever the first update made of the list: if it is a list `es'`, the second update
      changes nothing exactly if the first TIM of that list is the new one. */
  lemma RepeatedExactly(es: seq<Elem>, tim: Elem, es': seq<Elem>)
    requires HasTim(es) || TimOffset(es) <= |Encode(es)|
    requires Decode(Updated(es, tim)) == Some(es') && (HasTim(es') || TimOffset(es') <= |Encode(es')|)
    ensures Updated(es', tim) == Updated(es, tim) <==> HasTim(es') && es'[First(es', TIM)] == tim
  {
    EncodeDecode(Updated(es, tim));
    if HasTim(es') {
      UpdatedList(es', tim);
      DecodeEncode(es');
      ReplacedBySame(es', First(es', TIM), tim);
    } else {
      assert |Updated(es', tim)| == |Encode(es')| + |Bytes(tim)|;
    }
  }

  lemma ReplacedBySame(es: seq<Elem>, k: nat, e: Elem)
    requires k < |es|
    ensures Replace(es, k, e) == es <==> es[k] == e
  {
    assert Replace(es, k, e)[k] == e;
    if es[k] == e { assert Replace(es, k, e) == es; }
  }

  const EMPTY_TIM: seq<Elem> := [Element(0, [65]), Element(5, []), Element(3, [1, 1]), Element(1, [12])]

  /** A list in which every update inserts another TIM. */
  lemma TimBehindEmpty()
    ensures Placed(EMPTY_TIM) && !Visible(EMPTY_TIM)
  {
    assert Encode(EMPTY_TIM[..3]) == [0, 1, 65, 5, 0, 3, 2, 1, 1] by {
      EncodeThree(EMPTY_TIM[..3]);
    }
    assert First(EMPTY_TIM, TIM) == 1 by { FirstIs(EMPTY_TIM, TIM, 1); }
    assert First(EMPTY_TIM, Pattern(0, [])) == 0;
    FirstIs(EMPTY_TIM, Pattern(1, []), 3);
    IndexIs(EMPTY_TIM, 3);
  }

  /** And a list, the one above, in which the second update puts another TIM into an element. */
  lemma TimLostAgain()
    ensures TimOffset(FIVE_GHZ) <= |Encode(FIVE_GHZ)| && Decode(Updated(FIVE_GHZ, NO_BITMAP)) == Some(READ)
    ensures !HasTim(READ) && TimOffset(READ) <= |Encode(READ)|
    ensures |Updated(READ, NO_BITMAP)| == |Updated(FIVE_GHZ, NO_BITMAP)| + 6
  {
    TimLost();
    EncodeDecode(Updated(FIVE_GHZ, NO_BITMAP));
    assert READ[0] == Element(0, [65]) && READ[1] == Element(1, [12]);
    FirstIs(READ, Pattern(0, []), 0);
    FirstIs(READ, Pattern(1, []), 1);
  }

  const ODD: seq<Elem> := HEAD + [Element(221, [7, 5, 4, 0, 1, 0, 0])]

  /** A TIM that is put inside an element, where the octets happen to be those of a TIM: the result is the
      list with the TIM behind that element. */
  lemma InsertedByChance()
    ensures !HasTim(ODD) && TimOffset(ODD) <= |Encode(ODD)| && !Placed(ODD)
    ensures Updated(ODD, NO_BITMAP) == Encode(Insert(ODD, 3, NO_BITMAP))
  {
    var head := Bytes(HEAD[0]) + Bytes(HEAD[1]);
    UsualHead(ODD);
    EncodeThree(ODD);
    assert ODD[..3] == ODD;
    assert Encode(ODD) == head + [221, 7, 7, 5, 4, 0, 1, 0, 0];
    assert TimOffset(ODD) == |head| + 3;
    assert Between(ODD, 3) == Bytes(NO_BITMAP);
    InsertedExactly(ODD, NO_BITMAP, 3);
  }

  // ---------------------------------------------------------------- rtw_add_bcn_ie and rtw_remove_bcn_ie

  /** The scan stops at the first element whose ID is not smaller. */
  function StopAt(es: seq<Elem>, id: Byte): (k: nat)
    ensures k <= |es|
    ensures k < |es| ==> es[k].id >= id
    ensures forall j :: 0 <= j < k ==> es[j].id < id
  {
    if es == [] || es[0].id >= id then 0 else 1 + StopAt(es[1..], id)
  }

  /** Replace the element at which the scan stops, or insert behind the one before it; neither is done
      if that element is empty or there is none. */
  function AddIe(es: seq<Elem>, e: Elem): seq<Elem> {
    var k := StopAt(es, e.id);
    if k < |es| && es[k].id == e.id then if es[k].body == [] then es else Replace(es, k, e)
    else if k > 0 && es[k - 1].body != [] then Insert(es, k, e)
    else es
  }

  function RemoveIe(es: seq<Elem>, id: Byte): seq<Elem> {
    var k := First(es, Pattern(id, []));
    if k < |es| && es[k].body != [] then Delete(es, k) else es
  }

  ghost predicate Sorted(es: seq<Elem>) { forall i, j :: 0 <= i <= j < |es| ==> es[i].id <= es[j].id }

  predicate Fresh(es: seq<Elem>, id: Byte) { First(es, Pattern(id, [])) == |es| }

  /** A new element is inserted exactly when its predecessor exists and is not empty. */
  predicate Insertable(es: seq<Elem>, id: Byte) {
    StopAt(es, id) > 0 && es[StopAt(es, id) - 1].body != []
  }

  lemma AddKeepsSorted(es: seq<Elem>, e: Elem)
    requires Sorted(es)
    ensures Sorted(AddIe(es, e))
  {
    var k, r := StopAt(es, e.id), AddIe(es, e);
    forall i, j | 0 <= i <= j < |r| ensures r[i].id <= r[j].id {
      if |r| == |es| + 1 {
        assert i < k ==> r[i] == es[i];
        assert i > k ==> r[i] == es[i - 1];
        assert j < k ==> r[j] == es[j];
        assert j > k ==> r[j] == es[j - 1];
        if j > k && i == k { assert es[k].id <= es[j - 1].id; }
      }
    }
  }

  lemma FreshStop(es: seq<Elem>, e: Elem)
    requires Fresh(es, e.id)
    ensures AddIe(es, e) == if Insertable(es, e.id) then Insert(es, StopAt(es, e.id), e) else es
  {
    var k := StopAt(es, e.id);
    if k < |es| { assert !Matches(es[k], Pattern(e.id, [])); }
  }

  /** The search finds a fresh element where it was inserted. */
  lemma FoundAgain(es: seq<Elem>, e: Elem, k: nat)
    requires Fresh(es, e.id) && k <= |es|
    ensures First(Insert(es, k, e), Pattern(e.id, [])) == k && Delete(Insert(es, k, e), k) == es
  {
    var r, p := Insert(es, k, e), Pattern(e.id, []);
    forall j | 0 <= j < k ensures !Matches(r[j], p) {
      assert r[j] == es[j];
    }
    FirstIs(r, p, k);
    assert r[..k] == es[..k] && r[k + 1..] == es[k..] && es == es[..k] + es[k..];
  }

  /** Removal undoes the addition of a fresh element exactly when the element is not empty or was not inserted. */
  lemma RemoveUndoesAdd(es: seq<Elem>, e: Elem)
    requires Fresh(es, e.id)
    ensures RemoveIe(AddIe(es, e), e.id) == es <==> e.body != [] || !Insertable(es, e.id)
  {
    FreshStop(es, e);
    if Insertable(es, e.id) {
      FoundAgain(es, e, StopAt(es, e.id));
      assert |AddIe(es, e)| == |es| + 1;
    }
  }

  /** An empty element behind an SSID stays when it is removed. */
  lemma EmptyStays()
    ensures var es: seq<Elem>, e := [Element(0, [65])], Element(7, []);
      Fresh(es, e.id) && RemoveIe(AddIe(es, e), e.id) == es + [e]
  {
    var es: seq<Elem>, e := [Element(0, [65])], Element(7, []);
    assert Fresh(es, 7) && Insertable(es, 7);
    FreshStop(es, e);
    FoundAgain(es, e, 1);
    assert Insert(es, 1, e) == es + [e];
  }

  /** Adding the same ID again replaces a non-empty element that was added. */
  lemma AddAgain(es: seq<Elem>, e: Elem, e': Elem)
    requires Fresh(es, e.id) && Insertable(es, e.id) && e.body != [] && e'.id == e.id
    ensures AddIe(AddIe(es, e), e') == AddIe(es, e')
  {
    FreshStop(es, e);
    FreshStop(es, e');
    var k, r := StopAt(es, e.id), AddIe(es, e);
    StopIs(r, e.id, k);
    assert r[..k] == es[..k] && r[k + 1..] == es[k..];
  }

  lemma {:induction false} StopIs(es: seq<Elem>, id: Byte, k: nat)
    requires k < |es| && es[k].id >= id && forall j :: 0 <= j < k ==> es[j].id < id
    ensures StopAt(es, id) == k
  {
    var s := StopAt(es, id);
    assert s <= k;
  }

  /** On a sorted list the scan finds what rtw_get_ie finds. */
  lemma ScanIsSearch(es: seq<Elem>, id: Byte)
    requires Sorted(es)
    ensures var k := StopAt(es, id);
      (k < |es| && es[k].id == id <==> !Fresh(es, id)) && (!Fresh(es, id) ==> First(es, Pattern(id, [])) == k)
  {
    var k, f := StopAt(es, id), First(es, Pattern(id, []));
    assert k < |es| && es[k].id == id ==> Matches(es[k], Pattern(id, []));
    if f < |es| { assert k <= f && es[k].id <= es[f].id; }
  }
}
