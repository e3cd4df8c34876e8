/** rtw_get_p2p_attr and rtw_del_p2p_attr on the octets behind the OUI of a P2P element, whatever they
    are (core/rtw_ieee80211.c). */
module P2pSearch {
  import opened Elements
  import opened Wrappers
  import opened P2pAttributes
  import opened Sequences

  datatype Search = NotFound | Found(pos: nat, len: nat) | Spins

  /** The search steps by the declared length plus 3 in 16 bits. */
  function StepLen(lo: Byte, hi: Byte): nat {
    var n := Value16(hi, lo) + 3;
    if n >= 65536 then n - 65536 else n
  }

  function WalkAttrs(s: seq<Byte>, pos: nat, id: Byte): (r: Search)
    decreases |s| - pos
  {
    if pos + 3 > |s| || pos + StepLen(s[pos + 1], s[pos + 2]) > |s| then NotFound
    else if s[pos] == id then Found(pos, StepLen(s[pos + 1], s[pos + 2]))
    else if StepLen(s[pos + 1], s[pos + 2]) == 0 then Spins
    else WalkAttrs(s, pos + StepLen(s[pos + 1], s[pos + 2]), id)
  }

  function FindAttr(s: seq<Byte>, id: Byte): (r: Search) {
    if |s| <= 6 || s[0] != 221 || s[2..6] != P2P_OUI then NotFound else WalkAttrs(s, 6, id)
  }

  /** The same walk on what is left of the octets, which stand at `at`. */
  function WalkOn(b: seq<Byte>, id: Byte, at: nat): (r: Search)
    ensures r.Found? ==> at <= r.pos && r.pos + r.len <= at + |b|
    decreases |b|
  {
    if |b| < 3 || StepLen(b[1], b[2]) > |b| then NotFound
    else if b[0] == id then Found(at, StepLen(b[1], b[2]))
    else if StepLen(b[1], b[2]) == 0 then Spins
    else WalkOn(b[StepLen(b[1], b[2])..], id, at + StepLen(b[1], b[2]))
  }

  lemma {:induction false} WalkIsWalkOn(s: seq<Byte>, front: seq<Byte>, b: seq<Byte>, id: Byte)
    requires s == front + b
    ensures WalkAttrs(s, |front|, id) == WalkOn(b, id, |front|)
    decreases |b|
  {
    if |b| >= 3 {
      var at := |front|;
      assert s[at] == b[0] && s[at + 1] == b[1] && s[at + 2] == b[2];
      var n := StepLen(b[1], b[2]);
      if 0 < n <= |b| {
        assert s == (front + b[..n]) + b[n..];
        WalkIsWalkOn(s, front + b[..n], b[n..], id);
      }
    }
  }

  function Shifted(r: Search, d: nat): Search { if r.Found? then Found(r.pos + d, r.len) else r }

  lemma {:induction false} WalkFrom(b: seq<Byte>, id: Byte, at: nat)
    ensures WalkOn(b, id, at) == Shifted(WalkOn(b, id, 0), at)
    decreases |b|
  {
    if |b| >= 3 && 0 < StepLen(b[1], b[2]) <= |b| {
      var n := StepLen(b[1], b[2]);
      WalkFrom(b[n..], id, n);
      WalkFrom(b[n..], id, at + n);
    }
  }

  /** What the search returns behind the OUI of an element. */
  lemma FindIsWalk(e: Elem, id: Byte)
    requires Matches(e, P2P)
    ensures FindAttr(Bytes(e), id) == WalkOn(e.body[4..], id, 6)
  {
    var header, b := [221, |e.body|] + P2P_OUI, e.body[4..];
    assert e.body == P2P_OUI + b;
    Assoc([221, |e.body|], P2P_OUI, b);
    assert Bytes(e) == header + b && Bytes(e)[2..6] == P2P_OUI;
    WalkIsWalkOn(Bytes(e), header, b, id);
  }

  // ---------------------------------------------------------------- the search on attributes and a tail

  /** How far the step at the header of an incomplete attribute goes, if the 16-bit sum wraps there. */
  function Wrapped(tail: seq<Byte>): (n: Option<nat>)
    ensures n.Some? ==> n.value < 3 <= |tail|
  {
    if |tail| >= 3 && Declared(tail) >= 65533 then Some(Declared(tail) - 65533) else None
  }

  lemma WalkHead(b: seq<Byte>, a: P2pAttr, rest: seq<Byte>, id: Byte, at: nat)
    requires b == AttrBytes(a) + rest
    ensures WalkOn(b, id, at) == if a.id == id then Found(at, 3 + |a.data|) else WalkOn(rest, id, at + 3 + |a.data|)
  {
    HeadOf(a, rest);
  }

  /** The attribute `k` of a list whose first attribute is at `at`. */
  function FoundAt(attrs: seq<P2pAttr>, k: nat, at: nat): Search
    requires k < |attrs|
  {
    Found(at + |EncodeAttrs(attrs[..k])|, 3 + |attrs[k].data|)
  }

  lemma FoundAtCons(attrs: seq<P2pAttr>, k: nat, at: nat)
    requires k < |attrs|
    ensures FoundAt(attrs, k, at)
         == if k == 0 then Found(at, 3 + |attrs[0].data|) else FoundAt(attrs[1..], k - 1, at + 3 + |attrs[0].data|)
  {
    if k > 0 { EncodeAttrsFront(attrs, k); } else { assert attrs[..0] == []; }
  }

  lemma EncodeAttrsFront(attrs: seq<P2pAttr>, k: nat)
    requires 0 < k < |attrs|
    ensures EncodeAttrs(attrs[..k]) == AttrBytes(attrs[0]) + EncodeAttrs(attrs[1..][..k - 1])
  {
    assert attrs[..k][1..] == attrs[1..][..k - 1];
  }

  /** What the search makes of a tail that is no complete attribute. */
  function FindBehind(tail: seq<Byte>, id: Byte, at: nat): Search {
    if Wrapped(tail).None? then NotFound
    else if tail[0] == id then Found(at, Wrapped(tail).value)
    else if Wrapped(tail).value == 0 then Spins
    else WalkOn(tail[Wrapped(tail).value..], id, at + Wrapped(tail).value)
  }

  lemma WalkTail(tail: seq<Byte>, id: Byte, at: nat)
    requires !HasAttr(tail)
    ensures WalkOn(tail, id, at) == FindBehind(tail, id, at)
  {}

  /** What the search makes of attributes, the first of which is at `at`, and a tail. */
  function FindFrom(attrs: seq<P2pAttr>, tail: seq<Byte>, id: Byte, at: nat): Search
    decreases attrs
  {
    if attrs == [] then FindBehind(tail, id, at)
    else if attrs[0].id == id then Found(at, 3 + |attrs[0].data|)
    else FindFrom(attrs[1..], tail, id, at + 3 + |attrs[0].data|)
  }

  /** The search goes from attribute to attribute. */
  lemma {:induction false} WalkFinds(b: seq<Byte>, attrs: seq<P2pAttr>, tail: seq<Byte>, id: Byte, at: nat)
    requires b == EncodeAttrs(attrs) + tail && !HasAttr(tail)
    ensures WalkOn(b, id, at) == FindFrom(attrs, tail, id, at)
    decreases |attrs|
  {
    if attrs == [] {
      assert b == tail;
      WalkTail(tail, id, at);
    } else {
      var rest := EncodeAttrs(attrs[1..]) + tail;
      Assoc(AttrBytes(attrs[0]), EncodeAttrs(attrs[1..]), tail);
      WalkHead(b, attrs[0], rest, id, at);
      if attrs[0].id != id { WalkFinds(rest, attrs[1..], tail, id, at + 3 + |attrs[0].data|); }
    }
  }

  /** The first match, or else what the search makes of the tail. */
  function FindSplit(attrs: seq<P2pAttr>, tail: seq<Byte>, id: Byte, at: nat): Search {
    var k := FirstAttr(attrs, id);
    if k < |attrs| then FoundAt(attrs, k, at) else FindBehind(tail, id, at + |EncodeAttrs(attrs)|)
  }

  lemma {:induction false} FindsFirst(attrs: seq<P2pAttr>, tail: seq<Byte>, id: Byte, at: nat)
    ensures FindFrom(attrs, tail, id, at) == FindSplit(attrs, tail, id, at)
    decreases |attrs|
  {
    if attrs != [] {
      var k := FirstAttr(attrs, id);
      if attrs[0].id != id { FindsFirst(attrs[1..], tail, id, at + 3 + |attrs[0].data|); }
      if k < |attrs| { FoundAtCons(attrs, k, at); }
    }
  }

  /** What the search returns for a whole element: the first match.  Without one it is misled by a tail
      whose header makes the step wrap, and only then. */
  lemma FindInElement(e: Elem, id: Byte)
    requires Matches(e, P2P)
    ensures FindAttr(Bytes(e), id) == FindSplit(AttrsOf(e).0, AttrsOf(e).1, id, 6)
  {
    var (attrs, tail) := AttrsOf(e);
    FindIsWalk(e, id);
    BehindOui(e, attrs, tail);
    WalkFinds(e.body[4..], attrs, tail, id, 6);
    FindsFirst(attrs, tail, id, 6);
  }

  lemma BehindOui(e: Elem, attrs: seq<P2pAttr>, tail: seq<Byte>)
    requires Matches(e, P2P) && AttrsOf(e) == (attrs, tail)
    ensures e.body[4..] == EncodeAttrs(attrs) + tail
  {}

  /** The tail does not match, and declares 65533 octets, which makes the step 0, or one or two more, and
      the search never ends that many octets further on. */
  predicate SpinsBehind(tail: seq<Byte>, id: Byte)
    requires |tail| < 256
    decreases |tail|, 0
  {
    var n := Wrapped(tail);
    n.Some? && tail[0] != id && (n.value == 0 || Spinning(tail[n.value..], id))
  }

  /** No attribute matches, and the search never ends in what stands behind them. */
  predicate Spinning(b: seq<Byte>, id: Byte)
    requires |b| < 256
    decreases |b|, 1
  {
    SplitSize(b);
    var (attrs, tail) := SplitAttrs(b);
    FirstAttr(attrs, id) == |attrs| && SpinsBehind(tail, id)
  }

  lemma SplitSize(b: seq<Byte>)
    requires |b| < 256
    ensures |SplitAttrs(b).1| <= |b|
    ensures !HasAttr(b) ==> SplitAttrs(b) == ([], b)
  {
    var r := SplitAttrs(b);
    assert |EncodeAttrs(r.0) + r.1| == |b|;
  }

  lemma {:induction false} WalkSpins(b: seq<Byte>, id: Byte, at: nat)
    requires |b| < 256
    ensures WalkOn(b, id, at) == Spins <==> Spinning(b, id)
    decreases |b|, 1
  {
    var (attrs, tail) := SplitAttrs(b);
    SplitSize(b);
    WalkFinds(b, attrs, tail, id, at);
    FindsFirst(attrs, tail, id, at);
    BehindSpins(tail, id, at + |EncodeAttrs(attrs)|);
  }

  lemma {:induction false} BehindSpins(tail: seq<Byte>, id: Byte, at: nat)
    requires |tail| < 256
    ensures FindBehind(tail, id, at) == Spins <==> SpinsBehind(tail, id)
    decreases |tail|, 0
  {
    var n := Wrapped(tail);
    if n.Some? && n.value > 0 { WalkSpins(tail[n.value..], id, at + n.value); }
  }

  /** Exactly then the search in an element never ends. */
  lemma SpinsExactly(e: Elem, id: Byte)
    requires Matches(e, P2P)
    ensures FindAttr(Bytes(e), id) == Spins <==> Spinning(e.body[4..], id)
    ensures var (attrs, tail) := AttrsOf(e);
      (|tail| >= 3 ==> Declared(tail) <= 65533) ==>
        (FindAttr(Bytes(e), id) == Spins <==>
          FirstAttr(attrs, id) == |attrs| && |tail| >= 3 && Declared(tail) == 65533 && tail[0] != id)
  {
    FindIsWalk(e, id);
    WalkSpins(e.body[4..], id, 6);
  }

  const ENDLESS: Elem := Element(221, P2P_OUI + [1, 0xFD, 0xFF])
  const ENDLESS_LATER: Elem := Element(221, P2P_OUI + [1, 0xFF, 0xFF, 0xFD, 0xFF])

  /** Two elements of the kind. */
  lemma SearchesThatSpin()
    ensures FindAttr(Bytes(ENDLESS), 2) == Spins && FindAttr(Bytes(ENDLESS_LATER), 2) == Spins
  {
    StartsEndless([1, 0xFD, 0xFF], ENDLESS, 2);
    StartsEndless([1, 0xFF, 0xFF, 0xFD, 0xFF], ENDLESS_LATER, 2);
  }

  lemma StartsEndless(b: seq<Byte>, e: Elem, id: Byte)
    requires e == Element(221, P2P_OUI + b) && |b| < 252 && id > 1 && id != 255
    requires |b| >= 3 && b[0] == 1 && b[2] == 0xFF
    requires b[1] == 0xFD || (b[1] == 0xFF && |b| >= 5 && b[3] == 0xFD && b[4] == 0xFF)
    ensures FindAttr(Bytes(e), id) == Spins
  {
    var end := b[2..];
    assert e.body[4..] == b;
    SplitSize(b);
    if b[1] == 0xFF {
      SplitSize(end);
      assert SpinsBehind(end, id) && Spinning(end, id);
    }
    assert SpinsBehind(b, id);
    assert Spinning(b, id);
    SpinsExactly(e, id);
  }

  // ---------------------------------------------------------------- deletion

  /** The octets between two positions are cut out. */
  function CutOut(b: seq<Byte>, pos: nat, len: nat): (r: seq<Byte>)
    requires pos + len <= |b|
    ensures |r| + len == |b|
  {
    b[..pos] + b[pos + len..]
  }

  /** Cut what the search finds until it finds nothing, or nothing of any size; no value if a search
      never ends. */
  function DelFound(b: seq<Byte>, id: Byte): (r: Option<seq<Byte>>)
    ensures r.Some? ==> |r.value| <= |b|
    decreases |b|
  {
    match WalkOn(b, id, 0)
    case Spins => None
    case NotFound => Some(b)
    case Found(pos, len) => if len == 0 then Some(b) else DelFound(CutOut(b, pos, len), id)
  }

  /** On attributes and a tail the matching attributes go; only the tail can make it otherwise. */
  lemma {:induction false} DelFoundSplit(attrs: seq<P2pAttr>, tail: seq<Byte>, id: Byte)
    requires !HasAttr(tail)
    ensures DelFound(EncodeAttrs(attrs) + tail, id) == DelFound(EncodeAttrs(OtherAttrs(attrs, id)) + tail, id)
    decreases |attrs|
  {
    var k := FirstAttr(attrs, id);
    OthersAfterDrop(attrs, id);
    if k < |attrs| {
      var front, back := EncodeAttrs(attrs[..k]), EncodeAttrs(attrs[k + 1..]);
      WalkFinds(EncodeAttrs(attrs) + tail, attrs, tail, id, 0);
      FindsFirst(attrs, tail, id, 0);
      EncodeAttrAt(attrs, k);
      DropBytes(attrs, k);
      CutsMiddle(front, AttrBytes(attrs[k]), back, tail);
      DelFoundSplit(Delete(attrs, k), tail, id);
    }
  }

  lemma CutsMiddle(a: seq<Byte>, b: seq<Byte>, c: seq<Byte>, d: seq<Byte>)
    ensures CutOut(a + b + c + d, |a|, |b|) == a + c + d
  {}

  /** The deletion of an attribute from an element ends. */
  predicate Deletable(e: Elem, id: Byte) { Matches(e, P2P) ==> DelFound(e.body[4..], id).Some? }

  /** The element after the deletion; an element of another kind as it is. */
  function DelAttr(e: Elem, id: Byte): (r: Elem)
    ensures r.id == e.id && |r.body| <= |e.body|
  {
    if Matches(e, P2P) && Deletable(e, id) then Element(221, P2P_OUI + DelFound(e.body[4..], id).value) else e
  }

  /** The 16-bit sum of the step does not wrap at the header of the tail. */
  predicate Sound(tail: seq<Byte>) { Wrapped(tail).None? }

  /** The deletion ends with exactly the matching attributes gone if no step wraps at the tail.  If the
      tail declares 65533 octets it ends the same way if the tail has the ID, and never if it has not. */
  lemma DeletesMatches(e: Elem, id: Byte)
    requires Matches(e, P2P)
    requires var tail := AttrsOf(e).1; |tail| >= 3 ==> Declared(tail) <= 65533
    ensures var (attrs, tail) := AttrsOf(e);
      && (Deletable(e, id) <==> Sound(tail) || tail[0] == id)
      && Fits(OtherAttrs(attrs, id), tail)
      && (Deletable(e, id) ==> DelAttr(e, id) == P2pElement(OtherAttrs(attrs, id), tail))
  {
    var (attrs, tail) := AttrsOf(e);
    var others := OtherAttrs(attrs, id);
    OthersFit(attrs, id);
    OthersLackIt(attrs, id);
    BehindOui(e, attrs, tail);
    DelFoundSplit(attrs, tail, id);
    WalkFinds(EncodeAttrs(others) + tail, others, tail, id, 0);
    FindsFirst(others, tail, id, 0);
  }

  /** After a deletion that has ended, a search finds nothing that could be cut. */
  lemma {:induction false} NothingLeft(b: seq<Byte>, id: Byte, at: nat)
    requires DelFound(b, id).Some?
    ensures var r := WalkOn(DelFound(b, id).value, id, at); r == NotFound || (r.Found? && r.len == 0)
    decreases |b|
  {
    WalkFrom(b, id, at);
    match WalkOn(b, id, 0) {
      case Spins =>
      case NotFound =>
      case Found(pos, len) => if len > 0 { NothingLeft(CutOut(b, pos, len), id, at); }
    }
  }

  /** After the deletion the search finds nothing, and every other attribute is found as before. */
  lemma DeletedAndKept(e: Elem, id: Byte, other: Byte)
    requires Matches(e, P2P) && Sound(AttrsOf(e).1)
    ensures Deletable(e, id)
    ensures var r := DelAttr(e, id);
      && Matches(r, P2P) && AttrsOf(r) == (OtherAttrs(AttrsOf(e).0, id), AttrsOf(e).1)
      && FindAttr(Bytes(r), id) == NotFound
      && (other != id ==> Lookup(AttrsOf(r).0, other) == Lookup(AttrsOf(e).0, other))
  {
    var (attrs, tail) := AttrsOf(e);
    DeletesMatches(e, id);
    AttrsOfElement(OtherAttrs(attrs, id), tail);
    OthersLackIt(attrs, id);
    FindInElement(DelAttr(e, id), id);
    if other != id { OthersKeep(attrs, id, other); }
  }

  // ---------------------------------------------------------------- all elements

  function DelAttrs(es: seq<Elem>, id: Byte): seq<Elem> {
    if es == [] then [] else [DelAttr(es[0], id)] + DelAttrs(es[1..], id)
  }

  /** Number and order of the elements stay, and all but the P2P elements are unchanged. */
  lemma {:induction false} DelAttrsPointwise(es: seq<Elem>, id: Byte, i: nat)
    requires i < |es|
    ensures |DelAttrs(es, id)| == |es| && DelAttrs(es, id)[i] == DelAttr(es[i], id)
    ensures !Matches(es[i], P2P) ==> DelAttrs(es, id)[i] == es[i]
  {
    if |es| > 1 { DelAttrsPointwise(es[1..], id, if i == 0 then 0 else i - 1); }
  }

  lemma DelAttrsCons(es: seq<Elem>, id: Byte)
    requires es != []
    ensures DelAttrs(es, id) == [DelAttr(es[0], id)] + DelAttrs(es[1..], id)
    ensures !Matches(es[0], P2P) ==> DelAttr(es[0], id) == es[0] && First(es, P2P) == 1 + First(es[1..], P2P)
    ensures Matches(es[0], P2P) ==> First(es, P2P) == 0
  {}

  /** From one P2P element to the next. */
  lemma {:induction false} DelAttrsNext(es: seq<Elem>, id: Byte)
    ensures var k := First(es, P2P);
      DelAttrs(es, id) == if k == |es| then es else es[..k] + [DelAttr(es[k], id)] + DelAttrs(es[k + 1..], id)
  {
    if es != [] {
      DelAttrsCons(es, id);
      var rest, k := es[1..], First(es[1..], P2P);
      if Matches(es[0], P2P) {
        assert es[..0] == [];
      } else {
        DelAttrsNext(rest, id);
        if k < |rest| {
          ConsFront(es, k, [DelAttr(rest[k], id)], DelAttrs(rest[k + 1..], id));
          assert es[k + 1] == rest[k] && es[k + 2..] == rest[k + 1..];
        } else {
          assert [es[0]] + rest == es;
        }
      }
    }
  }
}
