/** P2P attributes: a byte for the ID, two for the length (low octet first), and the data, inside
    vendor elements that start with the Wi-Fi Alliance OUI and type 9 (core/rtw_ieee80211.c). */
module P2pAttributes {
  import opened Elements
  import opened Sequences
  import opened Wrappers

  const P2P_OUI: seq<Byte> := [0x50, 0x6F, 0x9A, 0x09]
  const P2P: Pattern := Pattern(221, P2P_OUI)

  datatype RawAttr = Attr(id: Byte, data: seq<Byte>)

  /** An attribute that an element has room for. */
  type P2pAttr = a: RawAttr | |a.data| < 256 witness Attr(0, [])

  function Declared(b: seq<Byte>): nat
    requires |b| >= 3
  {
    Value16(b[2], b[1])
  }

  /** A complete attribute stands at the head of the bytes. */
  predicate HasAttr(b: seq<Byte>) { |b| >= 3 && 3 + Declared(b) <= |b| }

  function AttrBytes(a: P2pAttr): (b: seq<Byte>)
    ensures HasAttr(b) && |b| == 3 + |a.data| && Declared(b) == |a.data|
  {
    [a.id, |a.data|, 0] + a.data
  }

  function EncodeAttrs(attrs: seq<P2pAttr>): seq<Byte>
  {
    if attrs == [] then [] else AttrBytes(attrs[0]) + EncodeAttrs(attrs[1..])
  }

  /** The complete attributes at the front of the bytes, and what is left behind them. */
  function SplitAttrs(b: seq<Byte>): (r: (seq<P2pAttr>, seq<Byte>))
    requires |b| < 256
    ensures !HasAttr(r.1)
    ensures EncodeAttrs(r.0) + r.1 == b
    decreases |b|
  {
    if !HasAttr(b) then ([], b)
    else
      var n := 3 + Declared(b);
      var (attrs, tail) := SplitAttrs(b[n..]);
      var a := Attr(b[0], b[3..n]);
      JoinHead(b, n, a, attrs, tail);
      ([a] + attrs, tail)
  }

  lemma JoinHead(b: seq<Byte>, n: nat, a: P2pAttr, attrs: seq<P2pAttr>, tail: seq<Byte>)
    requires 3 <= n <= |b| && n == 3 + |a.data| && a.id == b[0] && a.data == b[3..n]
    requires b[1] == |a.data| && b[2] == 0 && b[n..] == EncodeAttrs(attrs) + tail
    ensures EncodeAttrs([a] + attrs) + tail == b
  {
    assert AttrBytes(a) == b[..n];
    assert ([a] + attrs)[1..] == attrs;
    Assoc(AttrBytes(a), EncodeAttrs(attrs), tail);
  }

  /** Splitting takes exactly the attributes that were encoded. */
  lemma {:induction false} SplitEncode(attrs: seq<P2pAttr>, tail: seq<Byte>)
    requires !HasAttr(tail) && |EncodeAttrs(attrs)| + |tail| < 256
    ensures SplitAttrs(EncodeAttrs(attrs) + tail) == (attrs, tail)
  {
    if attrs == [] {
      assert EncodeAttrs(attrs) + tail == tail;
    } else {
      var a, rest := attrs[0], EncodeAttrs(attrs[1..]) + tail;
      var b := EncodeAttrs(attrs) + tail;
      Assoc(AttrBytes(a), EncodeAttrs(attrs[1..]), tail);
      SplitEncode(attrs[1..], tail);
      HeadOf(a, rest);
      assert b == AttrBytes(a) + rest && [a] + attrs[1..] == attrs;
    }
  }

  lemma HeadOf(a: P2pAttr, rest: seq<Byte>)
    ensures var b, n := AttrBytes(a) + rest, 3 + |a.data|;
      HasAttr(b) && Declared(b) == |a.data| && b[0] == a.id && b[3..n] == a.data && b[n..] == rest
  {
    var b, n := AttrBytes(a) + rest, 3 + |a.data|;
    assert b[..n] == AttrBytes(a);
    assert b[1] == AttrBytes(a)[1] && b[2] == AttrBytes(a)[2];
    assert b[3..n] == b[..n][3..];
  }

  // ---------------------------------------------------------------- lists of attributes

  function FirstAttr(attrs: seq<P2pAttr>, id: Byte): (k: nat)
    ensures k <= |attrs|
    ensures k < |attrs| ==> attrs[k].id == id
    ensures forall j :: 0 <= j < k ==> attrs[j].id != id
  {
    if attrs == [] || attrs[0].id == id then 0 else 1 + FirstAttr(attrs[1..], id)
  }

  function Lookup(attrs: seq<P2pAttr>, id: Byte): (r: Option<RawAttr>)
    ensures r == if FirstAttr(attrs, id) < |attrs| then Some(attrs[FirstAttr(attrs, id)]) else None
  {
    if attrs == [] then None else if attrs[0].id == id then Some(attrs[0]) else Lookup(attrs[1..], id)
  }

  function OtherAttrs(attrs: seq<P2pAttr>, id: Byte): (r: seq<P2pAttr>)
  {
    if attrs == [] then []
    else (if attrs[0].id == id then [] else [attrs[0]]) + OtherAttrs(attrs[1..], id)
  }

  lemma DropCons(attrs: seq<P2pAttr>, k: nat)
    requires k + 1 < |attrs|
    ensures Delete(attrs, k + 1) == [attrs[0]] + Delete(attrs[1..], k)
    ensures Delete(attrs, k + 1)[0] == attrs[0] && Delete(attrs, k + 1)[1..] == Delete(attrs[1..], k)
  {}

  lemma OthersCons(attrs: seq<P2pAttr>, id: Byte, rest: seq<P2pAttr>)
    requires attrs != [] && rest == attrs[1..]
    ensures OtherAttrs(attrs, id) == if attrs[0].id == id then OtherAttrs(rest, id) else [attrs[0]] + OtherAttrs(rest, id)
  {
    if attrs[0].id == id { assert [] + OtherAttrs(rest, id) == OtherAttrs(rest, id); }
  }

  /** Dropping the first match does not change what the others are. */
  lemma {:induction false} OthersAfterDrop(attrs: seq<P2pAttr>, id: Byte)
    ensures var k := FirstAttr(attrs, id);
      OtherAttrs(attrs, id) == if k == |attrs| then attrs else OtherAttrs(Delete(attrs, k), id)
  {
    if attrs != [] {
      var rest, k := attrs[1..], FirstAttr(attrs, id);
      OthersCons(attrs, id, rest);
      if k == 0 {
        assert Delete(attrs, 0) == rest;
      } else {
        OthersAfterDrop(rest, id);
        if k < |attrs| {
          DropCons(attrs, k - 1);
          OthersCons(Delete(attrs, k), id, Delete(rest, k - 1));
        } else {
          assert [attrs[0]] + rest == attrs;
        }
      }
    }
  }

  lemma {:induction false} EncodeAttrsConcat(a: seq<P2pAttr>, b: seq<P2pAttr>)
    ensures EncodeAttrs(a + b) == EncodeAttrs(a) + EncodeAttrs(b)
  {
    if a == [] {
      assert a + b == b;
    } else {
      EncodeAttrsConcat(a[1..], b);
      assert (a + b)[1..] == a[1..] + b && (a + b)[0] == a[0];
      Assoc(AttrBytes(a[0]), EncodeAttrs(a[1..]), EncodeAttrs(b));
    }
  }

  lemma EncodeAttrsOne(a: P2pAttr)
    ensures EncodeAttrs([a]) == AttrBytes(a)
  {}

  lemma DropBytes(attrs: seq<P2pAttr>, k: nat)
    requires k < |attrs|
    ensures EncodeAttrs(Delete(attrs, k)) == EncodeAttrs(attrs[..k]) + EncodeAttrs(attrs[k + 1..])
  {
    EncodeAttrsConcat(attrs[..k], attrs[k + 1..]);
  }

  /** Attribute `k` in the middle of the bytes. */
  lemma EncodeAttrAt(attrs: seq<P2pAttr>, k: nat)
    requires k < |attrs|
    ensures EncodeAttrs(attrs) == EncodeAttrs(attrs[..k]) + AttrBytes(attrs[k]) + EncodeAttrs(attrs[k + 1..])
  {
    var before, a, after := attrs[..k], attrs[k], attrs[k + 1..];
    SplitAt(attrs, k);
    EncodeAttrsConcat(before + [a], after);
    EncodeAttrsConcat(before, [a]);
    EncodeAttrsOne(a);
  }

  // ---------------------------------------------------------------- elements

  predicate Fits(attrs: seq<P2pAttr>, tail: seq<Byte>) {
    4 + |EncodeAttrs(attrs)| + |tail| < 256
  }

  /** The vendor element with these attributes, and a tail that is no complete attribute. */
  function P2pElement(attrs: seq<P2pAttr>, tail: seq<Byte>): (e: Elem)
    requires Fits(attrs, tail)
    ensures Matches(e, P2P)
  {
    Element(221, P2P_OUI + (EncodeAttrs(attrs) + tail))
  }

  function AttrsOf(e: Elem): (r: (seq<P2pAttr>, seq<Byte>))
    requires Matches(e, P2P)
    ensures Fits(r.0, r.1) && !HasAttr(r.1) && P2pElement(r.0, r.1) == e
  {
    var r := SplitAttrs(e.body[4..]);
    assert e.body == P2P_OUI + e.body[4..];
    r
  }

  lemma AttrsOfElement(attrs: seq<P2pAttr>, tail: seq<Byte>)
    requires Fits(attrs, tail) && !HasAttr(tail)
    ensures AttrsOf(P2pElement(attrs, tail)) == (attrs, tail)
  {
    assert P2pElement(attrs, tail).body[4..] == EncodeAttrs(attrs) + tail;
    SplitEncode(attrs, tail);
  }

  lemma {:induction false} OthersFit(attrs: seq<P2pAttr>, id: Byte)
    ensures |EncodeAttrs(OtherAttrs(attrs, id))| <= |EncodeAttrs(attrs)|
    ensures |EncodeAttrs(OtherAttrs(attrs, id))| == |EncodeAttrs(attrs)| <==> OtherAttrs(attrs, id) == attrs
  {
    if attrs == [] {
    } else {
      var others := OtherAttrs(attrs[1..], id);
      OthersFit(attrs[1..], id);
      if attrs[0].id == id {
        assert [] + others == others;
      } else {
        assert ([attrs[0]] + others)[1..] == others && [attrs[0]] + attrs[1..] == attrs;
      }
    }
  }

  lemma {:induction false} OthersLackIt(attrs: seq<P2pAttr>, id: Byte)
    ensures FirstAttr(OtherAttrs(attrs, id), id) == |OtherAttrs(attrs, id)|
  {
    if attrs != [] {
      OthersLackIt(attrs[1..], id);
      assert ([attrs[0]] + OtherAttrs(attrs[1..], id))[1..] == OtherAttrs(attrs[1..], id);
      assert [] + OtherAttrs(attrs[1..], id) == OtherAttrs(attrs[1..], id);
    }
  }

  lemma {:induction false} OthersKeep(attrs: seq<P2pAttr>, id: Byte, other: Byte)
    requires other != id
    ensures Lookup(OtherAttrs(attrs, id), other) == Lookup(attrs, other)
  {
    if attrs != [] {
      OthersKeep(attrs[1..], id, other);
      assert ([attrs[0]] + OtherAttrs(attrs[1..], id))[1..] == OtherAttrs(attrs[1..], id);
      assert [] + OtherAttrs(attrs[1..], id) == OtherAttrs(attrs[1..], id);
    }
  }
}
