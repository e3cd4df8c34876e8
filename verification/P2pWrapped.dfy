/** What the deletion of an attribute makes of octets behind the attributes whose header makes the 16-bit
    step wrap (rtw_del_p2p_attr in core/rtw_ieee80211.c). */
module P2pWrapped {
  import opened Elements
  import opened Wrappers
  import opened P2pAttributes
  import opened P2pSearch

  function Behind(front: seq<Byte>, r: Option<seq<Byte>>): (o: Option<seq<Byte>>)
    ensures o.Some? <==> r.Some?
  {
    if r.None? then None else Some(front + r.value)
  }

  /** The size of the step at the head of the octets, if they reach as far. */
  function FirstStep(b: seq<Byte>): (n: Option<nat>)
    ensures n.Some? ==> 3 <= |b| && n.value <= |b|
  {
    if |b| < 3 || StepLen(b[1], b[2]) > |b| then None else Some(StepLen(b[1], b[2]))
  }

  /** What is left of octets: the attributes with the ID are gone, and behind them it depends on the tail. */
  function Deleted(b: seq<Byte>, id: Byte): Option<seq<Byte>>
    requires |b| < 256
    decreases |b|, 1
  {
    SplitSize(b);
    var (attrs, tail) := SplitAttrs(b);
    Behind(EncodeAttrs(OtherAttrs(attrs, id)), DeletedBehind(tail, id))
  }

  /** A tail that declares less than 65533 octets stays.  One that declares 65533 stays if it has the ID, and
      if not the deletion never ends.  One that declares one or two more loses as many octets if it has the
      ID.  If not, the deletion goes on behind them; only if it starts with the very next octet what follows
      moves up into the header, so that it has to be looked at again. */
  function DeletedBehind(tail: seq<Byte>, id: Byte): Option<seq<Byte>>
    requires |tail| < 256
    decreases |tail|, 0
  {
    if Wrapped(tail).None? then Some(tail)
    else
      var n := Wrapped(tail).value;
      if n == 0 then if tail[0] == id then Some(tail) else None
      else if tail[0] == id then Deleted(tail[n..], id)
      else if tail[n] != id then Behind(tail[..n], Deleted(tail[n..], id))
      else if FirstStep(tail[n..]).None? || FirstStep(tail[n..]).value == 0 then Some(tail)
      else Deleted(CutOut(tail, n, FirstStep(tail[n..]).value), id)
  }

  // ---------------------------------------------------------------- what is not cut stays in front

  /** Where a search that passes these attributes, the first of which is at `at`, goes on. */
  function EndOf(attrs: seq<P2pAttr>, at: nat): (end: nat)
    decreases attrs
  {
    if attrs == [] then at else EndOf(attrs[1..], at + 3 + |attrs[0].data|)
  }

  lemma {:induction false} EndIs(attrs: seq<P2pAttr>, at: nat)
    ensures EndOf(attrs, at) == at + |EncodeAttrs(attrs)|
    decreases |attrs|
  {
    if attrs != [] { EndIs(attrs[1..], at + 3 + |attrs[0].data|); }
  }

  lemma {:induction false} WalkPast(b: seq<Byte>, attrs: seq<P2pAttr>, x: seq<Byte>, id: Byte, at: nat)
    requires b == EncodeAttrs(attrs) + x && FirstAttr(attrs, id) == |attrs|
    ensures WalkOn(b, id, at) == WalkOn(x, id, EndOf(attrs, at))
    decreases |attrs|
  {
    if attrs == [] {
      assert b == x;
    } else {
      var rest := EncodeAttrs(attrs[1..]) + x;
      Assoc(AttrBytes(attrs[0]), EncodeAttrs(attrs[1..]), x);
      WalkHead(b, attrs[0], rest, id, at);
      WalkPast(rest, attrs[1..], x, id, at + 3 + |attrs[0].data|);
    }
  }

  lemma CutBehind(p: seq<Byte>, x: seq<Byte>, pos: nat, len: nat)
    requires pos + len <= |x|
    ensures CutOut(p + x, |p| + pos, len) == p + CutOut(x, pos, len)
  {}

  /** One round of the deletion, if the search passes what stands in front. */
  lemma OneRound(p: seq<Byte>, x: seq<Byte>, id: Byte, r: Search)
    requires r == WalkOn(x, id, 0) && WalkOn(p + x, id, 0) == WalkOn(x, id, |p|)
    ensures !(r.Found? && r.len > 0) ==> DelFound(p + x, id) == Behind(p, DelFound(x, id))
    ensures r.Found? && r.len > 0 ==>
      DelFound(p + x, id) == DelFound(p + CutOut(x, r.pos, r.len), id) && DelFound(x, id) == DelFound(CutOut(x, r.pos, r.len), id)
  {
    WalkFrom(x, id, |p|);
    if r.Found? { CutBehind(p, x, r.pos, r.len); }
  }

  /** Attributes without the ID stay, and nothing but what is behind them matters. */
  lemma {:induction false} PastAttrs(attrs: seq<P2pAttr>, x: seq<Byte>, id: Byte)
    requires FirstAttr(attrs, id) == |attrs|
    ensures DelFound(EncodeAttrs(attrs) + x, id) == Behind(EncodeAttrs(attrs), DelFound(x, id))
    decreases |x|
  {
    var p, r := EncodeAttrs(attrs), WalkOn(x, id, 0);
    WalkPast(p + x, attrs, x, id, 0);
    EndIs(attrs, 0);
    OneRound(p, x, id, r);
    if r.Found? && r.len > 0 { PastAttrs(attrs, CutOut(x, r.pos, r.len), id); }
  }

  /** So does a header at which the step wraps, if what is behind it does not start with the ID. */
  lemma {:induction false} PastHeader(tail: seq<Byte>, n: nat, p: seq<Byte>, x: seq<Byte>, id: Byte)
    requires |tail| < 256 && Wrapped(tail) == Some(n) && n > 0 && tail[0] != id && tail[n] != id
    requires p == tail[..n] && x == tail[n..]
    ensures DelFound(tail, id) == Behind(p, DelFound(x, id))
    decreases |tail|
  {
    var r := WalkOn(x, id, 0);
    assert tail == p + x && WalkOn(tail, id, 0) == WalkOn(x, id, n);
    OneRound(p, x, id, r);
    if r.Found? && r.len > 0 {
      var x' := CutOut(x, r.pos, r.len);
      NotAtOnce(tail, n, id);
      HeaderStays(tail, n, p, x, x', r.pos);
      PastHeader(p + x', n, p, x', id);
    }
  }

  lemma HeaderStays(tail: seq<Byte>, n: nat, p: seq<Byte>, x: seq<Byte>, x': seq<Byte>, pos: nat)
    requires Wrapped(tail) == Some(n) && n > 0 && p == tail[..n] && x == tail[n..]
    requires 3 - n <= pos <= |x| && pos <= |x'| && x'[..pos] == x[..pos]
    ensures var t := p + x';
      Wrapped(t) == Some(n) && t[0] == tail[0] && t[n] == tail[n] && t[..n] == p && t[n..] == x'
  {
    var t := p + x';
    assert forall i :: 0 <= i < 3 - n ==> x'[i] == x'[..pos][i] == x[..pos][i] == x[i];
    assert forall i :: 0 <= i < 3 ==> t[i] == tail[i];
  }

  /** What is found then leaves the header alone. */
  lemma NotAtOnce(tail: seq<Byte>, n: nat, id: Byte)
    requires |tail| < 256 && Wrapped(tail) == Some(n) && n > 0 && tail[n] != id
    requires WalkOn(tail[n..], id, 0).Found?
    ensures n + WalkOn(tail[n..], id, 0).pos >= 3
  {
    var rest := tail[n..];
    var step := StepLen(rest[1], rest[2]);
    assert WalkOn(rest, id, 0) == WalkOn(rest[step..], id, step);
  }

  // ---------------------------------------------------------------- the deletion

  lemma {:induction false} DeletionIs(b: seq<Byte>, id: Byte)
    requires |b| < 256
    ensures DelFound(b, id) == Deleted(b, id)
    decreases |b|, 1
  {
    var (attrs, tail) := SplitAttrs(b);
    SplitSize(b);
    OthersLackIt(attrs, id);
    DelFoundSplit(attrs, tail, id);
    PastAttrs(OtherAttrs(attrs, id), tail, id);
    DeletionBehind(tail, id);
  }

  lemma {:induction false} DeletionBehind(tail: seq<Byte>, id: Byte)
    requires |tail| < 256 && !HasAttr(tail)
    ensures DelFound(tail, id) == DeletedBehind(tail, id)
    decreases |tail|, 0
  {
    WalkTail(tail, id, 0);
    var w := Wrapped(tail);
    if w.Some? && w.value > 0 {
      var n := w.value;
      if tail[0] == id {
        assert CutOut(tail, 0, n) == tail[n..];
        DeletionIs(tail[n..], id);
      } else if tail[n] != id {
        PastHeader(tail, n, tail[..n], tail[n..], id);
        DeletionIs(tail[n..], id);
      } else {
        var step := FirstStep(tail[n..]);
        assert WalkOn(tail[n..], id, n) == if step.None? then NotFound else Found(n, step.value);
        if step.Some? && step.value > 0 { DeletionIs(CutOut(tail, n, step.value), id); }
      }
    }
  }

  /** On any P2P element: whether the deletion ends, and what is left of the element. */
  lemma DeletesExactly(e: Elem, id: Byte)
    requires Matches(e, P2P)
    ensures Deletable(e, id) <==> DeletedBehind(AttrsOf(e).1, id).Some?
    ensures Deletable(e, id) ==>
      DelAttr(e, id).body == P2P_OUI + (EncodeAttrs(OtherAttrs(AttrsOf(e).0, id)) + DeletedBehind(AttrsOf(e).1, id).value)
  {
    DeletionIs(e.body[4..], id);
  }
}
