/** In-place deletion of a P2P attribute from the elements of a BSS (core/rtw_ieee80211.c). */
module P2pDelete {
  import opened Elements
  import opened Buffers
  import opened P2pAttributes
  import opened P2pSearch

  /** rtw_get_p2p_attr on the octets `s` of an element; `pos` counts from the start of the element. */
  method GetP2pAttr(buf: array<Byte>, ie: nat, ielen: nat, id: Byte, ghost s: seq<Byte>)
    returns (found: bool, pos: nat, len: nat)
    requires ie + ielen <= buf.Length && buf[ie..ie + ielen] == s && FindAttr(s, id) != Spins
    ensures FindAttr(s, id) == if found then Found(pos, len) else NotFound
  {
    found, pos, len := false, 0, 0;
    if ielen <= 6 { return; }
    SubSlice(buf[..], ie, ielen, 2, 6);
    if buf[ie] != 221 || buf[ie + 2..ie + 6] != P2P_OUI { return; }
    var at := 6;
    while at + 3 <= ielen
      invariant WalkAttrs(s, at, id) == FindAttr(s, id)
      decreases ielen - at
    {
      assert buf[ie + at] == s[at] && buf[ie + at + 1] == s[at + 1] && buf[ie + at + 2] == s[at + 2];
      var attrLen := StepLen(buf[ie + at + 1], buf[ie + at + 2]);
      if at + attrLen > ielen { break; }
      if buf[ie + at] == id {
        found, pos, len := true, at, attrLen;
        return;
      }
      at := at + attrLen;
    }
  }

  lemma SubSlice(t: seq<Byte>, at: nat, n: nat, i: nat, j: nat)
    requires at + n <= |t| && i <= j <= n
    ensures t[at..at + n][i..j] == t[at + i..at + j]
  {
    var part, whole := t[at..at + n][i..j], t[at + i..at + j];
    assert forall x :: 0 <= x < j - i ==> part[x] == whole[x];
  }

  function Header(n: Byte): seq<Byte> { [221, n] + P2P_OUI }

  /** What is cut starts at `pos` behind the OUI; this is the element in front of it, but with `n` for the length. */
  function Before(e: Elem, pos: nat, n: Byte): (r: seq<Byte>)
    requires Matches(e, P2P) && pos <= |e.body| - 4
    ensures |r| == 6 + pos && r[1] == n
  {
    Header(n) + e.body[4..][..pos]
  }

  function Behind(e: Elem, pos: nat): seq<Byte>
    requires Matches(e, P2P) && pos <= |e.body| - 4
  {
    e.body[4..][pos..]
  }

  lemma CutParts(e: Elem, pos: nat, len: nat) returns (gap: seq<Byte>)
    requires Matches(e, P2P) && pos + len <= |e.body| - 4
    ensures |gap| == len && Bytes(e) == Before(e, pos, |e.body|) + gap + Behind(e, pos + len)
  {
    var b := e.body[4..];
    gap := b[pos..pos + len];
    assert e.body == P2P_OUI + b;
    assert b == b[..pos] + gap + b[pos + len..];
    Assoc([221, |e.body|], P2P_OUI, b);
    Assoc4(Header(|e.body|), b[..pos], gap, b[pos + len..]);
  }

  /** The element without `len` octets at `pos` behind the OUI. */
  function CutElement(e: Elem, pos: nat, len: nat): (r: Elem)
    requires Matches(e, P2P) && pos + len <= |e.body| - 4
    ensures Matches(r, P2P) && |r.body| + len == |e.body| && r.body[4..] == CutOut(e.body[4..], pos, len)
    ensures Bytes(r) == Before(e, pos, |r.body|) + Behind(e, pos + len)
  {
    var b := e.body[4..];
    var r := Element(221, P2P_OUI + CutOut(b, pos, len));
    Assoc([221, |r.body|], P2P_OUI, CutOut(b, pos, len));
    Assoc(Header(|r.body|), b[..pos], b[pos + len..]);
    r
  }

  /** Cutting what the search finds leaves the same to delete. */
  lemma CutOne(e: Elem, id: Byte, r: Search)
    requires Matches(e, P2P) && Deletable(e, id) && r == FindAttr(Bytes(e), id)
    ensures r != Spins
    ensures !(r.Found? && r.len > 0) ==> DelAttr(e, id) == e
    ensures r.Found? ==> r.pos >= 6 && r.pos - 6 + r.len <= |e.body| - 4
    ensures r.Found? && r.len > 0 ==> var e' := CutElement(e, r.pos - 6, r.len);
      Deletable(e', id) && DelAttr(e', id) == DelAttr(e, id)
  {
    FindIsWalk(e, id);
    WalkFrom(e.body[4..], id, 6);
    assert e.body == P2P_OUI + e.body[4..];
  }

  /** One round of rtw_del_p2p_attr: cut the `len` octets that were found at `pos`. */
  method CutAttr(buf: array<Byte>, ie: nat, ielen: nat, pos: nat, len: nat,
                 ghost pre: seq<Byte>, ghost e: Elem, ghost post: seq<Byte>)
    requires Matches(e, P2P) && 6 <= pos && pos - 6 + len <= |e.body| - 4
    requires buf[..] == pre + Bytes(e) + post && |pre| == ie && ielen == 2 + |e.body|
    modifies buf
    ensures buf[..] == pre + Bytes(CutElement(e, pos - 6, len)) + (Zeros(len) + post)
  {
    ghost var n: Byte := |e.body|;
    ghost var rest := Behind(e, pos - 6 + len);
    ghost var gap := CutParts(e, pos - 6, len);
    Regroup(pre, Before(e, pos - 6, n), gap, rest, post);
    MoveAndClear(buf, ie + pos, ie + pos + len, ielen - (pos + len), pre + Before(e, pos - 6, n), gap, rest, post);
    HeaderUpdate(buf[..], pre, e, pos - 6, len, Zeros(len), post);
    buf[ie + 1] := buf[ie + 1] - len;
  }

  lemma Regroup(pre: seq<Byte>, a: seq<Byte>, gap: seq<Byte>, rest: seq<Byte>, post: seq<Byte>)
    ensures pre + (a + gap + rest) + post == (pre + a) + gap + rest + post
  {
    Assoc(pre, a + gap, rest);
    Assoc(pre, a, gap);
  }

  /** Writing the new length byte makes the element behind `pre` the shorter one. */
  lemma HeaderUpdate(s: seq<Byte>, pre: seq<Byte>, e: Elem, pos: nat, len: nat, z: seq<Byte>, post: seq<Byte>)
    requires Matches(e, P2P) && pos + len <= |e.body| - 4
    requires s == (pre + Before(e, pos, |e.body|)) + Behind(e, pos + len) + z + post
    ensures |pre| + 1 < |s| && s[|pre| + 1] == |e.body|
    ensures s[|pre| + 1 := |e.body| - len] == pre + Bytes(CutElement(e, pos, len)) + (z + post)
  {
    var n', a, b := |e.body| - len, Before(e, pos, |e.body|), Behind(e, pos + len);
    assert a[1 := n'] == Before(e, pos, n');
    UpdateAt(pre, a, b + z + post, 1, n');
    Assoc(pre + a, b + z, post);
    Assoc(pre + a, b, z);
    Assoc(pre + a[1 := n'], b + z, post);
    Assoc(pre + a[1 := n'], b, z);
    Assoc(pre, a[1 := n'], b);
    Assoc(pre + (a[1 := n'] + b), z, post);
  }

  lemma UpdateAt(a: seq<Byte>, b: seq<Byte>, c: seq<Byte>, i: nat, x: Byte)
    requires i < |b|
    ensures (a + b + c)[|a| + i] == b[i] && (a + b + c)[|a| + i := x] == a + b[i := x] + c
  {}

  /** One round of rtw_del_p2p_attr: find the first match and cut it; `r` is what becomes of the element. */
  method DelRound(buf: array<Byte>, ie: nat, ielen: nat, id: Byte,
                  ghost pre: seq<Byte>, ghost e: Elem, ghost rest: seq<Byte>, ghost cleared: nat, ghost post: seq<Byte>)
    returns (found: bool, len: nat, ghost r: Elem, ghost rest': seq<Byte>)
    requires Matches(e, P2P) && Deletable(e, id) && rest == Zeros(cleared) + post
    requires buf[..] == pre + Bytes(e) + rest && |pre| == ie && ielen == 2 + |e.body|
    modifies buf
    ensures Matches(r, P2P) && Deletable(r, id) && DelAttr(r, id) == DelAttr(e, id)
    ensures !found ==> buf[..] == old(buf[..]) && r == e == DelAttr(e, id)
    ensures found ==>
      && len > 0 && |r.body| + len == |e.body|
      && buf[..] == pre + Bytes(r) + rest' && rest' == Zeros(cleared + len) + post
  {
    ElementAt(buf[..], pre, e, rest);
    CutOne(e, id, FindAttr(Bytes(e), id));
    r, rest' := e, rest;
    var pos;
    found, pos, len := GetP2pAttr(buf, ie, ielen, id, Bytes(e));
    found := found && len > 0;
    if found {
      CutAttr(buf, ie, ielen, pos, len, pre, e, rest);
      r := CutElement(e, pos - 6, len);
      rest' := MoreZeros(len, cleared, post);
    }
  }

  /** rtw_del_p2p_attr: what the element `e` at `ie` loses is left behind it as zeros. */
  method DelP2pAttr(buf: array<Byte>, ie: nat, ielenOri: nat, id: Byte,
                    ghost pre: seq<Byte>, ghost e: Elem, ghost post: seq<Byte>)
    returns (ielen: nat, ghost cleared: nat)
    requires buf[..] == pre + Bytes(e) + post && |pre| == ie && ielenOri == 2 + |e.body|
    requires Matches(e, P2P) && Deletable(e, id)
    modifies buf
    ensures ielen == 2 + |DelAttr(e, id).body| && ielen + cleared == ielenOri
    ensures buf[..] == pre + Bytes(DelAttr(e, id)) + (Zeros(cleared) + post)
  {
    ielen := ielenOri;
    ghost var cur, rest := e, post;
    cleared := 0;
    NoZeros(post);
    while true
      invariant Matches(cur, P2P) && Deletable(cur, id) && DelAttr(cur, id) == DelAttr(e, id)
      invariant ielen == 2 + |cur.body| && ielen + cleared == ielenOri
      invariant buf[..] == pre + Bytes(cur) + rest && rest == Zeros(cleared) + post
      decreases ielen
    {
      var found, len;
      ghost var r, rest';
      found, len, r, rest' := DelRound(buf, ie, ielen, id, pre, cur, rest, cleared, post);
      if !found { break; }
      cur, rest, cleared, ielen := r, rest', cleared + len, ielen - len;
    }
  }

  lemma NoZeros(post: seq<Byte>)
    ensures Zeros(0) + post == post
  {}

  lemma MoreZeros(m: nat, n: nat, post: seq<Byte>) returns (rest: seq<Byte>)
    ensures rest == Zeros(m) + (Zeros(n) + post) == Zeros(m + n) + post
  {
    Assoc(Zeros(m), Zeros(n), post);
    ZerosConcat(m, n);
    rest := Zeros(m + n) + post;
  }

  lemma ElementAt(s: seq<Byte>, pre: seq<Byte>, e: Elem, post: seq<Byte>)
    requires s == pre + Bytes(e) + post
    ensures |pre| + 2 + |e.body| <= |s| && s[|pre|..|pre| + 2 + |e.body|] == Bytes(e)
  {}
}
