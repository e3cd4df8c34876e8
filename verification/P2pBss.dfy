/** The P2P elements of a BSS: rtw_get_p2p_ie and rtw_bss_ex_del_p2p_attr (core/rtw_ieee80211.c). */
module P2pBss {
  import opened Bss
  import opened Elements
  import opened Buffers
  import opened InfoElements
  import opened P2pAttributes
  import opened P2pSearch
  import opened P2pDelete

  const MAX_IE_SZ: nat := 768

  /** A P2P element takes at least six octets, so there is none in a shorter rest. */
  lemma NoneInShort(es: seq<Elem>, i: nat)
    requires i <= First(es, P2P) && |Encode(es[..i])| + 5 >= |Encode(es)|
    ensures First(es, P2P) == |es|
  {
    var f := First(es, P2P);
    EncodeSplit(es, i);
    if f < |es| {
      EncodeAt(es, f);
      FurtherOut(es, i, f);
      SixOctets(es[f]);
    }
  }

  lemma SixOctets(e: Elem)
    requires Matches(e, P2P)
    ensures |Bytes(e)| >= 6
  {}

  /** rtw_get_p2p_ie: the first P2P element, if its header is not too far behind the start. */
  method GetP2pIe(buf: array<Byte>, start: nat, inLen: nat, ghost pre: seq<Byte>, ghost es: seq<Elem>, ghost post: seq<Byte>)
    returns (found: bool, pos: nat, ielen: nat, ghost k: nat)
    requires buf[..] == pre + Encode(es) + post && |pre| == start && |Encode(es)| == inLen && LongEnough(es, P2P)
    ensures var f := First(es, P2P); k == f && (found <==> f < |es| && |Encode(es[..f])| + 5 < MAX_IE_SZ)
    ensures found ==> var f := First(es, P2P); pos == start + |Encode(es[..f])| && ielen == 2 + |es[f].body|
  {
    found, pos, ielen := false, 0, 0;
    var cnt := 0;
    ghost var i, first := 0, First(es, P2P);
    k := first;
    PassedNone(buf[..], pre, es, post);
    while cnt + 1 + 4 < inLen
      invariant Passed(buf[..], pre, es, post, i, cnt) && i <= first
      decreases inLen - cnt
    {
      if cnt + 1 + 4 >= MAX_IE_SZ {
        FurtherOut(es, i, first);
        return;
      }
      PeekAt(buf[..], pre, es, post, i, cnt);
      LongAt(es, P2P, i);
      var same := Same(buf, start + cnt, P2P, es[i]);
      if same {
        found, pos, ielen := true, start + cnt, 2 + (buf[start + cnt + 1] as int);
        return;
      }
      cnt := cnt + 2 + (buf[start + cnt + 1] as int);
      i := i + 1;
    }
    NoneInShort(es, i);
  }

  lemma FurtherOut(es: seq<Elem>, i: nat, k: nat)
    requires i <= k <= |es|
    ensures |Encode(es[..i])| <= |Encode(es[..k])|
  {
    EncodeSplit(es[..k], i);
    assert es[..k][..i] == es[..i];
  }

  /** Every vendor element has an OUI, and the search in every P2P element comes to an end. */
  ghost predicate AllDeletable(es: seq<Elem>, id: Byte) {
    LongEnough(es, P2P) && forall e :: e in es ==> Deletable(e, id)
  }

  lemma DeletableRest(es: seq<Elem>, id: Byte, k: nat)
    requires AllDeletable(es, id) && k <= |es|
    ensures AllDeletable(es[k..], id)
  {
    forall e | e in es[k..] ensures e in es {}
  }

  /** rtw_bss_ex_del_p2p_attr: delete the attribute from every P2P element; the octets that are freed
      are zeros behind the list. */
  method DelP2pAttrs(bss: WlanBssidEx, id: Byte, ghost pre: seq<Byte>, ghost es: seq<Elem>, ghost post: seq<Byte>)
    returns (ghost cleared: nat)
    requires bss.IEs[..] == pre + Encode(es) + post && |pre| == bss.FixedIeOffset() && bss.IELength == |pre| + |Encode(es)|
    requires AllDeletable(es, id) && |Encode(es)| <= MAX_IE_SZ
    modifies bss`IELength, bss.IEs
    ensures bss.IEs[..] == pre + Encode(DelAttrs(es, id)) + Zeros(cleared) + post
    ensures bss.IELength == |pre| + |Encode(DelAttrs(es, id))| && bss.IELength + cleared == old(bss.IELength)
  {
    var ies, iesLen := bss.FixedIeOffset(), bss.IELength - bss.FixedIeOffset();
    ghost var done, rest: seq<Elem> := [], es;
    cleared := 0;
    RewritingStart(bss.IEs[..], pre, es, post);
    assert Zeros(0) == [];
    while true
      invariant Rewriting(bss.IEs[..], pre, done, rest, Zeros(cleared), post) && AllDeletable(rest, id)
      invariant ies == |pre| + |Encode(done)| && iesLen == |Encode(rest)| <= MAX_IE_SZ
      invariant bss.IELength == ies + iesLen && bss.IELength + cleared == old(bss.IELength)
      invariant done + DelAttrs(rest, id) == DelAttrs(es, id)
      decreases iesLen
    {
      ghost var k, cut;
      var found, next;
      found, next, k, cut := DelNext(bss, ies, iesLen, id, pre, done, rest, cleared, post);
      DelAttrsNext(rest, id);
      if !found { break; }
      NextRest(done, rest, id, k);
      cleared, done, rest := cleared + cut, done + (rest[..k] + [DelAttr(rest[k], id)]), rest[k + 1..];
      ies, iesLen := next, bss.IELength - next;
    }
    RewritingEnd(bss.IEs[..], pre, done, rest, Zeros(cleared), post);
    EncodeConcat(done, rest);
  }

  /** One round: the next P2P element loses the attribute, and what follows moves up. */
  method DelNext(bss: WlanBssidEx, ies: nat, iesLen: nat, id: Byte, ghost pre: seq<Byte>, ghost done: seq<Elem>,
                 ghost rest: seq<Elem>, ghost cleared: nat, ghost post: seq<Byte>)
    returns (found: bool, next: nat, ghost k: nat, ghost cut: nat)
    requires Rewriting(bss.IEs[..], pre, done, rest, Zeros(cleared), post) && AllDeletable(rest, id)
    requires ies == |pre| + |Encode(done)| && iesLen == |Encode(rest)| <= MAX_IE_SZ && bss.IELength == ies + iesLen
    modifies bss`IELength, bss.IEs
    ensures k == First(rest, P2P) && (found <==> k < |rest|)
    ensures !found ==> bss.IEs[..] == old(bss.IEs[..]) && bss.IELength == old(bss.IELength)
    ensures found ==> var done' := done + (rest[..k] + [DelAttr(rest[k], id)]);
      && Rewriting(bss.IEs[..], pre, done', rest[k + 1..], Zeros(cleared + cut), post)
      && next == |pre| + |Encode(done')| && bss.IELength == next + |Encode(rest[k + 1..])|
      && bss.IELength + cut == old(bss.IELength)
  {
    ghost var front, back := pre + Encode(done), Zeros(cleared) + post;
    var ie, ieLenOri;
    next, cut := ies, 0;
    found, ie, ieLenOri, k := GetP2pIe(bss.IEs, ies, iesLen, front, rest, back);
    InReach(rest, k);
    if found {
      ghost var f, tail := front + Encode(rest[..k]), Encode(rest[k + 1..]);
      Opened(bss.IEs[..], pre, done, rest, Zeros(cleared), post, k);
      assert rest[k] in rest;
      var ieLen;
      ieLen, cut := DelAndClose(bss.IEs, ie, ieLenOri, bss.IELength - (ie + ieLenOri), id, f, rest[k], tail, back);
      Replaced(bss.IEs[..], pre, done, rest[..k], DelAttr(rest[k], id), tail, Zeros(cut), Zeros(cleared), post);
      ZerosConcat(cut, cleared);
      bss.IELength := bss.IELength - (ieLenOri - ieLen);
      next := ie + ieLen;
    }
  }

  /** Delete the attribute from the element `e` at `ie` and close the gap in front of `tail`. */
  method DelAndClose(buf: array<Byte>, ie: nat, ieLenOri: nat, remainLen: nat, id: Byte,
                     ghost f: seq<Byte>, ghost e: Elem, ghost tail: seq<Byte>, ghost back: seq<Byte>)
    returns (ieLen: nat, ghost cut: nat)
    requires buf[..] == f + Bytes(e) + tail + back && |f| == ie && ieLenOri == 2 + |e.body| && remainLen == |tail|
    requires Matches(e, P2P) && Deletable(e, id)
    modifies buf
    ensures ieLen == 2 + |DelAttr(e, id).body| && ieLen + cut == ieLenOri
    ensures buf[..] == f + Bytes(DelAttr(e, id)) + tail + Zeros(cut) + back
  {
    ghost var e' := DelAttr(e, id);
    Assoc(f + Bytes(e), tail, back);
    ieLen, cut := DelP2pAttr(buf, ie, ieLenOri, id, f, e, tail + back);
    Around(f + Bytes(e'), Zeros(cut), tail, back);
    if ieLen != ieLenOri {
      MoveAndClear(buf, ie + ieLen, ie + ieLenOri, remainLen, f + Bytes(e'), Zeros(cut), tail, back);
    } else {
      assert Zeros(cut) == [];
    }
  }

  lemma Around(a: seq<Byte>, z: seq<Byte>, tail: seq<Byte>, back: seq<Byte>)
    ensures a + (z + (tail + back)) == a + z + tail + back
    ensures z == [] ==> a + z + tail + back == a + tail + z + back
  {
    Assoc(z, tail, back);
    Assoc4(a, z, tail, back);
  }

  lemma InReach(es: seq<Elem>, k: nat)
    requires k == First(es, P2P) && |Encode(es)| <= MAX_IE_SZ
    ensures k < |es| ==> |Encode(es[..k])| + 5 < MAX_IE_SZ
  {
    if k < |es| { EncodeAt(es, k); }
  }

  lemma NextRest(done: seq<Elem>, rest: seq<Elem>, id: Byte, k: nat)
    requires k == First(rest, P2P) < |rest| && AllDeletable(rest, id)
    ensures AllDeletable(rest[k + 1..], id) && |Encode(rest[k + 1..])| < |Encode(rest)|
    ensures done + DelAttrs(rest, id) == done + (rest[..k] + [DelAttr(rest[k], id)]) + DelAttrs(rest[k + 1..], id)
  {
    DelAttrsNext(rest, id);
    DeletableRest(rest, id, k + 1);
    EncodeAt(rest, k);
    Assoc(done, rest[..k] + [DelAttr(rest[k], id)], DelAttrs(rest[k + 1..], id));
  }
}
