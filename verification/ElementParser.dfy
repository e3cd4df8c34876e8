/** rtw_ieee802_11_parse_elems and rtw_set_ie (core/rtw_ieee80211.c). */
module ElementParser {
  import opened Buffers
  import opened Elements
  import opened InfoElements
  import opened Sequences
  import opened Wrappers

  /** The destinations of the parser: one per element ID, and five for vendor elements. */
  datatype Kind = Plain(id: Byte) | Wpa | Wme | WmeTspec | Wps | VendorHtCap

  datatype ParseRes = ParseOK | ParseUnknown | ParseFailed

  const OUI_MICROSOFT: nat := 0x0050F2
  const OUI_BROADCOM: nat := 0x00904C

  function BigEndian24(a: int, b: int, c: int): int { 65536 * a + 256 * b + c }

  function VendorKind(body: seq<Byte>): Option<Kind> {
    if |body| < 4 then None
    else
      var oui := BigEndian24(body[0], body[1], body[2]);
      if oui == OUI_MICROSOFT then
        if body[3] == 1 then Some(Wpa)
        else if body[3] == 2 then
          if |body| < 5 then None
          else if body[4] == 0 || body[4] == 1 then Some(Wme)
          else if body[4] == 2 then Some(WmeTspec)
          else None
        else if body[3] == 4 then Some(Wps)
        else None
      else if oui == OUI_BROADCOM && body[3] == 0x33 then Some(VendorHtCap)
      else None
  }

  predicate Known(id: Byte, mesh: bool) {
    || id in [0, 1, 2, 3, 4, 5, 6, 16, 33, 36, 42, 45, 48, 50, 54, 55, 56, 61, 70, 191, 192, 199]
    || (mesh && id in [126, 130, 131, 132])
  }

  /** The octets with which a vendor element starts: OUI, type, and for WME the subtype. */
  lemma VendorOctets(body: seq<Byte>)
    ensures VendorKind(body) == Some(Wpa) <==> [0x00, 0x50, 0xF2, 1] <= body
    ensures VendorKind(body) == Some(Wme) <==> [0x00, 0x50, 0xF2, 2, 0] <= body || [0x00, 0x50, 0xF2, 2, 1] <= body
    ensures VendorKind(body) == Some(WmeTspec) <==> [0x00, 0x50, 0xF2, 2, 2] <= body
    ensures VendorKind(body) == Some(Wps) <==> [0x00, 0x50, 0xF2, 4] <= body
    ensures VendorKind(body) == Some(VendorHtCap) <==> [0x00, 0x90, 0x4C, 0x33] <= body
  {
    if |body| >= 4 {
      var a, b, c := body[0], body[1], body[2];
      SameOui(a, b, c, 0x00, 0x50, 0xF2);
      SameOui(a, b, c, 0x00, 0x90, 0x4C);
      assert body[..4] == [a, b, c, body[3]];
      if |body| >= 5 { assert body[..5] == [a, b, c, body[3], body[4]]; }
    }
  }

  lemma SameOui(a: Byte, b: Byte, c: Byte, x: Byte, y: Byte, z: Byte)
    ensures BigEndian24(a, b, c) == BigEndian24(x, y, z) <==> a == x && b == y && c == z
  {
    if BigEndian24(a, b, c) == BigEndian24(x, y, z) {
      var hi, lo := a - x, (256 * y + z) - (256 * b + c);
      assert 65536 * hi == lo && -65536 < lo < 65536;
      assert hi == 0;
      assert 256 * (b - y) == z - c;
    }
  }

  /** The other elements that are known, by what they belong to. */
  lemma KnownElements(id: Byte, mesh: bool)
    ensures var basic, spectrum, security := id <= 6 || id == 16 || id == 42 || id == 50, id == 33 || id == 36, id == 48;
      var transition, measurement, ht, vht := 54 <= id <= 56, id == 70, id == 45 || id == 61, id == 191 || id == 192 || id == 199;
      var paths := id == 126 || 130 <= id <= 132;
      Known(id, mesh) <==>
        basic || spectrum || security || transition || measurement || ht || vht || (mesh && paths)
  {}

  /** What an element is recorded as; None for an unknown one. */
  function KindOf(e: Elem, mesh: bool): (k: Option<Kind>)
    ensures e.id != 221 ==> k == if Known(e.id, mesh) then Some(Plain(e.id)) else None
    ensures e.id == 221 ==> k.None? || !k.value.Plain?
  {
    if e.id == 221 then VendorKind(e.body)
    else if Known(e.id, mesh) then Some(Plain(e.id))
    else None
  }

  /** The complete elements at the front of the bytes, and what is left behind them. */
  function SplitElems(s: seq<Byte>): (r: (seq<Elem>, seq<Byte>))
    ensures !HasHead(r.1)
    ensures s == Encode(r.0) + r.1
    decreases |s|
  {
    if !HasHead(s) then ([], s)
    else
      var (es, tail) := SplitElems(Tail(s));
      HeadTail(s);
      assert ([Head(s)] + es)[1..] == es;
      Assoc(Bytes(Head(s)), Encode(es), tail);
      ([Head(s)] + es, tail)
  }

  /** Nothing is left behind exactly when the bytes are a concatenation of complete elements. */
  lemma {:induction false} SplitDecode(s: seq<Byte>)
    ensures Decode(s).Some? <==> SplitElems(s).1 == []
    ensures Decode(s).Some? ==> Decode(s).value == SplitElems(s).0
    decreases |s|
  {
    if HasHead(s) { SplitDecode(Tail(s)); }
  }

  type Classifier = Elem -> Option<Kind>

  function Kinds(mesh: bool): Classifier { (e: Elem) => KindOf(e, mesh) }

  /** What has been recorded after these elements: a later element of a kind replaces an earlier one. */
  function Recorded(es: seq<Elem>, kind: Classifier): map<Kind, Slice> {
    if es == [] then map[]
    else
      var n := |es| - 1;
      var before := Recorded(es[..n], kind);
      if kind(es[n]).None? then before
      else before[kind(es[n]).value := Slice(|Encode(es[..n])| + 2, |es[n].body|)]
  }

  predicate AllKnown(es: seq<Elem>, kind: Classifier) {
    es == [] || (AllKnown(es[..|es| - 1], kind) && kind(es[|es| - 1]).Some?)
  }

  /** The index of the last element of a kind, or the length of the list. */
  function LastOf(es: seq<Elem>, k: Kind, kind: Classifier): (j: nat)
    ensures j <= |es|
    ensures j < |es| ==> kind(es[j]) == Some(k)
  {
    if es == [] then 0
    else if kind(es[|es| - 1]) == Some(k) then |es| - 1
    else
      var j := LastOf(es[..|es| - 1], k, kind);
      if j == |es| - 1 then |es| else j
  }

  lemma {:induction false} LastIsLast(es: seq<Elem>, k: Kind, kind: Classifier, i: nat)
    requires i < |es| && (LastOf(es, k, kind) < i || LastOf(es, k, kind) == |es|)
    ensures kind(es[i]) != Some(k)
    decreases |es|
  {
    if i < |es| - 1 { LastIsLast(es[..|es| - 1], k, kind, i); }
  }

  /** A kind is recorded exactly when an element has it, and then as the body of the last such element. */
  lemma {:induction false} RecordedIsLast(es: seq<Elem>, k: Kind, kind: Classifier)
    ensures var j := LastOf(es, k, kind);
      && (k in Recorded(es, kind) <==> j < |es|)
      && (j < |es| ==> Recorded(es, kind)[k] == Slice(|Encode(es[..j])| + 2, |es[j].body|))
    decreases |es|
  {
    if es != [] {
      var n := |es| - 1;
      RecordedIsLast(es[..n], k, kind);
      var j := LastOf(es[..n], k, kind);
      if j < n { assert es[..n][..j] == es[..j]; }
    }
  }

  /** Every recorded slice lies inside the input and holds the body. */
  lemma SliceInside(es: seq<Elem>, tail: seq<Byte>, k: Kind, kind: Classifier)
    requires k in Recorded(es, kind)
    ensures var s, r, j := Encode(es) + tail, Recorded(es, kind)[k], LastOf(es, k, kind);
      r.pos + r.len <= |s| && j < |es| && s[r.pos..r.pos + r.len] == es[j].body
  {
    RecordedIsLast(es, k, kind);
    var j := LastOf(es, k, kind);
    EncodeAt(es, j);
    Assoc(Encode(es[..j]) + Bytes(es[j]), Encode(es[j + 1..]), tail);
    PeekBytes(Encode(es) + tail, Encode(es[..j]), es[j], Encode(es[j + 1..]) + tail);
  }

  ghost predicate DistinctIds(es: seq<Elem>) {
    forall i, j :: 0 <= i < j < |es| ==> es[i].id != es[j].id
  }

  /** An ID other than the vendor ID with a destination of its own. */
  predicate Recordable(id: Byte, mesh: bool) { id != 221 && Known(id, mesh) }

  lemma PlainKind(e: Elem, id: Byte, mesh: bool)
    requires Recordable(id, mesh)
    ensures Kinds(mesh)(e) == Some(Plain(id)) <==> e.id == id
  {}

  /** Without duplicate IDs the first element with an ID is the last one of its kind. */
  lemma FirstIsLast(es: seq<Elem>, id: Byte, mesh: bool)
    requires DistinctIds(es) && Recordable(id, mesh)
    ensures First(es, Pattern(id, [])) == LastOf(es, Plain(id), Kinds(mesh))
  {
    var kind, first := Kinds(mesh), First(es, Pattern(id, []));
    var last := LastOf(es, Plain(id), kind);
    if last < |es| {
      PlainKind(es[last], id, mesh);
      assert Matches(es[last], Pattern(id, []));
    } else if first < |es| {
      LastIsLast(es, Plain(id), kind, first);
      PlainKind(es[first], id, mesh);
    }
  }

  /** On a list without duplicate IDs the parser and rtw_get_ie find the same body. */
  lemma AgreesWithGetIe(es: seq<Elem>, id: Byte, mesh: bool)
    requires DistinctIds(es) && Recordable(id, mesh)
    ensures var first, r := First(es, Pattern(id, [])), Recorded(es, Kinds(mesh));
      && (Plain(id) in r <==> first < |es|)
      && (first < |es| ==> r[Plain(id)] == Slice(|Encode(es[..first])| + 2, |es[first].body|))
  {
    FirstIsLast(es, id, mesh);
    RecordedIsLast(es, Plain(id), Kinds(mesh));
  }

  lemma OnlyOne(es: seq<Elem>, i: nat)
    requires DistinctIds(es) && i < |es|
    ensures First(es, Pattern(es[i].id, [])) == i
  {
    var f := First(es, Pattern(es[i].id, []));
    assert Matches(es[i], Pattern(es[i].id, []));
    assert f <= i && es[f].id == es[i].id;
  }

  /** What rtw_set_ie wrote is what the parser records: each body, for distinct and known IDs. */
  lemma ParseInvertsSet(es: seq<Elem>, i: nat, mesh: bool)
    requires DistinctIds(es) && i < |es| && Recordable(es[i].id, mesh)
    ensures var k, r := Plain(es[i].id), Recorded(es, Kinds(mesh));
      && k in r && r[k].pos + r[k].len <= |Encode(es)|
      && Encode(es)[r[k].pos..r[k].pos + r[k].len] == es[i].body
  {
    var id, kind := es[i].id, Kinds(mesh);
    AgreesWithGetIe(es, id, mesh);
    FirstIsLast(es, id, mesh);
    OnlyOne(es, i);
    SliceInside(es, [], Plain(id), kind);
    NothingBehind(Encode(es));
  }

  lemma NothingBehind(s: seq<Byte>)
    ensures s + [] == s
  {}

  /** rtw_ieee802_11_parse_vendor_specific */
  method ParseVendorSpecific(buf: array<Byte>, pos: nat, elen: nat, elems: map<Kind, Slice>, at: nat, ghost body: seq<Byte>)
    returns (ok: bool, elems': map<Kind, Slice>)
    requires pos + elen <= buf.Length && elen == |body| && forall i :: 0 <= i < elen ==> buf[pos + i] == body[i]
    ensures ok <==> VendorKind(body).Some?
    ensures elems' == if ok then elems[VendorKind(body).value := Slice(at, elen)] else elems
  {
    ok, elems' := false, elems;
    if elen < 4 { return; }
    var oui := BigEndian24(buf[pos], buf[pos + 1], buf[pos + 2]);
    if oui == OUI_MICROSOFT {
      if buf[pos + 3] == 1 {
        ok, elems' := true, elems[Wpa := Slice(at, elen)];
      } else if buf[pos + 3] == 2 {
        if elen < 5 { return; }
        if buf[pos + 4] == 0 || buf[pos + 4] == 1 {
          ok, elems' := true, elems[Wme := Slice(at, elen)];
        } else if buf[pos + 4] == 2 {
          ok, elems' := true, elems[WmeTspec := Slice(at, elen)];
        }
      } else if buf[pos + 3] == 4 {
        ok, elems' := true, elems[Wps := Slice(at, elen)];
      }
    } else if oui == OUI_BROADCOM {
      if buf[pos + 3] == 0x33 {
        ok, elems' := true, elems[VendorHtCap := Slice(at, elen)];
      }
    }
  }

  /** The switch on the ID, with its effect on what the elements before element `k` have left. */
  method Record(buf: array<Byte>, pos: nat, elen: nat, id: Byte, mesh: bool, elems: map<Kind, Slice>, at: nat,
                ghost es: seq<Elem>, ghost k: nat)
    returns (ok: bool, elems': map<Kind, Slice>)
    requires k < |es| && pos + elen <= buf.Length && id == es[k].id && buf[..][pos..pos + elen] == es[k].body
    requires elems == Recorded(es[..k], Kinds(mesh)) && at == |Encode(es[..k])| + 2
    ensures elems' == Recorded(es[..k + 1], Kinds(mesh))
    ensures AllKnown(es[..k + 1], Kinds(mesh)) <==> AllKnown(es[..k], Kinds(mesh)) && ok
  {
    ghost var e := es[k];
    RecordedNext(es, k, Kinds(mesh));
    if id == 221 {
      ghost var body := buf[..][pos..pos + elen];
      assert forall i :: 0 <= i < elen ==> buf[pos + i] == body[i];
      ok, elems' := ParseVendorSpecific(buf, pos, elen, elems, at, e.body);
    } else if Known(id, mesh) {
      ok, elems' := true, elems[Plain(id) := Slice(at, elen)];
    } else {
      ok, elems' := false, elems;
    }
  }

  lemma RecordedNext(es: seq<Elem>, k: nat, kind: Classifier)
    requires k < |es|
    ensures Recorded(es[..k + 1], kind)
         == (if kind(es[k]).None? then Recorded(es[..k], kind)
             else Recorded(es[..k], kind)[kind(es[k]).value := Slice(|Encode(es[..k])| + 2, |es[k].body|)])
    ensures AllKnown(es[..k + 1], kind) <==> AllKnown(es[..k], kind) && kind(es[k]).Some?
  {
    assert es[..k + 1][..k] == es[..k];
  }

  lemma Around(t: seq<Byte>, start: nat, len: nat, es: seq<Elem>, tail: seq<Byte>)
    requires start + len <= |t| && t[start..start + len] == Encode(es) + tail
    ensures Passed(t, t[..start], es, tail + t[start + len..], 0, 0) && es[..0] == []
  {
    assert t == t[..start] + t[start..start + len] + t[start + len..];
    Assoc(t[..start], Encode(es), tail);
    Assoc(t[..start] + Encode(es), tail, t[start + len..]);
    PassedNone(t, t[..start], es, tail + t[start + len..]);
  }

  /** A header that is followed by enough octets belongs to the next element, and any other to the tail. */
  lemma Look(s: seq<Byte>, pre: seq<Byte>, es: seq<Elem>, tail: seq<Byte>, post: seq<Byte>, k: nat, cnt: nat,
             at: nat, left: nat)
    requires Passed(s, pre, es, tail + post, k, cnt) && !HasHead(tail) && at == |pre| + cnt
    requires cnt + left == |Encode(es)| + |tail| && left >= 2
    ensures at + left <= |s|
    ensures s[at + 1] > left - 2 <==> k == |es|
    ensures k < |es| ==> var n := |es[k].body|;
      && s[at] == es[k].id && s[at + 1] == n && n + 2 <= left && s[at + 2..at + 2 + n] == es[k].body
      && Passed(s, pre, es, tail + post, k + 1, cnt + 2 + n)
  {
    EncodeSplit(es, k);
    if cnt < |Encode(es)| {
      PeekAt(s, pre, es, tail + post, k, cnt);
    } else {
      PassedAll(es, k);
      assert es[..k] == es && es[k..] == [] && (pre + Encode(es)) + [] == pre + Encode(es);
      TailAt(pre + Encode(es), tail, post);
    }
  }

  lemma TailAt(front: seq<Byte>, tail: seq<Byte>, post: seq<Byte>)
    requires |tail| >= 2
    ensures (front + (tail + post))[|front| + 1] == tail[1]
  {}

  /** With less than a header left, all elements have been passed. */
  lemma NothingLeft(s: seq<Byte>, pre: seq<Byte>, es: seq<Elem>, tail: seq<Byte>, post: seq<Byte>, k: nat, cnt: nat, left: nat)
    requires Passed(s, pre, es, tail + post, k, cnt) && cnt + left == |Encode(es)| + |tail| && left < 2
    ensures k == |es| && left == |tail|
  {
    EncodeSplit(es, k);
    if k < |es| { Suffix(es, k); }
  }

  /** rtw_ieee802_11_parse_elems */
  method ParseElems(buf: array<Byte>, start: nat, len: nat, mesh: bool, ghost s: seq<Byte>)
    returns (res: ParseRes, elems: map<Kind, Slice>)
    requires start + len <= buf.Length && buf[start..start + len] == s
    ensures res == ParseFailed <==> Decode(s).None?
    ensures elems == Recorded(SplitElems(s).0, Kinds(mesh))
    ensures Decode(s).Some? ==>
      && elems == Recorded(Decode(s).value, Kinds(mesh))
      && (res == ParseOK <==> AllKnown(Decode(s).value, Kinds(mesh)))
  {
    ghost var (es, tail) := SplitElems(s);
    SplitDecode(s);
    Around(buf[..], start, len, es, tail);
    res, elems := ParseFrom(buf, start, len, mesh, buf[..start], es, tail, buf[start + len..]);
  }

  /** Its loop, on elements that are followed by an incomplete one or by nothing. */
  method ParseFrom(buf: array<Byte>, start: nat, len: nat, mesh: bool,
                   ghost pre: seq<Byte>, ghost es: seq<Elem>, ghost tail: seq<Byte>, ghost post: seq<Byte>)
    returns (res: ParseRes, elems: map<Kind, Slice>)
    requires Passed(buf[..], pre, es, tail + post, 0, 0) && !HasHead(tail) && es[..0] == []
    requires |pre| == start && |Encode(es)| + |tail| == len
    ensures elems == Recorded(es, Kinds(mesh))
    ensures res == ParseFailed <==> tail != []
    ensures res == ParseOK <==> tail == [] && AllKnown(es, Kinds(mesh))
  {
    var left, pos, unknown := len, start, 0;
    ghost var k, kind := 0, Kinds(mesh);
    elems := map[];
    while left >= 2
      invariant start <= pos && pos + left == start + len && Passed(buf[..], pre, es, tail + post, k, pos - start)
      invariant elems == Recorded(es[..k], kind) && (unknown == 0 <==> AllKnown(es[..k], kind))
      decreases left
    {
      Look(buf[..], pre, es, tail, post, k, pos - start, pos, left);
      var id, elen: nat := buf[pos], buf[pos + 1];
      pos, left := pos + 2, left - 2;
      if elen > left {
        WholeList(es, k);
        return ParseFailed, elems;
      }
      var ok;
      ok, elems := Record(buf, pos, elen, id, mesh, elems, pos - start, es, k);
      if !ok { unknown := unknown + 1; }
      pos, left, k := pos + elen, left - elen, k + 1;
    }
    NothingLeft(buf[..], pre, es, tail, post, k, pos - start, left);
    WholeList(es, k);
    res := if left > 0 then ParseFailed else if unknown > 0 then ParseUnknown else ParseOK;
  }

  lemma WholeList(es: seq<Elem>, k: nat)
    requires k == |es|
    ensures es[..k] == es
  {}

  /** rtw_set_ie: the ID and the length are cut to 8 bits, the body is not. */
  method SetIe(buf: array<Byte>, pos: nat, index: nat, source: seq<Byte>, frlen: nat,
               ghost front: seq<Byte>, ghost gone: seq<Byte>, ghost rest: seq<Byte>)
    returns (next: nat, frlen': nat)
    requires buf[..] == front + gone + rest && |front| == pos && |gone| == 2 + |source|
    modifies buf
    ensures buf[..] == front + ([index % 256, |source| % 256] + source) + rest
    ensures next == pos + 2 + |source| && frlen' == frlen + 2 + |source|
  {
    MemCpy(buf, pos, [index % 256, |source| % 256] + source, front, gone, rest);
    next, frlen' := pos + |source| + 2, frlen + (|source| + 2);
  }

  /** What rtw_set_ie writes is an element, the one asked for, exactly when the body fits. */
  lemma SetIeWritesElement(id: Byte, source: seq<Byte>)
    ensures (exists e: Elem :: Bytes(e) == [id, |source| % 256] + source) <==> |source| < 256
    ensures |source| < 256 ==> Bytes(Element(id, source)) == [id, |source| % 256] + source
  {
    var w: seq<Byte> := [id, |source| % 256] + source;
    if |source| < 256 {
      assert Bytes(Element(id, source)) == w;
    } else {
      forall e: Elem ensures Bytes(e) != w {
        assert |Bytes(e)| == 2 + |e.body|;
      }
    }
  }
}
