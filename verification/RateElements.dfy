/** rtw_remove_ie_g_rate (core/rtw_ieee80211.c): cut rate elements to their leading CCK rates. */
module RateElements {
  import opened Elements
  import opened Buffers
  import opened InfoElements

  predicate IsCck(rate: Byte) {
    rate % 128 == 2 || rate % 128 == 4 || rate % 128 == 11 || rate % 128 == 22
  }

  /** The number of leading CCK rates. */
  function CckSize(rates: seq<Byte>): (n: nat)
    ensures n <= |rates|
    ensures forall i :: 0 <= i < n ==> IsCck(rates[i])
    ensures n < |rates| ==> !IsCck(rates[n])
  {
    if rates == [] || !IsCck(rates[0]) then 0 else 1 + CckSize(rates[1..])
  }

  function CutRate(e: Elem): Elem { Element(e.id, e.body[..CckSize(e.body)]) }

  function CutSize(e: Elem): nat { |e.body| - CckSize(e.body) }

  /** A list up to element `k`, with that element cut. */
  function CutPrefix(es: seq<Elem>, k: nat): seq<Elem>
    requires k < |es|
  {
    es[..k] + [CutRate(es[k])]
  }

  /** Cut every element with this ID, up to the first one that is empty. */
  function CutRates(es: seq<Elem>, id: Byte): seq<Elem> {
    if es == [] || (es[0].id == id && es[0].body == []) then es
    else [if es[0].id == id then CutRate(es[0]) else es[0]] + CutRates(es[1..], id)
  }

  /** What each cut removes, in order. */
  function Cuts(es: seq<Elem>, id: Byte): seq<nat> {
    if es == [] || (es[0].id == id && es[0].body == []) then []
    else (if es[0].id == id then [CutSize(es[0])] else []) + Cuts(es[1..], id)
  }

  function Sum(s: seq<nat>): nat { if s == [] then 0 else s[0] + Sum(s[1..]) }

  function Last(s: seq<nat>): nat { if s == [] then 0 else s[|s| - 1] }

  lemma {:induction false} CutRatesShorter(es: seq<Elem>, id: Byte)
    ensures |Encode(CutRates(es, id))| + Sum(Cuts(es, id)) == |Encode(es)|
  {
    if es != [] && !(es[0].id == id && es[0].body == []) {
      CutRatesShorter(es[1..], id);
      assert CutRates(es, id)[1..] == CutRates(es[1..], id);
      var cut := [CutSize(es[0])];
      assert (cut + Cuts(es[1..], id))[1..] == Cuts(es[1..], id);
      assert [] + Cuts(es[1..], id) == Cuts(es[1..], id);
    }
  }

  /** From match to match, as the code goes. */
  lemma {:induction false} CutNext(es: seq<Elem>, id: Byte)
    ensures var k := First(es, Pattern(id, []));
      CutRates(es, id) == if k == |es| || es[k].body == [] then es
                          else CutPrefix(es, k) + CutRates(es[k + 1..], id)
  {
    if es == [] {
    } else if es[0].id == id {
      assert es[..0] == [];
    } else {
      var rest, k := es[1..], First(es[1..], Pattern(id, []));
      CutNext(rest, id);
      assert [es[0]] + rest == es;
      if k < |rest| {
        ConsFront(es, k, [CutRate(rest[k])], CutRates(rest[k + 1..], id));
        assert es[k + 1] == rest[k] && es[k + 2..] == rest[k + 1..];
      }
    }
  }

  lemma {:induction false} CutsNext(es: seq<Elem>, id: Byte)
    ensures var k := First(es, Pattern(id, []));
      Cuts(es, id) == if k == |es| || es[k].body == [] then []
                      else [CutSize(es[k])] + Cuts(es[k + 1..], id)
  {
    if es != [] && es[0].id != id {
      var rest, k := es[1..], First(es[1..], Pattern(id, []));
      CutsNext(rest, id);
      assert [] + Cuts(rest, id) == Cuts(rest, id);
      if k < |rest| { assert es[k + 1] == rest[k] && es[k + 2..] == rest[k + 1..]; }
    }
  }

  /** rtw_get_cckrate_size on the octets `rates` at `pos`. */
  method GetCckRateSize(buf: array<Byte>, pos: nat, len: nat, ghost rates: seq<Byte>) returns (n: nat)
    requires pos + len <= buf.Length && buf[pos..pos + len] == rates
    ensures n == CckSize(rates)
  {
    n := 0;
    assert rates[0..] == rates;
    while n < len && IsCck(buf[pos + n])
      invariant n <= len && CckSize(rates) == n + CckSize(rates[n..])
    {
      assert buf[pos + n] == rates[n] && rates[n..][1..] == rates[n + 1..];
      n := n + 1;
    }
    if n < len { assert buf[pos + n] == rates[n] == rates[n..][0]; }
  }

  /** rtw_remove_ie_g_rate; `ret` is what the last cut removed. */
  method RemoveGRate(buf: array<Byte>, iesLen: nat, offset: nat, id: Byte,
                     ghost pre: seq<Byte>, ghost es: seq<Elem>, ghost post: seq<Byte>)
    returns (ret: nat, newLen: nat, ghost junk: seq<Byte>)
    requires iesLen <= buf.Length
    requires offset < iesLen ==> buf[..] == pre + Encode(es) + post && |pre| == offset && |Encode(es)| == iesLen - offset
    modifies buf
    ensures offset >= iesLen ==> ret == 0 && newLen == iesLen && buf[..] == old(buf[..])
    ensures offset < iesLen ==>
      && buf[..] == pre + Encode(CutRates(es, id)) + junk + post
      && newLen == offset + |Encode(CutRates(es, id))| && newLen + Sum(Cuts(es, id)) == iesLen
      && ret == Last(Cuts(es, id))
  {
    ret, newLen, junk := 0, iesLen, [];
    if iesLen <= offset { return; }
    var start := offset;
    ghost var done, rest: seq<Elem>, cut := [], es, [];
    RewritingStart(buf[..], pre, es, post);
    while true
      invariant Rewriting(buf[..], pre, done, rest, junk, post)
      invariant start == offset + |Encode(done)| && newLen == start + |Encode(rest)|
      invariant Progress(done, rest, cut, es, id) && ret == Last(cut)
      decreases |rest|
    {
      var found, start', end', size;
      ghost var k, gap;
      found, start', end', size, k, gap := CutOne(buf, start, newLen, id, pre, done, rest, junk, post);
      ProgressStep(done, rest, cut, es, id, k);
      if !found { break; }
      done, rest, cut, junk := done + CutPrefix(rest, k), rest[k + 1..], cut + [size], gap + junk;
      ret, start, newLen := size, start', end';
    }
    RewritingEnd(buf[..], pre, done, rest, junk, post);
    EncodeConcat(done, rest);
    CutRatesShorter(es, id);
  }

  /** What has been cut, followed by what cutting the rest will do, is what cutting everything does. */
  predicate Progress(done: seq<Elem>, rest: seq<Elem>, cut: seq<nat>, es: seq<Elem>, id: Byte) {
    done + CutRates(rest, id) == CutRates(es, id) && cut + Cuts(rest, id) == Cuts(es, id)
  }

  lemma ProgressStep(done: seq<Elem>, rest: seq<Elem>, cut: seq<nat>, es: seq<Elem>, id: Byte, k: nat)
    requires Progress(done, rest, cut, es, id) && k == First(rest, Pattern(id, []))
    ensures if k == |rest| || rest[k].body == [] then done + rest == CutRates(es, id) && cut == Cuts(es, id)
            else Progress(done + CutPrefix(rest, k), rest[k + 1..],
                          cut + [CutSize(rest[k])], es, id)
  {
    CutNext(rest, id);
    CutsNext(rest, id);
    if k < |rest| && rest[k].body != [] {
      Assoc(cut, [CutSize(rest[k])], Cuts(rest[k + 1..], id));
      Assoc(done, CutPrefix(rest, k), CutRates(rest[k + 1..], id));
    } else {
      assert cut + [] == cut;
    }
  }

  /** Find the next non-empty rate element and cut it. */
  method CutOne(buf: array<Byte>, start: nat, end: nat, id: Byte, ghost pre: seq<Byte>, ghost done: seq<Elem>,
                ghost rest: seq<Elem>, ghost junk: seq<Byte>, ghost post: seq<Byte>)
    returns (found: bool, start': nat, end': nat, size: nat, ghost k: nat, ghost gap: seq<Byte>)
    requires Rewriting(buf[..], pre, done, rest, junk, post)
    requires start == |pre| + |Encode(done)| && end == start + |Encode(rest)|
    modifies buf
    ensures k == First(rest, Pattern(id, [])) && (found <==> k < |rest| && rest[k].body != [])
    ensures !found ==> buf[..] == old(buf[..])
    ensures found ==>
      && size == CutSize(rest[k]) && end' + size == end
      && Rewriting(buf[..], pre, done + CutPrefix(rest, k), rest[k + 1..], gap + junk, post)
      && start' == |pre| + |Encode(done + CutPrefix(rest, k))| && end' == start' + |Encode(rest[k + 1..])|
  {
    ghost var front := pre + Encode(done);
    var target, len;
    found, target, len, k := GetIe(buf, start, end - start, id, front, rest, junk + post);
    start', end', size, gap := start, end, 0, [];
    found := found && len > 0;
    if found {
      ghost var f, tail, e := front + Encode(rest[..k]), Encode(rest[k + 1..]), rest[k];
      Opened(buf[..], pre, done, rest, junk, post, k);
      size, gap := CutAt(buf, target, end, len, f, e, tail, junk + post);
      Replaced(buf[..], pre, done, rest[..k], CutRate(e), tail, gap, junk, post);
      start', end' := target + 2 + len - size, end - size;
    }
  }

  /** Cut the element `e` at `target`. */
  method CutAt(buf: array<Byte>, target: nat, end: nat, len: nat, ghost f: seq<Byte>, ghost e: Elem,
               ghost tail: seq<Byte>, ghost post: seq<Byte>)
    returns (size: nat, ghost gap: seq<Byte>)
    requires buf[..] == f + Bytes(e) + tail + post
    requires |f| == target && len == |e.body| && end == target + 2 + len + |tail|
    modifies buf
    ensures size == len - CckSize(e.body)
    ensures buf[..] == f + Bytes(CutRate(e)) + tail + gap + post
  {
    AtElement(buf[..], f, e, tail, post);
    var cck := GetCckRateSize(buf, target + 2, len, e.body);
    size := len - cck;
    gap := e.body[cck..];
    Relabelled(buf[..], f, e, tail, post);
    buf[target + 1] := cck;
    gap := MemMoveLeft(buf, target + 2 + cck, target + 2 + len, end - (target + 2 + len),
                       f + Bytes(CutRate(e)), gap, tail, post);
  }

  lemma AtElement(s: seq<Byte>, f: seq<Byte>, e: Elem, tail: seq<Byte>, post: seq<Byte>)
    requires s == f + Bytes(e) + tail + post
    ensures var at := |f| + 2; at + |e.body| <= |s| && s[at..at + |e.body|] == e.body
  {
    Assoc(f + Bytes(e), tail, post);
    PeekBytes(s, f, e, tail + post);
  }

  /** Writing the new length turns the dropped rates into a gap behind a shorter element. */
  lemma Relabelled(s: seq<Byte>, f: seq<Byte>, e: Elem, tail: seq<Byte>, post: seq<Byte>)
    requires s == f + Bytes(e) + tail + post
    ensures s[|f| + 1 := CckSize(e.body)] == f + Bytes(CutRate(e)) + e.body[CckSize(e.body)..] + tail + post
  {
    var n: Byte := CckSize(e.body);
    assert Bytes(e)[1 := n] == Bytes(CutRate(e)) + e.body[n..];
    UpdateInside(f, Bytes(e), tail, post, 1, n);
    Assoc(f, Bytes(CutRate(e)), e.body[n..]);
  }

  lemma UpdateInside(a: seq<Byte>, b: seq<Byte>, c: seq<Byte>, d: seq<Byte>, i: nat, x: Byte)
    requires i < |b|
    ensures (a + b + c + d)[|a| + i := x] == a + b[i := x] + c + d
  {}

  // ---------------------------------------------------------------- what the caller could expect

  predicate AllCck(rates: seq<Byte>) { forall i :: 0 <= i < |rates| ==> IsCck(rates[i]) }

  lemma CutsNothing(e: Elem)
    ensures CutSize(e) == 0 <==> AllCck(e.body)
    ensures CutRate(e) == e <==> AllCck(e.body)
  {}

  /** Every element with this ID is cut. */
  function CutAll(es: seq<Elem>, id: Byte): (r: seq<Elem>)
    ensures |r| == |es| && forall j :: 0 <= j < |es| ==> r[j] == if es[j].id == id then CutRate(es[j]) else es[j]
  {
    if es == [] then [] else [if es[0].id == id then CutRate(es[0]) else es[0]] + CutAll(es[1..], id)
  }

  /** The index of the first empty match, or the length of the list. */
  function FirstEmpty(es: seq<Elem>, id: Byte): (n: nat)
    ensures n <= |es| && (n < |es| ==> es[n] == Element(id, []))
    ensures forall j :: 0 <= j < n ==> es[j] != Element(id, [])
  {
    if es == [] || es[0] == Element(id, []) then 0 else 1 + FirstEmpty(es[1..], id)
  }

  lemma {:induction false} CutRatesAt(es: seq<Elem>, id: Byte)
    ensures var n := FirstEmpty(es, id); CutRates(es, id) == CutAll(es[..n], id) + es[n..]
  {
    var n := FirstEmpty(es, id);
    if n > 0 {
      var rest := es[1..];
      CutRatesAt(rest, id);
      assert es[..n][1..] == rest[..n - 1] && es[n..] == rest[n - 1..];
      Assoc([if es[0].id == id then CutRate(es[0]) else es[0]], CutAll(rest[..n - 1], id), es[n..]);
    }
  }

  /** The code cuts every match if and only if no match behind an empty one has a rate to cut. */
  lemma CutsAllExactly(es: seq<Elem>, id: Byte)
    ensures CutRates(es, id) == CutAll(es, id) <==>
      forall j :: FirstEmpty(es, id) <= j < |es| && es[j].id == id ==> AllCck(es[j].body)
  {
    var n := FirstEmpty(es, id);
    CutRatesAt(es, id);
    forall j | 0 <= j < |es|
      ensures CutRates(es, id)[j] == CutAll(es, id)[j] <==> j < n || es[j].id != id || AllCck(es[j].body)
    {
      CutsNothing(es[j]);
    }
  }

  /** No match but the last of those that are reached has a rate to cut. */
  predicate OnlyLastCut(es: seq<Elem>, id: Byte) {
    forall i, j :: 0 <= i < j < FirstEmpty(es, id) && es[i].id == id && es[j].id == id ==> AllCck(es[i].body)
  }

  /** A match is reached. */
  predicate Reaches(es: seq<Elem>, id: Byte) { exists j :: 0 <= j < FirstEmpty(es, id) && es[j].id == id }

  lemma {:induction false} CutsReached(es: seq<Elem>, id: Byte)
    ensures Cuts(es, id) != [] <==> Reaches(es, id)
    ensures Last(Cuts(es, id)) <= Sum(Cuts(es, id))
  {
    var n := FirstEmpty(es, id);
    if n > 0 {
      CutsReached(es[1..], id);
      CutsCons(es, es[1..], id);
      if es[0].id != id && Reaches(es[1..], id) {
        var j :| 0 <= j < FirstEmpty(es[1..], id) && es[1..][j].id == id;
        assert es[j + 1].id == id;
      }
    }
  }

  lemma CutsCons(es: seq<Elem>, rest: seq<Elem>, id: Byte)
    requires FirstEmpty(es, id) > 0 && rest == es[1..]
    ensures Cuts(es, id) == if es[0].id == id then [CutSize(es[0])] + Cuts(rest, id) else Cuts(rest, id)
    ensures es[0].id == id ==>
      && Sum(Cuts(es, id)) == CutSize(es[0]) + Sum(Cuts(rest, id))
      && Last(Cuts(es, id)) == if Cuts(rest, id) == [] then CutSize(es[0]) else Last(Cuts(rest, id))
  {
    if es[0].id == id {
      assert ([CutSize(es[0])] + Cuts(rest, id))[1..] == Cuts(rest, id);
    } else {
      assert [] + Cuts(rest, id) == Cuts(rest, id);
    }
  }

  lemma OnlyLastCons(es: seq<Elem>, rest: seq<Elem>, id: Byte)
    requires FirstEmpty(es, id) > 0 && rest == es[1..]
    ensures OnlyLastCut(es, id) <==>
      OnlyLastCut(rest, id) && (es[0].id == id && Reaches(rest, id) ==> AllCck(es[0].body))
  {
    var n := FirstEmpty(rest, id);
    assert FirstEmpty(es, id) == n + 1;
    assert forall j :: 0 <= j < n ==> rest[j] == es[j + 1];
    if OnlyLastCut(es, id) {
      forall i, j | 0 <= i < j < n && rest[i].id == id && rest[j].id == id ensures AllCck(rest[i].body) {
        assert es[i + 1].id == id && es[j + 1].id == id;
      }
      if es[0].id == id && Reaches(rest, id) {
        var j :| 0 <= j < n && rest[j].id == id;
        assert es[j + 1].id == id;
      }
    }
    if OnlyLastCut(rest, id) && (es[0].id == id && Reaches(rest, id) ==> AllCck(es[0].body)) {
      forall i, j | 0 <= i < j < n + 1 && es[i].id == id && es[j].id == id ensures AllCck(es[i].body) {
        assert rest[j - 1].id == id;
        if i > 0 { assert rest[i - 1].id == id; }
      }
    }
  }

  /** The return value is documented as the size removed: that is so exactly then. */
  lemma {:induction false} ReturnedSize(es: seq<Elem>, id: Byte)
    ensures Last(Cuts(es, id)) == Sum(Cuts(es, id)) <==> OnlyLastCut(es, id)
  {
    if FirstEmpty(es, id) > 0 {
      var rest := es[1..];
      ReturnedSize(rest, id);
      CutsCons(es, rest, id);
      OnlyLastCons(es, rest, id);
      CutsReached(rest, id);
      CutsNothing(es[0]);
    }
  }

  const BOTH_CUT: seq<Elem> := [Element(1, [12]), Element(1, [24])]
  const EMPTY_FIRST: seq<Elem> := [Element(1, []), Element(1, [12])]

  /** Of two octets that are removed one is reported, and behind an empty element a rate is left. */
  lemma FailingLists()
    ensures Last(Cuts(BOTH_CUT, 1)) != Sum(Cuts(BOTH_CUT, 1))
    ensures CutRates(EMPTY_FIRST, 1) != CutAll(EMPTY_FIRST, 1)
  {
    assert BOTH_CUT[0].id == 1 && BOTH_CUT[1].id == 1 && !IsCck(BOTH_CUT[0].body[0]);
    ReturnedSize(BOTH_CUT, 1);
    assert EMPTY_FIRST[1].id == 1 && !IsCck(EMPTY_FIRST[1].body[0]);
    CutsAllExactly(EMPTY_FIRST, 1);
  }
}
