/** Search and in-place removal of information elements (core/rtw_ieee80211.c).
    A buffer is described by its parts: what comes before, the bytes of the elements, and what
    comes after.  The elements are complete; the code reads past their end otherwise. */
module InfoElements {
  import opened Elements
  import opened Buffers

  /** What stands at the head of the elements `es` behind `pre`. */
  lemma Peek(s: seq<Byte>, pre: seq<Byte>, es: seq<Elem>, post: seq<Byte>)
    requires s == pre + Encode(es) + post && es != []
    ensures var at, n := |pre|, |es[0].body|;
      at + 2 + n <= |s| && s[at] == es[0].id && s[at + 1] == n && s[at + 2..at + 2 + n] == es[0].body
    ensures s == (pre + Bytes(es[0])) + Encode(es[1..]) + post
    ensures |Encode(es)| == 2 + |es[0].body| + |Encode(es[1..])|
  {
    var b, c := Bytes(es[0]), Encode(es[1..]);
    Assoc(pre, b, c);
    Assoc(pre + b, c, post);
    PeekBytes(s, pre, es[0], c + post);
  }

  lemma PeekBytes(s: seq<Byte>, pre: seq<Byte>, e: Elem, post: seq<Byte>)
    requires s == pre + Bytes(e) + post
    ensures var at, n := |pre|, |e.body|;
      at + 2 + n <= |s| && s[at] == e.id && s[at + 1] == n && s[at + 2..at + 2 + n] == e.body
  {
    var b := Bytes(e);
    assert forall i :: 0 <= i < |b| ==> s[|pre| + i] == b[i];
    assert forall i :: 0 <= i < |e.body| ==> b[2 + i] == e.body[i];
  }

  /** The same, in the middle of a list: a search has passed the first `k` elements. */
  lemma PeekAt(s: seq<Byte>, pre: seq<Byte>, es: seq<Elem>, post: seq<Byte>, k: nat, cnt: nat)
    requires Passed(s, pre, es, post, k, cnt) && cnt < |Encode(es)|
    ensures k < |es|
    ensures var at, n := |pre| + cnt, |es[k].body|;
      && at + 2 + n <= |s| && s[at] == es[k].id && s[at + 1] == n && s[at + 2..at + 2 + n] == es[k].body
      && Passed(s, pre, es, post, k + 1, cnt + 2 + n)
  {
    EncodeSplit(es, k);
    EncodeSize(es[k..]);
    Suffix(es, k);
    Peek(s, pre + Encode(es[..k]), es[k..], post);
    EncodePrefix(es, k);
    EncodeSplit(es, k + 1);
    Assoc(pre, Encode(es[..k]), Bytes(es[k]));
  }

  lemma Suffix(es: seq<Elem>, k: nat)
    requires k < |es|
    ensures es[k..][0] == es[k] && es[k..][1..] == es[k + 1..]
  {}

  lemma EncodePrefix(es: seq<Elem>, k: nat)
    requires k < |es|
    ensures Encode(es[..k + 1]) == Encode(es[..k]) + Bytes(es[k])
  {
    assert es[..k + 1] == es[..k] + [es[k]];
    EncodeConcat(es[..k], [es[k]]);
    EncodeOne(es[k]);
  }

  ghost predicate Passed(s: seq<Byte>, pre: seq<Byte>, es: seq<Elem>, post: seq<Byte>, k: nat, cnt: nat) {
    && k <= |es| && cnt == |Encode(es[..k])| && cnt <= |Encode(es)|
    && s == (pre + Encode(es[..k])) + Encode(es[k..]) + post
  }

  lemma PassedNone(s: seq<Byte>, pre: seq<Byte>, es: seq<Elem>, post: seq<Byte>)
    requires s == pre + Encode(es) + post
    ensures Passed(s, pre, es, post, 0, 0)
  {
    assert es[..0] == [] && es[0..] == es && pre + [] == pre;
  }

  lemma EncodeSplit(es: seq<Elem>, k: nat)
    requires k <= |es|
    ensures Encode(es) == Encode(es[..k]) + Encode(es[k..])
  {
    assert es == es[..k] + es[k..];
    EncodeConcat(es[..k], es[k..]);
  }

  lemma PassedAll(es: seq<Elem>, k: nat)
    requires k <= |es| && |Encode(es[..k])| == |Encode(es)|
    ensures k == |es|
  {
    EncodeSplit(es, k);
    EncodeSize(es[k..]);
  }

  /** The comparison of the ID, and then of the octets after the header with the OUI. */
  method Same(buf: array<Byte>, at: nat, p: Pattern, ghost e: Elem) returns (same: bool)
    requires at + 2 + |e.body| <= buf.Length && buf[at] == e.id && buf[at + 2..at + 2 + |e.body|] == e.body
    requires e.id == p.id ==> |p.oui| <= |e.body|
    ensures same <==> Matches(e, p)
  {
    same := buf[at] == p.id;
    if same {
      assert buf[at + 2..at + 2 + |p.oui|] == e.body[..|p.oui|];
      same := buf[at + 2..at + 2 + |p.oui|] == p.oui;
    }
  }

  lemma LongAt(es: seq<Elem>, p: Pattern, k: nat)
    requires LongEnough(es, p) && k < |es|
    ensures es[k].id == p.id ==> |p.oui| <= |es[k].body|
  {
    assert es[k] in es;
  }

  /** rtw_get_ie_ex: the first element with this ID and OUI. */
  method GetIeEx(buf: array<Byte>, start: nat, len: nat, p: Pattern,
                 ghost pre: seq<Byte>, ghost es: seq<Elem>, ghost post: seq<Byte>)
    returns (found: bool, pos: nat, ielen: nat, ghost k: nat)
    requires buf[..] == pre + Encode(es) + post && |pre| == start && |Encode(es)| == len && LongEnough(es, p)
    ensures k == First(es, p) && (found <==> First(es, p) < |es|)
    ensures found ==> var f := First(es, p); pos == start + |Encode(es[..f])| && ielen == 2 + |es[f].body|
  {
    var cnt := 0;
    ghost var first := First(es, p);
    found, pos, ielen, k := false, 0, 0, 0;
    PassedNone(buf[..], pre, es, post);
    while cnt < len
      invariant Passed(buf[..], pre, es, post, k, cnt) && k <= first
      decreases len - cnt
    {
      PeekAt(buf[..], pre, es, post, k, cnt);
      LongAt(es, p, k);
      var same := Same(buf, start + cnt, p, es[k]);
      if same {
        found, pos, ielen := true, start + cnt, 2 + (buf[start + cnt + 1] as int);
        return;
      }
      cnt := cnt + 2 + (buf[start + cnt + 1] as int);
      k := k + 1;
    }
    PassedAll(es, k);
  }

  /** rtw_get_ie: the first element with this ID; `len` is set only by a search of a non-empty part. */
  method GetIe(buf: array<Byte>, start: nat, limit: nat, id: Byte,
               ghost pre: seq<Byte>, ghost es: seq<Elem>, ghost post: seq<Byte>)
    returns (found: bool, pos: nat, len: nat, ghost k: nat)
    requires buf[..] == pre + Encode(es) + post && |pre| == start && |Encode(es)| == limit
    ensures k == First(es, Pattern(id, [])) && (found <==> First(es, Pattern(id, [])) < |es|)
    ensures found ==> var f := First(es, Pattern(id, [])); pos == start + |Encode(es[..f])| && len == |es[f].body|
  {
    found, pos, len, k := false, 0, 0, 0;
    ghost var first := First(es, Pattern(id, []));
    PassedNone(buf[..], pre, es, post);
    if limit < 1 {
      PassedAll(es, 0);
      return;
    }
    var i := 0;
    while true
      invariant Passed(buf[..], pre, es, post, k, i) && k <= first && i < limit
      decreases limit - i
    {
      PeekAt(buf[..], pre, es, post, k, i);
      assert buf[start + i] == id <==> k == first;
      if buf[start + i] == id {
        found, pos, len := true, start + i, buf[start + i + 1];
        return;
      }
      i := i + 2 + (buf[start + i + 1] as int);
      k := k + 1;
      if i >= limit { break; }
    }
    PassedAll(es, k);
  }

  // ---------------------------------------------------------------- removal in place

  /** In the middle of a rewriting: `done` is final, `rest` is to be looked at, `junk` was freed. */
  ghost predicate Rewriting(s: seq<Byte>, pre: seq<Byte>, done: seq<Elem>, rest: seq<Elem>,
                            junk: seq<Byte>, post: seq<Byte>) {
    s == (pre + Encode(done)) + Encode(rest) + (junk + post)
  }

  lemma RewritingStart(s: seq<Byte>, pre: seq<Byte>, es: seq<Elem>, post: seq<Byte>)
    requires s == pre + Encode(es) + post
    ensures Rewriting(s, pre, [], es, [], post)
  {
    assert [] + post == post && pre + [] == pre;
  }

  lemma RewritingEnd(s: seq<Byte>, pre: seq<Byte>, done: seq<Elem>, rest: seq<Elem>, junk: seq<Byte>, post: seq<Byte>)
    requires Rewriting(s, pre, done, rest, junk, post)
    ensures s == pre + Encode(done + rest) + junk + post
  {
    EncodeConcat(done, rest);
    Assoc(pre, Encode(done), Encode(rest));
    Assoc(pre + Encode(done + rest), junk, post);
  }

  /** rtw_ies_remove_ie: remove every match behind `offset`; true if something was removed. */
  method IesRemoveIe(buf: array<Byte>, iesLen: nat, offset: nat, p: Pattern,
                     ghost pre: seq<Byte>, ghost es: seq<Elem>, ghost post: seq<Byte>)
    returns (removed: bool, newLen: nat, ghost junk: seq<Byte>)
    requires iesLen <= buf.Length
    requires offset < iesLen ==>
      buf[..] == pre + Encode(es) + post && |pre| == offset && |Encode(es)| == iesLen - offset && LongEnough(es, p)
    modifies buf
    ensures offset >= iesLen ==> !removed && newLen == iesLen && buf[..] == old(buf[..])
    ensures offset < iesLen ==>
      && buf[..] == pre + Encode(Without(es, p)) + junk + post
      && newLen == offset + |Encode(Without(es, p))| && newLen + |junk| == iesLen
      && (removed <==> Without(es, p) != es)
  {
    removed, newLen, junk := false, iesLen, [];
    if iesLen <= offset { return; }
    var start := offset;
    ghost var done, rest: seq<Elem> := [], es;
    RewritingStart(buf[..], pre, es, post);
    while true
      invariant Rewriting(buf[..], pre, done, rest, junk, post) && newLen + |junk| == iesLen
      invariant start == offset + |Encode(done)| && newLen == start + |Encode(rest)|
      invariant done + Without(rest, p) == Without(es, p) && LongEnough(rest, p)
      invariant if removed then Without(es, p) != es else rest == es
      decreases |rest|
    {
      var found, start', end;
      ghost var k, gap;
      found, start', end, k, gap := RemoveNext(buf, start, newLen, p, pre, done, rest, junk, post);
      WithoutNext(done, rest, es, p, k);
      if !found { break; }
      done, rest, junk := done + rest[..k], rest[k + 1..], gap + junk;
      removed, start, newLen := true, start', end;
    }
    EncodeConcat(done, rest);
    RewritingEnd(buf[..], pre, done, rest, junk, post);
  }

  lemma WithoutNext(done: seq<Elem>, rest: seq<Elem>, es: seq<Elem>, p: Pattern, k: nat)
    requires k == First(rest, p) && LongEnough(rest, p) && done + Without(rest, p) == Without(es, p)
    ensures k == |rest| ==> Without(es, p) == done + rest
    ensures k < |rest| ==> done + rest[..k] + Without(rest[k + 1..], p) == Without(es, p) && LongEnough(rest[k + 1..], p)
    ensures k < |rest| && rest == es ==> Without(es, p) != es
  {
    WithoutFirst(rest, p);
    if k < |rest| {
      Assoc(done, rest[..k], Without(rest[k + 1..], p));
      LongEnoughRest(rest, p, k + 1);
      if rest == es { WithoutShorter(es, p); }
    }
  }

  lemma LongEnoughRest(es: seq<Elem>, p: Pattern, k: nat)
    requires LongEnough(es, p) && k <= |es|
    ensures LongEnough(es[k..], p)
  {
    forall e | e in es[k..] ensures e in es {}
  }

  lemma {:induction false} WithoutShorter(es: seq<Elem>, p: Pattern)
    ensures |Without(es, p)| <= |es|
    ensures First(es, p) < |es| ==> |Without(es, p)| < |es|
  {
    if es != [] { WithoutShorter(es[1..], p); }
  }

  /** Find the next match and close the gap that it leaves. */
  method RemoveNext(buf: array<Byte>, start: nat, end: nat, p: Pattern, ghost pre: seq<Byte>, ghost done: seq<Elem>,
                    ghost rest: seq<Elem>, ghost junk: seq<Byte>, ghost post: seq<Byte>)
    returns (found: bool, start': nat, end': nat, ghost k: nat, ghost gap: seq<Byte>)
    requires Rewriting(buf[..], pre, done, rest, junk, post) && LongEnough(rest, p)
    requires start == |pre| + |Encode(done)| && end == start + |Encode(rest)|
    modifies buf
    ensures k == First(rest, p) && (found <==> k < |rest|)
    ensures !found ==> buf[..] == old(buf[..])
    ensures found ==>
      && Rewriting(buf[..], pre, done + rest[..k], rest[k + 1..], gap + junk, post)
      && start' == |pre| + |Encode(done + rest[..k])| && end' == start' + |Encode(rest[k + 1..])| && end' + |gap| == end
  {
    ghost var front := pre + Encode(done);
    var target, targetLen;
    found, target, targetLen, k := GetIeEx(buf, start, end - start, p, front, rest, junk + post);
    start', end', gap := start, end, [];
    if found {
      ghost var f, tail := front + Encode(rest[..k]), Encode(rest[k + 1..]);
      Opened(buf[..], pre, done, rest, junk, post, k);
      gap := MemMoveLeft(buf, target, target + targetLen, end - (target + targetLen), f, Bytes(rest[k]), tail, junk + post);
      Closed(buf[..], pre, done, rest[..k], tail, gap, junk, post);
      start', end' := target, end - targetLen;
    }
  }

  lemma Opened(s: seq<Byte>, pre: seq<Byte>, done: seq<Elem>, rest: seq<Elem>, junk: seq<Byte>, post: seq<Byte>, k: nat)
    requires Rewriting(s, pre, done, rest, junk, post) && k < |rest|
    ensures var f := pre + Encode(done);
      && s == f + Encode(rest[..k]) + Bytes(rest[k]) + Encode(rest[k + 1..]) + (junk + post)
      && |Encode(rest)| == |Encode(rest[..k])| + |Bytes(rest[k])| + |Encode(rest[k + 1..])|
  {
    EncodeAt(rest, k);
    Assoc4(pre + Encode(done), Encode(rest[..k]), Bytes(rest[k]), Encode(rest[k + 1..]));
  }

  lemma Closed(s: seq<Byte>, pre: seq<Byte>, done: seq<Elem>, more: seq<Elem>, tail: seq<Byte>, gap: seq<Byte>,
               junk: seq<Byte>, post: seq<Byte>)
    requires s == pre + Encode(done) + Encode(more) + tail + gap + (junk + post)
    ensures s == (pre + Encode(done + more)) + tail + ((gap + junk) + post)
    ensures |Encode(done + more)| == |Encode(done)| + |Encode(more)|
  {
    EncodeConcat(done, more);
    Assoc(pre, Encode(done), Encode(more));
    Assoc(gap, junk, post);
    Assoc(pre + Encode(done + more) + tail, gap, junk + post);
  }

  /** The same with a changed element between the ones that were passed and the tail. */
  lemma Replaced(s: seq<Byte>, pre: seq<Byte>, done: seq<Elem>, more: seq<Elem>, e: Elem, tail: seq<Byte>,
                 gap: seq<Byte>, junk: seq<Byte>, post: seq<Byte>)
    requires s == pre + Encode(done) + Encode(more) + Bytes(e) + tail + gap + (junk + post)
    ensures s == (pre + Encode(done + (more + [e]))) + tail + ((gap + junk) + post)
    ensures |Encode(done + (more + [e]))| == |Encode(done)| + |Encode(more)| + |Bytes(e)|
  {
    EncodeConcat(more, [e]);
    EncodeOne(e);
    Assoc(pre + Encode(done), Encode(more), Bytes(e));
    Closed(s, pre, done, more + [e], tail, gap, junk, post);
  }
}
