/** The relay tag in the buffer of a frame (core/rtw_br_ext.c).  The first 18 octets of a frame are the
    Ethernet header and the PPPoE header up to its length field; then come that field, the tags, the
    padding that the length field does not cover, and the free room of the buffer. */
module PppoeFrame {
  import opened Buffers
  import opened Elements
  import opened PppoeTags
  import opened Sequences

  class SkBuff {
    const data: array<Byte>
    var len: nat

    constructor (buf: array<Byte>, n: nat)
      ensures data == buf && len == n
    {
      data, len := buf, n;
    }
  }

  ghost predicate Holds(s: seq<Byte>, len: nat, head: seq<Byte>, tags: seq<PppTag>, pad: seq<Byte>, room: seq<Byte>) {
    && |head| == 18 && |EncodeTags(tags)| < 65536 && len == 20 + |EncodeTags(tags)| + |pad|
    && s == (head + Be16(|EncodeTags(tags)|)) + EncodeTags(tags) + (pad + room)
  }

  // ---------------------------------------------------------------- the search

  ghost predicate Passed(s: seq<Byte>, front: seq<Byte>, tags: seq<PppTag>, rest: seq<Byte>, k: nat, cnt: nat) {
    && k <= |tags| && cnt == |EncodeTags(tags[..k])| && cnt <= |EncodeTags(tags)|
    && s == (front + EncodeTags(tags[..k])) + EncodeTags(tags[k..]) + rest
  }

  lemma PassedNone(s: seq<Byte>, front: seq<Byte>, tags: seq<PppTag>, rest: seq<Byte>)
    requires s == front + EncodeTags(tags) + rest
    ensures Passed(s, front, tags, rest, 0, 0)
  {
    assert tags[..0] == [] && tags[0..] == tags && front + [] == front;
  }

  lemma SplitTags(tags: seq<PppTag>, k: nat)
    requires k <= |tags|
    ensures EncodeTags(tags) == EncodeTags(tags[..k]) + EncodeTags(tags[k..])
    ensures |EncodeTags(tags[..k])| == |EncodeTags(tags)| ==> k == |tags|
  {
    assert tags == tags[..k] + tags[k..];
    EncodeTagsConcat(tags[..k], tags[k..]);
  }

  lemma PeekTag(s: seq<Byte>, front: seq<Byte>, tags: seq<PppTag>, rest: seq<Byte>, k: nat, cnt: nat)
    requires Passed(s, front, tags, rest, k, cnt) && cnt < |EncodeTags(tags)|
    ensures k < |tags|
    ensures var at, n := |front| + cnt, |tags[k].data|;
      && at + 4 + n <= |s| && Value16(s[at], s[at + 1]) == tags[k].kind && Value16(s[at + 2], s[at + 3]) == n
      && Passed(s, front, tags, rest, k + 1, cnt + 4 + n)
  {
    SplitTags(tags, k);
    HeadTag(tags, k);
    var a, b, c := EncodeTags(tags[..k]), TagBytes(tags[k]), EncodeTags(tags[k + 1..]);
    Assoc(front + a, b, c);
    Assoc(front + a + b, c, rest);
    TagFields(s, front + a, tags[k], c + rest);
    PrefixTag(tags, k);
    SplitTags(tags, k + 1);
    Assoc(front, a, b);
  }

  lemma HeadTag(tags: seq<PppTag>, k: nat)
    requires k <= |tags| && |EncodeTags(tags[k..])| > 0
    ensures k < |tags| && EncodeTags(tags[k..]) == TagBytes(tags[k]) + EncodeTags(tags[k + 1..])
  {
    if k < |tags| { assert tags[k..][0] == tags[k] && tags[k..][1..] == tags[k + 1..]; }
  }

  lemma PrefixTag(tags: seq<PppTag>, k: nat)
    requires k < |tags|
    ensures EncodeTags(tags[..k + 1]) == EncodeTags(tags[..k]) + TagBytes(tags[k])
  {
    assert tags[..k + 1] == tags[..k] + [tags[k]];
    EncodeTagsConcat(tags[..k], [tags[k]]);
    EncodeTag(tags[k]);
  }

  /** __nat25_find_pppoe_tag; `pos` is the position in the buffer. */
  method FindTag(buf: array<Byte>, length: nat, kind: nat, ghost front: seq<Byte>, ghost tags: seq<PppTag>, ghost rest: seq<Byte>)
    returns (found: bool, pos: nat, ghost k: nat)
    requires buf[..] == front + EncodeTags(tags) + rest && |front| == 20 && length == |EncodeTags(tags)|
    ensures k == FirstTag(tags, kind) && (found <==> FirstTag(tags, kind) < |tags|)
    ensures found ==> pos == 20 + |EncodeTags(tags[..FirstTag(tags, kind)])|
  {
    found, pos, k := false, 20, 0;
    ghost var first := FirstTag(tags, kind);
    PassedNone(buf[..], front, tags, rest);
    while pos - 20 < length
      invariant pos >= 20 && Passed(buf[..], front, tags, rest, k, pos - 20) && k <= first
      decreases length - (pos - 20)
    {
      PeekTag(buf[..], front, tags, rest, k, pos - 20);
      var tagType, tagLen := Value16(buf[pos], buf[pos + 1]), Value16(buf[pos + 2], buf[pos + 3]);
      if tagType == kind { return true, pos, k; }
      pos := pos + 4 + tagLen;
      k := k + 1;
    }
    SplitTags(tags, k);
  }

  // ---------------------------------------------------------------- moving and writing

  /** skb_pull_and_merge: cut `len` octets out at `src`; fails if they are not all there. */
  method PullAndMerge(skb: SkBuff, src: nat, len: nat,
                      ghost front: seq<Byte>, ghost gap: seq<Byte>, ghost tail: seq<Byte>, ghost room: seq<Byte>)
    returns (ok: bool, ghost room': seq<Byte>)
    requires src + len <= skb.len ==>
      && skb.data[..] == front + gap + tail + room && skb.len == |front| + |gap| + |tail|
      && |front| == src && |gap| == len
    modifies skb, skb.data
    ensures ok <==> src + len <= old(skb.len)
    ensures !ok ==> skb.data[..] == old(skb.data[..]) && skb.len == old(skb.len)
    ensures ok ==> skb.data[..] == front + tail + room' && skb.len == old(skb.len) - len && |room'| == |room| + len
  {
    ok, room' := false, room;
    if src + len > skb.len || skb.len < len { return; }
    var end := src + len;
    ghost var junk := MemMoveLeft(skb.data, src, end, skb.len - end, front, gap, tail, room);
    Assoc(front + tail, junk, room);
    room' := junk + room;
    skb.len := skb.len - len;
    ok := true;
  }

  method SetLength(skb: SkBuff, n: nat, ghost head: seq<Byte>, ghost two: seq<Byte>, ghost rest: seq<Byte>)
    requires skb.data[..] == head + two + rest && |head| == 18 && |two| == 2 && n < 65536
    modifies skb.data
    ensures skb.data[..] == head + Be16(n) + rest
  {
    MemCpy(skb.data, 18, Be16(n), head, two, rest);
  }

  lemma LengthField(s: seq<Byte>, head: seq<Byte>, n: nat, rest: seq<Byte>)
    requires n < 65536 && s == head + Be16(n) + rest
    ensures |head| + 2 <= |s| && Value16(s[|head|], s[|head| + 1]) == n
  {
    assert s[|head|] == Be16(n)[0] && s[|head| + 1] == Be16(n)[1];
  }

  /** Read the length field. */
  method Length(skb: SkBuff, ghost head: seq<Byte>, ghost n: nat, ghost rest: seq<Byte>) returns (length: nat)
    requires n < 65536 && skb.data[..] == head + Be16(n) + rest && |head| == 18
    ensures length == n
  {
    LengthField(skb.data[..], head, n, rest);
    length := Value16(skb.data[18], skb.data[19]);
  }

  lemma LengthPart(s: seq<Byte>, len: nat, head: seq<Byte>, tags: seq<PppTag>, pad: seq<Byte>, room: seq<Byte>)
    requires Holds(s, len, head, tags, pad, room)
    ensures s == head + Be16(|EncodeTags(tags)|) + (EncodeTags(tags) + (pad + room))
  {
    Assoc(head + Be16(|EncodeTags(tags)|), EncodeTags(tags), pad + room);
  }

  lemma Parts(s: seq<Byte>, len: nat, head: seq<Byte>, tags: seq<PppTag>, pad: seq<Byte>, room: seq<Byte>, k: nat)
    requires Holds(s, len, head, tags, pad, room) && k < |tags|
    ensures var a, b := EncodeTags(tags[..k]), EncodeTags(tags[k + 1..]);
      && s == (head + Be16(|EncodeTags(tags)|) + a) + TagBytes(tags[k]) + (b + pad) + room
      && len == 20 + |a| + |TagBytes(tags[k])| + |b + pad|
  {
    var h, a, t, b := head + Be16(|EncodeTags(tags)|), EncodeTags(tags[..k]), TagBytes(tags[k]), EncodeTags(tags[k + 1..]);
    EncodeTagAt(tags, k);
    Assoc4(h, a, t, b);
    Assoc(h + a + t + b, pad, room);
    Assoc(h + a + t, b, pad);
  }

  /** Put together a list whose length field is still to be written. */
  lemma Rebuilt(head: seq<Byte>, two: seq<Byte>, a: seq<PppTag>, mid: seq<Byte>, b: seq<PppTag>, pad: seq<Byte>, room: seq<Byte>)
    ensures (head + two + EncodeTags(a)) + mid + (EncodeTags(b) + pad) + room
         == head + two + (EncodeTags(a) + mid + EncodeTags(b) + (pad + room))
  {
    var x, y := EncodeTags(a), EncodeTags(b);
    Assoc(head + two + x + mid, y, pad);
    Assoc(head + two + x + mid + y, pad, room);
    Assoc4(head + two, x, mid, y);
    Assoc(head + two, x + mid + y, pad + room);
  }

  /** Remove the tag at `pos`, and adjust the length field. */
  method RemoveTag(skb: SkBuff, pos: nat, size: nat, ghost head: seq<Byte>, ghost tags: seq<PppTag>,
                   ghost pad: seq<Byte>, ghost room: seq<Byte>, ghost k: nat)
    returns (ok: bool, ghost room': seq<Byte>)
    requires Holds(skb.data[..], skb.len, head, tags, pad, room) && k < |tags|
    requires pos == 20 + |EncodeTags(tags[..k])| && size == 4 + |tags[k].data|
    modifies skb, skb.data
    ensures ok && Holds(skb.data[..], skb.len, head, Delete(tags, k), pad, room') && |room'| == |room| + size
  {
    ghost var n := |EncodeTags(tags)|;
    ghost var a, b := EncodeTags(tags[..k]), EncodeTags(tags[k + 1..]);
    Parts(skb.data[..], skb.len, head, tags, pad, room, k);
    ok, room' := PullAndMerge(skb, pos, size, head + Be16(n) + a, TagBytes(tags[k]), b + pad, room);
    EncodeTagAt(tags, k);
    EncodeTagsConcat(tags[..k], tags[k + 1..]);
    NoMiddle(head, Be16(n), tags[..k], tags[k + 1..], pad, room');
    var length := Length(skb, head, n, EncodeTags(Delete(tags, k)) + (pad + room'));
    SetLength(skb, length - size, head, Be16(n), EncodeTags(Delete(tags, k)) + (pad + room'));
    Assoc(head + Be16(length - size), EncodeTags(Delete(tags, k)), pad + room');
  }

  lemma NoMiddle(head: seq<Byte>, two: seq<Byte>, a: seq<PppTag>, b: seq<PppTag>, pad: seq<Byte>, room: seq<Byte>)
    ensures (head + two + EncodeTags(a)) + (EncodeTags(b) + pad) + room
         == head + two + (EncodeTags(a + b) + (pad + room))
  {
    Rebuilt(head, two, a, [], b, pad, room);
    EncodeTagsConcat(a, b);
    assert head + two + EncodeTags(a) + [] == head + two + EncodeTags(a) && EncodeTags(a) + [] == EncodeTags(a);
  }
}
