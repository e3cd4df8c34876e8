/** The PPPoE part of nat25_db_handle with the relay tag switched on (core/rtw_br_ext.c). */
module PppoeRelay {
  import opened Buffers
  import opened Elements
  import opened PppoeFrame
  import opened PppoeTags
  import opened Sequences

  /** What the host reads in a 16-bit field that holds `n` in network order. */
  function RawValue(n: nat, bigEndian: bool): nat
    requires n < 65536
  {
    if bigEndian then n else 256 * (n % 256) + n / 256
  }

  /** __nat25_add_pppoe_tag: put a tag in front of the others.  The size of the tag is taken from its raw
      length field, so on a little-endian host the call fails unless there is room for 2052 octets and
      more; with that much room the code would copy more than the tag. */
  method AddTag(skb: SkBuff, t: PppTag, bigEndian: bool, ghost head: seq<Byte>, ghost tags: seq<PppTag>,
                ghost pad: seq<Byte>, ghost room: seq<Byte>)
    returns (ok: bool, ghost pad': seq<Byte>, ghost room': seq<Byte>)
    requires Holds(skb.data[..], skb.len, head, tags, pad, room) && |EncodeTags(tags)| + 4 + |t.data| < 65536
    requires bigEndian || |room| < RawValue(|t.data|, false) + 4
    modifies skb, skb.data
    ensures ok <==> bigEndian && |room| >= 4 + |t.data|
    ensures !ok ==> skb.data[..] == old(skb.data[..]) && skb.len == old(skb.len) && pad' == pad && room' == room
    ensures ok ==> Holds(skb.data[..], skb.len, head, [t] + tags, pad', room') && |pad'| == |pad|
  {
    ok, pad', room' := false, pad, room;
    var dataLen := RawValue(|t.data|, bigEndian) + 4;
    HoldsSize(skb.data[..], skb.len, head, tags, pad, room);
    if skb.data.Length - skb.len < dataLen { return; }
    skb.len := skb.len + dataLen;
    ghost var n, e := |EncodeTags(tags)|, EncodeTags(tags);
    LengthPart(skb.data[..], skb.len - dataLen, head, tags, pad, room);
    var length := Length(skb, head, n, e + (pad + room));
    ghost var gap, rest := MemMoveRight(skb.data, 20, length, dataLen, head + Be16(n), e, pad + room);
    Assoc(head + Be16(n), gap, e);
    Assoc(head + Be16(n), gap + e, rest);
    SetLength(skb, length + dataLen, head, Be16(n), gap + e + rest);
    Assoc(head + Be16(length + dataLen), gap, e + rest);
    Assoc(gap, e, rest);
    MemCpy(skb.data, 20, TagBytes(t), head + Be16(length + dataLen), gap, e + rest);
    pad', room' := rest[..|pad|], rest[|pad|..];
    NewFront(skb.data[..], head + Be16(length + dataLen), t, tags, rest, |pad|);
    ok := true;
  }

  lemma HoldsSize(s: seq<Byte>, len: nat, head: seq<Byte>, tags: seq<PppTag>, pad: seq<Byte>, room: seq<Byte>)
    requires Holds(s, len, head, tags, pad, room)
    ensures |s| == len + |room|
  {}

  lemma NewFront(s: seq<Byte>, front: seq<Byte>, t: PppTag, tags: seq<PppTag>, rest: seq<Byte>, n: nat)
    requires s == front + TagBytes(t) + (EncodeTags(tags) + rest) && n <= |rest|
    ensures s == front + EncodeTags([t] + tags) + (rest[..n] + rest[n..])
    ensures |EncodeTags([t] + tags)| == 4 + |t.data| + |EncodeTags(tags)|
  {
    EncodeTagsConcat([t], tags);
    EncodeTag(t);
    assert rest == rest[..n] + rest[n..];
    Assoc(front + TagBytes(t), EncodeTags(tags), rest);
    Assoc(front, TagBytes(t), EncodeTags(tags));
  }

  /** The octets of a tag's value, as the code reads them. */
  method ReadValue(buf: array<Byte>, pos: nat, ghost front: seq<Byte>, ghost t: PppTag, ghost rest: seq<Byte>)
    returns (value: seq<Byte>)
    requires buf[..] == front + TagBytes(t) + rest && |front| == pos
    ensures value == t.data
  {
    TagFields(buf[..], front, t, rest);
    var len := Value16(buf[pos + 2], buf[pos + 3]);
    value := buf[..][pos + 4..pos + 4 + len];
  }

  /** A PADI or PADR from a client.  If the new tag does not fit the frame has already lost its old one. */
  method StampRelay(skb: SkBuff, bigEndian: bool, ghost head: seq<Byte>, ghost tags: seq<PppTag>,
                    ghost pad: seq<Byte>, ghost room: seq<Byte>)
    returns (ret: int, ghost pad': seq<Byte>, ghost room': seq<Byte>)
    requires Holds(skb.data[..], skb.len, head, tags, pad, room) && |EncodeTags(tags)| + 12 < 65536
    requires bigEndian || |OldValue(tags)| > MAX_OLD || RoomLeft(|room|, tags) < RawValue(8 + |OldValue(tags)|, false) + 4
    modifies skb, skb.data
    ensures |OldValue(tags)| > MAX_OLD ==>
      ret == -1 && skb.data[..] == old(skb.data[..]) && skb.len == old(skb.len)
    ensures |OldValue(tags)| <= MAX_OLD ==>
      if Fits(|room|, tags, bigEndian)
      then ret == 0 && Holds(skb.data[..], skb.len, head, Stamped(tags, head[6..12]), pad', room') && |pad'| == |pad|
      else ret == -1 && Holds(skb.data[..], skb.len, head, OthersThan(tags), pad, room')
  {
    ret, pad', room' := -1, pad, room;
    var fits, old_;
    fits, old_, room' := TakeOldTag(skb, head, tags, pad, room);
    if !fits { return; }
    SourceOf(skb.data[..], skb.len, head, OthersThan(tags), pad, room');
    var mac := skb.data[..][6..12];
    StampRaw(mac, old_);
    var ok;
    ok, pad', room' := AddTag(skb, Stamp(mac, old_), bigEndian, head, OthersThan(tags), pad, room');
    if ok { ret := 0; }
  }

  const OLD_TAG: PppTag := Tag(RELAY_SID, [7])

  /** Ethernet and PPPoE header of a PADI: type 8863, version 1, type 1, code 09, no session. */
  const PADI: seq<Byte> :=
    [0xFF, 0xFF, 0xFF, 0xFF, 0xFF, 0xFF, 2, 0, 0, 0, 0, 1, 0x88, 0x63, 0x11, 0x09, 0, 0]

  /** A PADI with an old relay tag and 128 octets of room, on a little-endian host: the stamping fails, and the
      tag is lost. */
  method StampFails() returns (ret: int, before: seq<Byte>, after: seq<Byte>, len: nat, ghost room: seq<Byte>)
    ensures Holds(before, 25, PADI, [OLD_TAG], [], Zeros(128))
    ensures ret == -1 && Holds(after, len, PADI, [], [], room)
  {
    before := PADI + [0, 5] + [1, 16, 0, 1, 7] + ([] + Zeros(128));
    var data := new Byte[153](i requires 0 <= i < |before| => before[i]);
    assert data[..] == before;
    var skb := new SkBuff(data, 25);
    EncodeTag(OLD_TAG);
    assert FirstTag([OLD_TAG], RELAY_SID) == 0 && OldValue([OLD_TAG]) == [7] && OthersThan([OLD_TAG]) == [];
    ghost var pad;
    ret, pad, room := StampRelay(skb, false, PADI, [OLD_TAG], [], Zeros(128));
    after, len := skb.data[..], skb.len;
  }

  /** Look for an old relay tag; copy its value and delete it, unless the value is too long. */
  method TakeOldTag(skb: SkBuff, ghost head: seq<Byte>, ghost tags: seq<PppTag>, ghost pad: seq<Byte>, ghost room: seq<Byte>)
    returns (fits: bool, old_: seq<Byte>, ghost room': seq<Byte>)
    requires Holds(skb.data[..], skb.len, head, tags, pad, room)
    modifies skb, skb.data
    ensures fits <==> |OldValue(tags)| <= MAX_OLD
    ensures !fits ==> skb.data[..] == old(skb.data[..]) && skb.len == old(skb.len)
    ensures fits ==>
      && old_ == OldValue(tags) && Holds(skb.data[..], skb.len, head, OthersThan(tags), pad, room')
      && |EncodeTags(OthersThan(tags))| <= |EncodeTags(tags)|
      && |room'| == RoomLeft(|room|, tags)
  {
    fits, old_, room' := true, [], room;
    ghost var n := |EncodeTags(tags)|;
    LengthPart(skb.data[..], skb.len, head, tags, pad, room);
    var length := Length(skb, head, n, EncodeTags(tags) + (pad + room));
    var found, pos;
    ghost var k;
    found, pos, k := FindTag(skb.data, length, RELAY_SID, head + Be16(n), tags, pad + room);
    if found {
      PartsAt(skb.data[..], skb.len, head, tags, pad, room, k);
      old_ := ReadValue(skb.data, pos, head + Be16(n) + EncodeTags(tags[..k]), tags[k], EncodeTags(tags[k + 1..]) + pad + room);
      if |old_| + 4 + 2 + 6 > 40 { return false, old_, room; }
      var merged;
      merged, room' := RemoveTag(skb, pos, 4 + |old_|, head, tags, pad, room, k);
      DropSize(tags, k);
    }
  }

  /** The size that a little-endian host takes the new tag to have is at least 2052. */
  lemma StampRaw(mac: seq<Byte>, old_: seq<Byte>)
    requires |mac| == 6 && |old_| <= MAX_OLD
    ensures |Stamp(mac, old_).data| == 8 + |old_| && RawValue(8 + |old_|, false) + 4 == 256 * (8 + |old_|) + 4
  {}

  /** The room when the old tag is gone. */
  function RoomLeft(room: nat, tags: seq<PppTag>): nat {
    room + if FirstTag(tags, RELAY_SID) < |tags| then 4 + |OldValue(tags)| else 0
  }

  /** Whether the new tag fits behind the frame, in the room that the old one leaves. */
  predicate Fits(room: nat, tags: seq<PppTag>, bigEndian: bool) {
    bigEndian && room >= if FirstTag(tags, RELAY_SID) < |tags| then 8 else 12
  }

  lemma PartsAt(s: seq<Byte>, len: nat, head: seq<Byte>, tags: seq<PppTag>, pad: seq<Byte>, room: seq<Byte>, k: nat)
    requires Holds(s, len, head, tags, pad, room) && k < |tags|
    ensures s == (head + Be16(|EncodeTags(tags)|) + EncodeTags(tags[..k])) + TagBytes(tags[k])
                 + (EncodeTags(tags[k + 1..]) + pad + room)
  {
    var a, b := EncodeTags(tags[..k]), EncodeTags(tags[k + 1..]);
    Parts(s, len, head, tags, pad, room, k);
    Assoc(head + Be16(|EncodeTags(tags)|) + a + TagBytes(tags[k]), b + pad, room);
  }

  lemma DropSize(tags: seq<PppTag>, k: nat)
    requires k < |tags|
    ensures |EncodeTags(Delete(tags, k))| + 4 + |tags[k].data| == |EncodeTags(tags)|
  {
    EncodeTagAt(tags, k);
    EncodeTagsConcat(tags[..k], tags[k + 1..]);
  }

  lemma SourceOf(s: seq<Byte>, len: nat, head: seq<Byte>, tags: seq<PppTag>, pad: seq<Byte>, room: seq<Byte>)
    requires Holds(s, len, head, tags, pad, room)
    ensures |s| >= 20 && s[6..12] == head[6..12]
  {
    LengthPart(s, len, head, tags, pad, room);
    assert forall i :: 0 <= i < 18 ==> s[i] == head[i];
  }

  // ---------------------------------------------------------------- the way back

  /** A PADO or PADS from the server: the stamped address becomes the destination, and the stamp goes. */
  method RestoreRelay(skb: SkBuff, ghost head: seq<Byte>, ghost tags: seq<PppTag>, ghost pad: seq<Byte>, ghost room: seq<Byte>)
    returns (ret: int, ghost room': seq<Byte>)
    requires Holds(skb.data[..], skb.len, head, tags, pad, room)
    modifies skb, skb.data
    ensures ret == 0 <==> Restorable(tags)
    ensures ret != 0 ==> ret == -1 && skb.data[..] == old(skb.data[..]) && skb.len == old(skb.len)
    ensures ret == 0 ==> Holds(skb.data[..], skb.len, RestoredMac(tags) + head[6..], Restored(tags), pad, room')
  {
    ret, room' := -1, room;
    ghost var n := |EncodeTags(tags)|;
    LengthPart(skb.data[..], skb.len, head, tags, pad, room);
    var length := Length(skb, head, n, EncodeTags(tags) + (pad + room));
    var found, ptr;
    ghost var k;
    found, ptr, k := FindTag(skb.data, length, RELAY_SID, head + Be16(n), tags, pad + room);
    if !found { return; }
    PartsAt(skb.data[..], skb.len, head, tags, pad, room, k);
    var value := ReadValue(skb.data, ptr, head + Be16(n) + EncodeTags(tags[..k]), tags[k], EncodeTags(tags[k + 1..]) + pad + room);
    var tagLen := |value|;
    if tagLen < 8 { return; }
    if value[..2] != MAGIC { return; }
    ghost var head' := value[2..8] + head[6..];
    SetDestination(skb, value[2..8], head, tags, pad, room);
    if tagLen > 8 {
      room' := ShortenTag(skb, ptr, tagLen, head', tags, pad, room, k);
    } else {
      var ok;
      ok, room' := RemoveTag(skb, ptr, 12, head', tags, pad, room, k);
    }
    ret := 0;
  }

  method SetDestination(skb: SkBuff, mac: seq<Byte>, ghost head: seq<Byte>, ghost tags: seq<PppTag>,
                        ghost pad: seq<Byte>, ghost room: seq<Byte>)
    requires Holds(skb.data[..], skb.len, head, tags, pad, room) && |mac| == 6
    modifies skb.data
    ensures Holds(skb.data[..], skb.len, mac + head[6..], tags, pad, room)
  {
    ghost var rest := EncodeTags(tags) + (pad + room);
    ghost var two := Be16(|EncodeTags(tags)|);
    LengthPart(skb.data[..], skb.len, head, tags, pad, room);
    assert head == head[..6] + head[6..];
    Around(head[..6], head[6..], two, rest);
    MemCpy(skb.data, 0, mac, [], head[..6], head[6..] + two + rest);
    Around(mac, head[6..], two, rest);
    Assoc(mac + head[6..] + two, EncodeTags(tags), pad + room);
  }

  lemma Around(a: seq<Byte>, b: seq<Byte>, two: seq<Byte>, rest: seq<Byte>)
    ensures (a + b) + two + rest == [] + a + (b + two + rest)
  {
    Assoc(a, b, two);
    Assoc(a, b + two, rest);
    assert [] + a == a;
  }

  /** Cut the magic code and the address out of a longer value, and adjust both length fields. */
  method ShortenTag(skb: SkBuff, ptr: nat, tagLen: nat, ghost head: seq<Byte>, ghost tags: seq<PppTag>,
                    ghost pad: seq<Byte>, ghost room: seq<Byte>, ghost k: nat)
    returns (ghost room': seq<Byte>)
    requires Holds(skb.data[..], skb.len, head, tags, pad, room) && k < |tags|
    requires ptr == 20 + |EncodeTags(tags[..k])| && tagLen == |tags[k].data| > 8
    modifies skb, skb.data
    ensures Holds(skb.data[..], skb.len, head, tags[..k] + [Shortened(tags[k])] + tags[k + 1..], pad, room')
  {
    ghost var n, front, back := |EncodeTags(tags)|, EncodeTags(tags[..k]), EncodeTags(tags[k + 1..]) + pad;
    ghost var t' := Shortened(tags[k]);
    Parts(skb.data[..], skb.len, head, tags, pad, room, k);
    room' := CutStamp(skb, ptr, tagLen, head + Be16(n) + front, tags[k], back, room);
    ReplaceTag(tags, k, t');
    Rebuilt(head, Be16(n), tags[..k], TagBytes(t'), tags[k + 1..], pad, room');
    ghost var e := EncodeTags(tags[..k] + [t'] + tags[k + 1..]);
    var length := Length(skb, head, n, e + (pad + room'));
    SetLength(skb, length - 8, head, Be16(n), e + (pad + room'));
    Assoc(head + Be16(length - 8), e, pad + room');
  }

  /** The part for the tag itself. */
  method CutStamp(skb: SkBuff, ptr: nat, tagLen: nat, ghost front: seq<Byte>, ghost t: PppTag, ghost back: seq<Byte>,
                  ghost room: seq<Byte>)
    returns (ghost room': seq<Byte>)
    requires skb.data[..] == front + TagBytes(t) + back + room && |front| == ptr && tagLen == |t.data| > 8
    requires skb.len == ptr + 4 + tagLen + |back|
    modifies skb, skb.data
    ensures skb.data[..] == front + TagBytes(Shortened(t)) + back + room' && skb.len + 8 == old(skb.len)
  {
    ghost var kind, old2, cut, kept := Be16(t.kind), Be16(tagLen), t.data[..8], t.data[8..];
    assert t.data == cut + kept;
    InsideTag(front, kind, old2, cut, kept, back, room);
    var ok;
    ok, room' := PullAndMerge(skb, ptr + 4, 8, front + (kind + old2), cut, kept + back, room);
    InsideTag2(front, kind, old2, kept, back, room');
    MemCpy(skb.data, ptr + 2, Be16(tagLen - 8), front + kind, old2, kept + back + room');
    InsideTag2(front, kind, Be16(tagLen - 8), kept, back, room');
  }

  lemma InsideTag(f: seq<Byte>, kind: seq<Byte>, len: seq<Byte>, cut: seq<Byte>, kept: seq<Byte>, tail: seq<Byte>, room: seq<Byte>)
    ensures f + (kind + len + (cut + kept)) + tail + room == (f + (kind + len)) + cut + (kept + tail) + room
  {
    Assoc(f, kind + len, cut + kept);
    Assoc(f + (kind + len), cut, kept);
    Assoc(f + (kind + len) + cut, kept, tail);
  }

  lemma InsideTag2(f: seq<Byte>, kind: seq<Byte>, len: seq<Byte>, kept: seq<Byte>, tail: seq<Byte>, room: seq<Byte>)
    ensures (f + (kind + len)) + (kept + tail) + room == (f + kind) + len + (kept + tail + room)
    ensures (f + (kind + len)) + (kept + tail) + room == f + (kind + len + kept) + tail + room
  {
    Assoc(f, kind, len);
    Assoc(f + kind + len, kept + tail, room);
    Assoc(f + (kind + len), kept, tail);
    Assoc(f, kind + len, kept);
  }

  lemma ReplaceTag(tags: seq<PppTag>, k: nat, t: PppTag)
    requires k < |tags|
    ensures EncodeTags(tags[..k] + [t] + tags[k + 1..]) == EncodeTags(tags[..k]) + TagBytes(t) + EncodeTags(tags[k + 1..])
    ensures |EncodeTags(tags)| == |EncodeTags(tags[..k])| + 4 + |tags[k].data| + |EncodeTags(tags[k + 1..])|
  {
    EncodeTagAt(tags, k);
    EncodeTagsConcat(tags[..k] + [t], tags[k + 1..]);
    EncodeTagsConcat(tags[..k], [t]);
    EncodeTag(t);
  }
}
