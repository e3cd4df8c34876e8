/** The tags of PPPoE discovery frames (section 5 and Appendix A of RFC 2516), and the relay tag that
    core/rtw_br_ext.c puts into them and takes out again. */
module PppoeTags {
  import opened Elements
  import opened Sequences

  datatype RawTag = Tag(kind: nat, data: seq<Byte>)

  type PppTag = t: RawTag | t.kind < 65536 && |t.data| < 65536 witness Tag(0, [])

  const RELAY_SID: nat := 0x0110
  const MAGIC: seq<Byte> := [0x81, 0x86]

  function Be16(n: nat): (b: seq<Byte>)
    requires n < 65536
    ensures |b| == 2 && Value16(b[0], b[1]) == n
  {
    [n / 256, n % 256]
  }

  function TagBytes(t: PppTag): (b: seq<Byte>)
    ensures |b| == 4 + |t.data|
  {
    Be16(t.kind) + Be16(|t.data|) + t.data
  }

  function EncodeTags(tags: seq<PppTag>): seq<Byte> {
    if tags == [] then [] else TagBytes(tags[0]) + EncodeTags(tags[1..])
  }

  lemma {:induction false} EncodeTagsConcat(a: seq<PppTag>, b: seq<PppTag>)
    ensures EncodeTags(a + b) == EncodeTags(a) + EncodeTags(b)
  {
    if a == [] {
      assert a + b == b;
    } else {
      EncodeTagsConcat(a[1..], b);
      assert (a + b)[1..] == a[1..] + b && (a + b)[0] == a[0];
      Assoc(TagBytes(a[0]), EncodeTags(a[1..]), EncodeTags(b));
    }
  }

  lemma EncodeTag(t: PppTag)
    ensures EncodeTags([t]) == TagBytes(t)
  {}

  lemma EncodeTagAt(tags: seq<PppTag>, k: nat)
    requires k < |tags|
    ensures EncodeTags(tags) == EncodeTags(tags[..k]) + TagBytes(tags[k]) + EncodeTags(tags[k + 1..])
  {
    SplitAt(tags, k);
    EncodeTagsConcat(tags[..k] + [tags[k]], tags[k + 1..]);
    EncodeTagsConcat(tags[..k], [tags[k]]);
    EncodeTag(tags[k]);
  }

  /** What the code reads of the tag behind `front`. */
  lemma TagFields(s: seq<Byte>, front: seq<Byte>, t: PppTag, post: seq<Byte>)
    requires s == front + TagBytes(t) + post
    ensures var at := |front|;
      && at + 4 + |t.data| <= |s| && Value16(s[at], s[at + 1]) == t.kind && Value16(s[at + 2], s[at + 3]) == |t.data|
      && s[at + 4..at + 4 + |t.data|] == t.data
  {
    var b := TagBytes(t);
    assert forall i :: 0 <= i < |b| ==> s[|front| + i] == b[i];
    assert b[0] == Be16(t.kind)[0] && b[1] == Be16(t.kind)[1];
    assert b[2] == Be16(|t.data|)[0] && b[3] == Be16(|t.data|)[1];
    assert forall i :: 0 <= i < |t.data| ==> b[4 + i] == t.data[i];
  }

  function FirstTag(tags: seq<PppTag>, kind: nat): (k: nat)
    ensures k <= |tags|
    ensures k < |tags| ==> tags[k].kind == kind
    ensures forall j :: 0 <= j < k ==> tags[j].kind != kind
  {
    if tags == [] || tags[0].kind == kind then 0 else 1 + FirstTag(tags[1..], kind)
  }

  // ---------------------------------------------------------------- stamping and restoring

  /** The value of the first relay tag, if there is one. */
  function OldValue(tags: seq<PppTag>): seq<Byte> {
    var k := FirstTag(tags, RELAY_SID);
    if k < |tags| then tags[k].data else []
  }

  function OthersThan(tags: seq<PppTag>): seq<PppTag> {
    var k := FirstTag(tags, RELAY_SID);
    if k < |tags| then Delete(tags, k) else tags
  }

  /** The buffer in which the new tag is built has room for 28 octets of an old value. */
  const MAX_OLD: nat := 28

  function Stamp(mac: seq<Byte>, old_: seq<Byte>): PppTag
    requires |mac| == 6 && |old_| <= MAX_OLD
  {
    Tag(RELAY_SID, MAGIC + mac + old_)
  }

  /** A stamped PADI or PADR: the new tag in front, the first old one gone. */
  function Stamped(tags: seq<PppTag>, mac: seq<Byte>): seq<PppTag>
    requires |mac| == 6 && |OldValue(tags)| <= MAX_OLD
  {
    [Stamp(mac, OldValue(tags))] + OthersThan(tags)
  }

  /** Whether a PADO or PADS is accepted. */
  predicate Restorable(tags: seq<PppTag>) {
    FirstTag(tags, RELAY_SID) < |tags| && |OldValue(tags)| >= 8 && OldValue(tags)[..2] == MAGIC
  }

  function RestoredMac(tags: seq<PppTag>): seq<Byte>
    requires Restorable(tags)
  {
    OldValue(tags)[2..8]
  }

  /** The tags afterwards: the old value, or no tag at all if there is none. */
  function Restored(tags: seq<PppTag>): seq<PppTag>
    requires Restorable(tags)
  {
    var k := FirstTag(tags, RELAY_SID);
    if |tags[k].data| > 8 then tags[..k] + [Shortened(tags[k])] + tags[k + 1..] else Delete(tags, k)
  }

  function Shortened(t: PppTag): PppTag
    requires |t.data| >= 8
  {
    Tag(t.kind, t.data[8..])
  }

  /** A relay tag that was not stamped, because it is too short or does not start with the magic code, is not
      taken for one that was. */
  lemma ForeignTag(a: seq<PppTag>, b: seq<PppTag>, data: seq<Byte>)
    requires FirstTag(a, RELAY_SID) == |a| && |data| < 65536
    ensures Restorable(a + [Tag(RELAY_SID, data)] + b) <==> |data| >= 8 && data[0] == 0x81 && data[1] == 0x86
  {
    FirstAmong(a, Tag(RELAY_SID, data), b);
    if |data| >= 8 { assert data[..2] == [data[0], data[1]]; }
  }

  lemma StampParts(mac: seq<Byte>, old_: seq<Byte>)
    requires |mac| == 6 && |old_| <= MAX_OLD
    ensures var d := Stamp(mac, old_).data; |d| == 8 + |old_| && d[..2] == MAGIC && d[2..8] == mac && d[8..] == old_
  {}

  lemma FirstAmong(a: seq<PppTag>, t: PppTag, b: seq<PppTag>)
    requires FirstTag(a, t.kind) == |a|
    ensures var s := a + [t] + b;
      FirstTag(s, t.kind) == |a| && s[|a|] == t && s[..|a|] == a && s[|a| + 1..] == b
  {
    var s := a + [t] + b;
    forall j | 0 <= j < |a| ensures s[j].kind != t.kind {
      assert s[j] == a[j];
    }
    assert s[|a|] == t;
  }

  /** What an echo of the stamped tag, among any tags `a` and `b`, is turned into. */
  lemma RestoreUndoesStamp(a: seq<PppTag>, b: seq<PppTag>, mac: seq<Byte>, old_: seq<Byte>)
    requires |mac| == 6 && |old_| <= MAX_OLD && FirstTag(a, RELAY_SID) == |a|
    ensures var echoed := a + [Stamp(mac, old_)] + b;
      && Restorable(echoed) && RestoredMac(echoed) == mac
      && Restored(echoed) == a + (if old_ == [] then [] else [Tag(RELAY_SID, old_)]) + b
  {
    var t := Stamp(mac, old_);
    FirstAmong(a, t, b);
    StampParts(mac, old_);
    if old_ == [] { assert a + [] == a; }
  }

  /** The round trip: the client's address comes back, and the tags are those before, with a non-empty
      old value moved to the front. */
  lemma RoundTrip(tags: seq<PppTag>, mac: seq<Byte>)
    requires |mac| == 6 && |OldValue(tags)| <= MAX_OLD
    ensures var echoed := Stamped(tags, mac);
      && Restorable(echoed) && RestoredMac(echoed) == mac
      && Restored(echoed)
         == (if OldValue(tags) == [] then [] else [Tag(RELAY_SID, OldValue(tags))]) + OthersThan(tags)
  {
    var t := Stamp(mac, OldValue(tags));
    RestoreUndoesStamp([], OthersThan(tags), mac, OldValue(tags));
    assert [] + [t] + OthersThan(tags) == Stamped(tags, mac);
    var front := if OldValue(tags) == [] then [] else [Tag(RELAY_SID, OldValue(tags))];
    assert [] + front + OthersThan(tags) == front + OthersThan(tags);
  }

  /** The tags come back as they were exactly when there was no relay tag, or one in front with a value. */
  lemma RoundTripExact(tags: seq<PppTag>, mac: seq<Byte>)
    requires |mac| == 6 && |OldValue(tags)| <= MAX_OLD
    ensures var k := FirstTag(tags, RELAY_SID);
      Restorable(Stamped(tags, mac))
      && (Restored(Stamped(tags, mac)) == tags <==> k == |tags| || (k == 0 && tags[0].data != []))
  {
    RoundTrip(tags, mac);
    var k := FirstTag(tags, RELAY_SID);
    if k == |tags| {
      assert [] + tags == tags;
    } else {
      MovedToFront(tags, k);
      if tags[k].data == [] {
        assert |[] + Delete(tags, k)| == |tags| - 1;
      } else {
        assert Tag(RELAY_SID, tags[k].data) == tags[k];
      }
    }
  }

  lemma MovedToFront(tags: seq<PppTag>, k: nat)
    requires k == FirstTag(tags, RELAY_SID) < |tags|
    ensures [tags[k]] + Delete(tags, k) == tags <==> k == 0
  {
    var r := [tags[k]] + Delete(tags, k);
    assert r[0].kind == RELAY_SID;
    if k == 0 { assert r == tags; }
  }

  /** How the size of the tags changes. */
  lemma StampedSize(tags: seq<PppTag>, mac: seq<Byte>)
    requires |mac| == 6 && |OldValue(tags)| <= MAX_OLD
    ensures |EncodeTags(Stamped(tags, mac))|
         == |EncodeTags(tags)| + if FirstTag(tags, RELAY_SID) < |tags| then 8 else 12
  {
    var k := FirstTag(tags, RELAY_SID);
    EncodeTagsConcat([Stamp(mac, OldValue(tags))], OthersThan(tags));
    EncodeTag(Stamp(mac, OldValue(tags)));
    if k < |tags| {
      EncodeTagAt(tags, k);
      EncodeTagsConcat(tags[..k], tags[k + 1..]);
    }
  }
}
