/** The RSN element by the names of its fields (section 9.4.2.25 of IEEE Std 802.11-2016). */
module RsnFields {
  import opened Elements
  import opened RsnElement
  import opened Sequences
  import opened Wrappers

  /** What an element holds: octets of the selectors and keys, without the counts. */
  datatype Content = Content(groupCipher: Option<seq<Byte>>, pairwiseCiphers: Option<seq<Byte>>, akms: Option<seq<Byte>>,
                             capabilities: Option<seq<Byte>>, pmkids: Option<seq<Byte>>, groupManagement: Option<seq<Byte>>)

  predicate Suite(v: seq<Byte>) { |v| == 4 }

  /** A list of items of `n` octets, whose number fits in 16 bits. */
  predicate ListOf(v: seq<Byte>, n: nat)
    requires n > 0
  {
    |v| % n == 0 && |v| / n < 65536
  }

  /** A field may only be there if all before it are. */
  predicate WellFormed(c: Content) {
    && (c.groupCipher.Some? ==> Suite(c.groupCipher.value))
    && (c.pairwiseCiphers.Some? ==> c.groupCipher.Some? && ListOf(c.pairwiseCiphers.value, 4))
    && (c.akms.Some? ==> c.pairwiseCiphers.Some? && ListOf(c.akms.value, 4))
    && (c.capabilities.Some? ==> c.akms.Some? && |c.capabilities.value| == 2)
    && (c.pmkids.Some? ==> c.capabilities.Some? && ListOf(c.pmkids.value, 16))
    && (c.groupManagement.Some? ==> c.pmkids.Some? && Suite(c.groupManagement.value))
  }

  function Plain(f: Option<seq<Byte>>): seq<Byte> { if f.None? then [] else f.value }

  /** A list with its count in front, low octet first. */
  function Listed(f: Option<seq<Byte>>, n: nat): seq<Byte>
    requires n > 0 && (f.Some? ==> ListOf(f.value, n))
  {
    if f.None? then [] else var m := |f.value| / n; [m % 256, m / 256] + f.value
  }

  function ContentBytes(c: Content): seq<Byte>
    requires WellFormed(c)
  {
    Plain(c.groupCipher)
    + (Listed(c.pairwiseCiphers, 4)
       + (Listed(c.akms, 4) + (Plain(c.capabilities) + (Listed(c.pmkids, 16) + Plain(c.groupManagement)))))
  }

  // ---------------------------------------------------------------- the fields in order

  /** The contents in order, as far as there are any; the later ones are `more`. */
  function Before(f: Option<seq<Byte>>, more: seq<seq<Byte>>): seq<seq<Byte>> { if f.None? then [] else [f.value] + more }

  function FieldBytes(f: Option<seq<Byte>>, k: FieldKind): seq<Byte>
    requires f.Some? ==> FieldFits(f.value, k)
  {
    if f.None? then [] else EncodeField(f.value, k)
  }

  lemma OneField(f: Option<seq<Byte>>, k: FieldKind, more: seq<seq<Byte>>, ks: seq<FieldKind>, bytes: seq<Byte>)
    requires Valid(more, ks) && EncodeFields(more, ks) == bytes
    requires if f.None? then bytes == [] else FieldFits(f.value, k)
    ensures Valid(Before(f, more), [k] + ks) && EncodeFields(Before(f, more), [k] + ks) == FieldBytes(f, k) + bytes
  {
    assert ([k] + ks)[1..] == ks;
    if f.Some? { assert ([f.value] + more)[1..] == more; }
  }

  function Values(c: Content): seq<seq<Byte>> {
    Before(c.groupCipher, Before(c.pairwiseCiphers, Before(c.akms,
      Before(c.capabilities, Before(c.pmkids, Before(c.groupManagement, []))))))
  }

  lemma ValuesEncode(c: Content)
    requires WellFormed(c)
    ensures Valid(Values(c), FIELDS) && EncodeFields(Values(c), FIELDS) == ContentBytes(c)
  {
    var v5 := Before(c.groupManagement, []);
    var b5 := Plain(c.groupManagement);
    var v4, b4 := Before(c.pmkids, v5), Listed(c.pmkids, 16) + b5;
    var v3, b3 := Before(c.capabilities, v4), Plain(c.capabilities) + b4;
    var v2, b2 := Before(c.akms, v3), Listed(c.akms, 4) + b3;
    var v1, b1 := Before(c.pairwiseCiphers, v2), Listed(c.pairwiseCiphers, 4) + b2;
    var k5: seq<FieldKind> := [Fixed(4)];
    var k4: seq<FieldKind> := [Counted(16)] + k5;
    var k3: seq<FieldKind> := [Fixed(2)] + k4;
    var k2: seq<FieldKind> := [Counted(4)] + k3;
    var k1: seq<FieldKind> := [Counted(4)] + k2;
    OneField(c.groupManagement, Fixed(4), [], [], []);
    assert [Fixed(4)] + [] == k5 && FieldBytes(c.groupManagement, Fixed(4)) + [] == b5;
    OneField(c.pmkids, Counted(16), v5, k5, b5);
    OneField(c.capabilities, Fixed(2), v4, k4, b4);
    OneField(c.akms, Counted(4), v3, k3, b3);
    OneField(c.pairwiseCiphers, Counted(4), v2, k2, b2);
    OneField(c.groupCipher, Fixed(4), v1, k1, b1);
    assert [Fixed(4)] + k1 == FIELDS;
  }

  /** Contents `j` is there exactly if field `j` is. */
  lemma ValuesAt(c: Content)
    requires WellFormed(c)
    ensures var vals := Values(c);
      && At(vals, 0) == c.groupCipher && At(vals, 1) == c.pairwiseCiphers && At(vals, 2) == c.akms
      && At(vals, 3) == c.capabilities && At(vals, 4) == c.pmkids && At(vals, 5) == c.groupManagement
  {
    if c.groupManagement.Some? {
      assert Values(c) == [c.groupCipher.value, c.pairwiseCiphers.value, c.akms.value, c.capabilities.value,
                           c.pmkids.value, c.groupManagement.value];
    } else if c.pmkids.Some? {
      assert Values(c) == [c.groupCipher.value, c.pairwiseCiphers.value, c.akms.value, c.capabilities.value, c.pmkids.value];
    } else if c.capabilities.Some? {
      assert Values(c) == [c.groupCipher.value, c.pairwiseCiphers.value, c.akms.value, c.capabilities.value];
    } else if c.akms.Some? {
      assert Values(c) == [c.groupCipher.value, c.pairwiseCiphers.value, c.akms.value];
    } else if c.pairwiseCiphers.Some? {
      assert Values(c) == [c.groupCipher.value, c.pairwiseCiphers.value];
    }
  }

  function At(vals: seq<seq<Byte>>, j: nat): Option<seq<Byte>> { if j < |vals| then Some(vals[j]) else None }

  // ---------------------------------------------------------------- the round trip

  /** The element with this version and these contents. */
  function Rsn(version: seq<Byte>, c: Content): seq<Byte>
    requires |version| == 2 && WellFormed(c) && 2 + |ContentBytes(c)| < 256
  {
    [48, 2 + |ContentBytes(c)|] + version + ContentBytes(c)
  }

  /** The slice is there exactly if the field is, and holds its octets. */
  predicate Recorded(s: seq<Byte>, at: Option<Slice>, f: Option<seq<Byte>>) {
    && (at.Some? <==> f.Some?)
    && (at.Some? ==> at.value.pos + at.value.len <= |s| && s[at.value.pos..at.value.pos + at.value.len] == f.value)
  }

  lemma NthRecorded(version: seq<Byte>, vals: seq<seq<Byte>>, j: nat)
    requires |version| == 2 && Valid(vals, FIELDS) && 2 + |EncodeFields(vals, FIELDS)| < 256
    ensures Recorded(Rsne(version, vals), Nth(ParseFrom(Rsne(version, vals), 4, FIELDS, []).0, j), At(vals, j))
  {
    if j < |vals| {
      RoundTrip(version, vals, j);
    } else if |vals| > 0 {
      RoundTrip(version, vals, 0);
    } else {
      ParseEncoded(Rsne(version, vals)[..4], vals, FIELDS);
      assert Rsne(version, vals) == Rsne(version, vals)[..4] + EncodeFields(vals, FIELDS);
    }
  }

  /** An element that is cut after any field is accepted, and each field of the info is there exactly if it was
      encoded, and holds its octets. */
  lemma InfoRoundTrip(version: seq<Byte>, c: Content)
    requires |version| == 2 && WellFormed(c) && 2 + |ContentBytes(c)| < 256
    ensures var s := Rsn(version, c);
      var (slices, ok) := ParseFrom(s, 4, FIELDS, []);
      var info := InfoOf(slices, ok);
      && HeaderOk(s) && ok && !info.err
      && Recorded(s, info.gcs, c.groupCipher) && Recorded(s, info.pcs, c.pairwiseCiphers) && Recorded(s, info.akm, c.akms)
      && Recorded(s, info.cap, c.capabilities) && Recorded(s, info.pmkid, c.pmkids)
      && Recorded(s, info.gmcs, c.groupManagement)
  {
    var vals := Values(c);
    ValuesEncode(c);
    ValuesAt(c);
    assert Rsn(version, c) == Rsne(version, vals);
    ParseEncoded(Rsne(version, vals)[..4], vals, FIELDS);
    assert Rsne(version, vals) == Rsne(version, vals)[..4] + EncodeFields(vals, FIELDS);
    NthRecorded(version, vals, 0);
    NthRecorded(version, vals, 1);
    NthRecorded(version, vals, 2);
    NthRecorded(version, vals, 3);
    NthRecorded(version, vals, 4);
    NthRecorded(version, vals, 5);
  }

  /** The same of what the parser returns on the buffer. */
  method ParseContent(buf: array<Byte>, ie: nat, version: seq<Byte>, c: Content) returns (info: RsneInfo)
    requires |version| == 2 && WellFormed(c) && 2 + |ContentBytes(c)| < 256
    requires var n := |Rsn(version, c)|; ie + n <= buf.Length && buf[ie..ie + n] == Rsn(version, c)
    ensures var s := Rsn(version, c);
      && !info.err
      && Recorded(s, info.gcs, c.groupCipher) && Recorded(s, info.pcs, c.pairwiseCiphers) && Recorded(s, info.akm, c.akms)
      && Recorded(s, info.cap, c.capabilities) && Recorded(s, info.pmkid, c.pmkids)
      && Recorded(s, info.gmcs, c.groupManagement)
  {
    InfoRoundTrip(version, c);
    var ok;
    ok, info := RsneInfoParse(buf, ie, |Rsn(version, c)|, Rsn(version, c));
  }
}
