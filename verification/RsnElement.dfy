/** rtw_rsne_info_parse (core/rtw_ieee80211.c) and the RSN element of section 9.4.2.25 of IEEE Std 802.11-2016. */
module RsnElement {
  import opened Elements
  import opened Sequences
  import opened Wrappers

  /** A field of fixed size, or a 16-bit count (low octet first) of items of fixed size. */
  datatype Kind = Fixed(n: nat) | Counted(n: nat)

  type FieldKind = k: Kind | k.n == 2 || k.n == 4 || k.n == 16 witness Fixed(2)

  /** Group suite, pairwise suites, AKM suites, capabilities, PMKIDs, group management suite. */
  const FIELDS: seq<FieldKind> := [Fixed(4), Counted(4), Counted(4), Fixed(2), Counted(16), Fixed(4)]

  // ---------------------------------------------------------------- the fields, encoded and decoded

  predicate FieldFits(v: seq<Byte>, k: FieldKind) {
    if k.Fixed? then |v| == k.n else |v| % k.n == 0 && |v| / k.n < 65536
  }

  /** The contents `vals` of the first of the fields `ks`. */
  predicate Valid(vals: seq<seq<Byte>>, ks: seq<FieldKind>) {
    vals == [] || (ks != [] && FieldFits(vals[0], ks[0]) && Valid(vals[1..], ks[1..]))
  }

  function EncodeField(v: seq<Byte>, k: FieldKind): seq<Byte>
    requires FieldFits(v, k)
  {
    if k.Fixed? then v else [(|v| / k.n) % 256, (|v| / k.n) / 256] + v
  }

  function EncodeFields(vals: seq<seq<Byte>>, ks: seq<FieldKind>): seq<Byte>
    requires Valid(vals, ks)
    decreases |vals|
  {
    if vals == [] then [] else EncodeField(vals[0], ks[0]) + EncodeFields(vals[1..], ks[1..])
  }

  /** The size of the field that starts with these bytes, if it is complete. */
  function FieldSize(b: seq<Byte>, k: FieldKind): (n: Option<nat>)
    ensures n.Some? ==> 0 < n.value <= |b|
  {
    if k.Fixed? then if |b| < k.n then None else Some(k.n)
    else if |b| < 2 || |b| < 2 + k.n * Value16(b[1], b[0]) then None
    else Some(2 + k.n * Value16(b[1], b[0]))
  }

  /** Where its contents start. */
  function Lead(k: FieldKind): nat { if k.Fixed? then 0 else 2 }

  lemma FieldParts(b: seq<Byte>, k: FieldKind)
    requires FieldSize(b, k).Some?
    ensures var n, v := FieldSize(b, k).value, b[Lead(k)..FieldSize(b, k).value];
      FieldFits(v, k) && EncodeField(v, k) == b[..n] && b == EncodeField(v, k) + b[n..]
  {
    var n, v := FieldSize(b, k).value, b[Lead(k)..FieldSize(b, k).value];
    if k.Counted? { CountTimes(Value16(b[1], b[0]), k.n); }
    assert EncodeField(v, k) == b[..n];
  }

  lemma CountTimes(count: nat, n: nat)
    requires n == 2 || n == 4 || n == 16
    ensures n * count >= 0 && (n * count) % n == 0 && (n * count) / n == count
  {}

  /** The complete fields at the front of the bytes, and what is left behind them. */
  function SplitFields(b: seq<Byte>, ks: seq<FieldKind>): (r: (seq<seq<Byte>>, seq<Byte>))
    decreases |ks|
  {
    if ks == [] || FieldSize(b, ks[0]).None? then ([], b)
    else
      var n := FieldSize(b, ks[0]).value;
      var (vals, rest) := SplitFields(b[n..], ks[1..]);
      ([b[Lead(ks[0])..n]] + vals, rest)
  }

  lemma ConsTail<T>(x: T, s: seq<T>)
    ensures ([x] + s)[0] == x && ([x] + s)[1..] == s
  {}

  /** The split is a decomposition, and no further field is complete. */
  lemma {:induction false} SplitIsEncoding(b: seq<Byte>, ks: seq<FieldKind>)
    ensures var (vals, rest) := SplitFields(b, ks);
      && Valid(vals, ks) && b == EncodeFields(vals, ks) + rest
      && |vals| <= |ks| && (|vals| < |ks| ==> FieldSize(rest, ks[|vals|]).None?)
    decreases |ks|
  {
    if ks == [] || FieldSize(b, ks[0]).None? {
    } else {
      var n := FieldSize(b, ks[0]).value;
      var (vals, rest) := SplitFields(b[n..], ks[1..]);
      SplitIsEncoding(b[n..], ks[1..]);
      FieldParts(b, ks[0]);
      ConsTail(b[Lead(ks[0])..n], vals);
      Assoc(b[..n], EncodeFields(vals, ks[1..]), rest);
    }
  }

  /** Splitting takes exactly the fields that were encoded, however many there are. */
  lemma {:induction false} SplitEncode(vals: seq<seq<Byte>>, ks: seq<FieldKind>)
    requires Valid(vals, ks)
    ensures SplitFields(EncodeFields(vals, ks), ks) == (vals, [])
    decreases |vals|
  {
    if vals == [] {
      assert ks != [] ==> FieldSize([], ks[0]).None?;
    } else {
      FieldAtHead(vals[0], ks[0], EncodeFields(vals[1..], ks[1..]));
      SplitEncode(vals[1..], ks[1..]);
      assert [vals[0]] + vals[1..] == vals;
    }
  }

  lemma FieldAtHead(v: seq<Byte>, k: FieldKind, rest: seq<Byte>)
    requires FieldFits(v, k)
    ensures var b, n := EncodeField(v, k) + rest, |EncodeField(v, k)|;
      FieldSize(b, k) == Some(n) && b[Lead(k)..n] == v && b[n..] == rest
  {
    var b := EncodeField(v, k) + rest;
    if k.Counted? { assert Value16(b[1], b[0]) == |v| / k.n && k.n * (|v| / k.n) == |v|; }
  }

  // ---------------------------------------------------------------- what the parser does

  /** The slices of fields with these contents, the first of which starts at `pos`. */
  function SlicesOf(vals: seq<seq<Byte>>, ks: seq<FieldKind>, pos: nat): (r: seq<Slice>)
    requires |vals| <= |ks|
    ensures |r| == |vals|
    decreases |vals|
  {
    if vals == [] then []
    else
      var at := pos + Lead(ks[0]);
      [Slice(at, |vals[0]|)] + SlicesOf(vals[1..], ks[1..], at + |vals[0]|)
  }

  /** What may be left behind the complete fields: nothing; anything, behind the last field; and a
      count with no items behind it, which is dropped. */
  predicate Tolerated(rest: seq<Byte>, ks: seq<FieldKind>) {
    rest == [] || ks == [] || (ks[0].Counted? && |rest| == 2)
  }

  /** The rest of the parse, from the first of the fields `ks` at `pos`: the slices found, and success. */
  function ParseFrom(s: seq<Byte>, pos: nat, ks: seq<FieldKind>, found: seq<Slice>): (seq<Slice>, bool)
    requires pos <= |s|
    decreases |ks|
  {
    if ks == [] then (found, true)
    else
      var k := ks[0];
      if k.Fixed? then
        if |s| < pos + k.n then (found, |s| == pos) else ParseFrom(s, pos + k.n, ks[1..], found + [Slice(pos, k.n)])
      else if |s| < pos + 2 then (found, |s| == pos)
      else
        var n := k.n * Value16(s[pos + 1], s[pos]);
        if |s| < pos + 2 + n then (found, |s| == pos + 2)
        else ParseFrom(s, pos + 2 + n, ks[1..], found + [Slice(pos + 2, n)])
  }

  lemma ParseStep(s: seq<Byte>, pos: nat, ks: seq<FieldKind>, found: seq<Slice>)
    requires pos <= |s| && ks != []
    ensures var size := FieldSize(s[pos..], ks[0]);
      ParseFrom(s, pos, ks, found)
      == if size.None? then (found, Tolerated(s[pos..], ks))
         else ParseFrom(s, pos + size.value, ks[1..], found + [Slice(pos + Lead(ks[0]), size.value - Lead(ks[0]))])
  {
    if pos + 2 <= |s| { assert s[pos..][0] == s[pos] && s[pos..][1] == s[pos + 1]; }
  }

  /** The parser finds the complete fields, and fails exactly when what is left is not tolerated. */
  lemma {:induction false} ParseIsSplit(s: seq<Byte>, pos: nat, ks: seq<FieldKind>, found: seq<Slice>)
    requires pos <= |s|
    ensures var (vals, rest) := SplitFields(s[pos..], ks);
      && |vals| <= |ks|
      && ParseFrom(s, pos, ks, found) == (found + SlicesOf(vals, ks, pos), Tolerated(rest, ks[|vals|..]))
    decreases |ks|
  {
    if ks == [] {
      assert found + [] == found;
    } else {
      var b, size := s[pos..], FieldSize(s[pos..], ks[0]);
      ParseStep(s, pos, ks, found);
      if size.None? {
        assert found + [] == found && ks[0..] == ks;
      } else {
        ParseIsSplitNext(s, pos, ks, found, size.value);
      }
    }
  }

  lemma SlicesCons(v: seq<Byte>, vals: seq<seq<Byte>>, ks: seq<FieldKind>, pos: nat)
    requires |vals| < |ks|
    ensures SlicesOf([v] + vals, ks, pos)
         == [Slice(pos + Lead(ks[0]), |v|)] + SlicesOf(vals, ks[1..], pos + Lead(ks[0]) + |v|)
  {
    ConsTail(v, vals);
  }

  lemma {:induction false} ParseIsSplitNext(s: seq<Byte>, pos: nat, ks: seq<FieldKind>, found: seq<Slice>, n: nat)
    requires pos <= |s| && ks != [] && FieldSize(s[pos..], ks[0]) == Some(n)
    ensures var (vals, rest) := SplitFields(s[pos..], ks);
      && |vals| <= |ks|
      && ParseFrom(s, pos + n, ks[1..], found + [Slice(pos + Lead(ks[0]), n - Lead(ks[0]))])
         == (found + SlicesOf(vals, ks, pos), Tolerated(rest, ks[|vals|..]))
    decreases |ks|, 0
  {
    var b, v := s[pos..], s[pos..][Lead(ks[0])..n];
    var one := [Slice(pos + Lead(ks[0]), n - Lead(ks[0]))];
    assert b[n..] == s[pos + n..];
    ParseIsSplit(s, pos + n, ks[1..], found + one);
    var (vals, rest) := SplitFields(b[n..], ks[1..]);
    assert SplitFields(b, ks) == ([v] + vals, rest);
    SlicesCons(v, vals, ks, pos);
    Assoc(found, one, SlicesOf(vals, ks[1..], pos + n));
    assert ks[1..][|vals|..] == ks[|vals| + 1..];
  }

  /** The slices lie in order behind `pos`, without overlap and within the size of the encoding. */
  lemma {:induction false} SlicesInOrder(vals: seq<seq<Byte>>, ks: seq<FieldKind>, pos: nat, i: nat, j: nat)
    requires Valid(vals, ks) && |vals| <= |ks| && i <= j < |vals|
    ensures var r := SlicesOf(vals, ks, pos);
      && pos <= r[i].pos && r[j].pos + r[j].len <= pos + |EncodeFields(vals, ks)|
      && (i < j ==> r[i].pos + r[i].len <= r[j].pos)
    decreases j
  {
    var next := pos + |EncodeField(vals[0], ks[0])|;
    if j > 0 { SlicesInOrder(vals[1..], ks[1..], next, if i == 0 then 0 else i - 1, j - 1); }
  }

  /** A slice holds the contents of its field. */
  lemma {:induction false} SliceHolds(front: seq<Byte>, vals: seq<seq<Byte>>, ks: seq<FieldKind>, rest: seq<Byte>, j: nat)
    requires Valid(vals, ks) && |vals| <= |ks| && j < |vals|
    ensures var s, r := front + EncodeFields(vals, ks) + rest, SlicesOf(vals, ks, |front|)[j];
      r.pos + r.len <= |s| && s[r.pos..r.pos + r.len] == vals[j]
    decreases |vals|
  {
    var e, more := EncodeField(vals[0], ks[0]), EncodeFields(vals[1..], ks[1..]);
    Assoc(front, e, more);
    if j > 0 {
      SliceHolds(front + e, vals[1..], ks[1..], rest, j - 1);
    } else {
      Assoc(front + e, more, rest);
      ContentAt(front, vals[0], ks[0], more + rest);
    }
  }

  lemma ContentAt(front: seq<Byte>, v: seq<Byte>, k: FieldKind, rest: seq<Byte>)
    requires FieldFits(v, k)
    ensures var s, at := front + EncodeField(v, k) + rest, |front| + Lead(k);
      at + |v| == |front| + |EncodeField(v, k)| && s[at..at + |v|] == v
  {}

  // ---------------------------------------------------------------- whole elements

  /** struct rsne_info, with the position and the size of each field that is present. */
  datatype RsneInfo = RsneInfo(gcs: Option<Slice>, pcs: Option<Slice>, akm: Option<Slice>, cap: Option<Slice>,
                               pmkid: Option<Slice>, gmcs: Option<Slice>, err: bool)

  function Nth(slices: seq<Slice>, i: nat): Option<Slice> { if i < |slices| then Some(slices[i]) else None }

  function InfoOf(slices: seq<Slice>, ok: bool): RsneInfo {
    RsneInfo(Nth(slices, 0), Nth(slices, 1), Nth(slices, 2), Nth(slices, 3), Nth(slices, 4), Nth(slices, 5), !ok)
  }

  predicate HeaderOk(s: seq<Byte>) { |s| >= 4 && s[0] == 48 && s[1] == |s| - 2 }

  /** The element with this version and these first fields. */
  function Rsne(version: seq<Byte>, vals: seq<seq<Byte>>): (s: seq<Byte>)
    requires |version| == 2 && Valid(vals, FIELDS) && 2 + |EncodeFields(vals, FIELDS)| < 256
    ensures HeaderOk(s) && s[4..] == EncodeFields(vals, FIELDS)
  {
    [48, 2 + |EncodeFields(vals, FIELDS)|] + version + EncodeFields(vals, FIELDS)
  }

  /** The parser returns exactly the fields that were encoded behind `head`. */
  lemma ParseEncoded(head: seq<Byte>, vals: seq<seq<Byte>>, ks: seq<FieldKind>)
    requires Valid(vals, ks) && |vals| <= |ks|
    ensures ParseFrom(head + EncodeFields(vals, ks), |head|, ks, []) == (SlicesOf(vals, ks, |head|), true)
  {
    var s := head + EncodeFields(vals, ks);
    assert s[|head|..] == EncodeFields(vals, ks);
    ParseIsSplit(s, |head|, ks, []);
    SplitEncode(vals, ks);
    assert [] + SlicesOf(vals, ks, |head|) == SlicesOf(vals, ks, |head|);
  }

  lemma {:induction false} ValidSize(vals: seq<seq<Byte>>, ks: seq<FieldKind>)
    requires Valid(vals, ks)
    ensures |vals| <= |ks|
  {
    if vals != [] { ValidSize(vals[1..], ks[1..]); }
  }

  /** An element that is cut after any field is parsed into exactly the fields that it has. */
  lemma RoundTrip(version: seq<Byte>, vals: seq<seq<Byte>>, j: nat)
    requires |version| == 2 && Valid(vals, FIELDS) && 2 + |EncodeFields(vals, FIELDS)| < 256 && j < |vals|
    ensures var s, (slices, ok) := Rsne(version, vals), ParseFrom(Rsne(version, vals), 4, FIELDS, []);
      && ok && |slices| == |vals| && slices[j].pos + slices[j].len <= |s|
      && s[slices[j].pos..slices[j].pos + slices[j].len] == vals[j]
  {
    var s := Rsne(version, vals);
    var head, e := s[..4], EncodeFields(vals, FIELDS);
    ValidSize(vals, FIELDS);
    assert s == head + e && s == head + e + [];
    ParseEncoded(head, vals, FIELDS);
    SliceHolds(head, vals, FIELDS, [], j);
  }

  /** Whatever the input, the slices lie inside it, in order and without overlap. */
  lemma ParsedInOrder(s: seq<Byte>, pos: nat, ks: seq<FieldKind>, i: nat, j: nat)
    requires pos <= |s|
    ensures var slices := ParseFrom(s, pos, ks, []).0;
      && |slices| <= |ks|
      && (i < |slices| ==> pos <= slices[i].pos && slices[i].pos + slices[i].len <= |s|)
      && (i < j < |slices| ==> slices[i].pos + slices[i].len <= slices[j].pos)
  {
    var (vals, rest) := SplitFields(s[pos..], ks);
    ParseIsSplit(s, pos, ks, []);
    SplitIsEncoding(s[pos..], ks);
    assert [] + SlicesOf(vals, ks, pos) == SlicesOf(vals, ks, pos);
    Assoc(s[..pos], EncodeFields(vals, ks), rest);
    assert s == s[..pos] + s[pos..];
    if i < |vals| { SlicesInOrder(vals, ks, pos, i, i); }
    if i < j < |vals| { SlicesInOrder(vals, ks, pos, i, j); }
  }

  /** An element is accepted exactly when it is an encoding with a tolerated rest. */
  lemma Accepted(s: seq<Byte>)
    requires |s| >= 4
    ensures ParseFrom(s, 4, FIELDS, []).1 <==>
      exists vals, rest :: Encoded(s[4..], vals, rest) && Tolerated(rest, FIELDS[|vals|..])
  {
    ParseIsSplit(s, 4, FIELDS, []);
    SplitIsEncoding(s[4..], FIELDS);
    var (vals, rest) := SplitFields(s[4..], FIELDS);
    assert Encoded(s[4..], vals, rest);
    forall vals', rest' | Encoded(s[4..], vals', rest') ensures vals' == vals && rest' == rest {
      SplitUnique(vals', rest', FIELDS);
    }
  }

  /** The complete fields that are there, and a rest at the head of which no further field is complete. */
  ghost predicate Encoded(b: seq<Byte>, vals: seq<seq<Byte>>, rest: seq<Byte>) {
    && |vals| <= |FIELDS| && Valid(vals, FIELDS) && b == EncodeFields(vals, FIELDS) + rest
    && (|vals| < |FIELDS| ==> FieldSize(rest, FIELDS[|vals|]).None?)
  }

  lemma {:induction false} SplitUnique(vals: seq<seq<Byte>>, rest: seq<Byte>, ks: seq<FieldKind>)
    requires |vals| <= |ks| && Valid(vals, ks) && (|vals| < |ks| ==> FieldSize(rest, ks[|vals|]).None?)
    ensures SplitFields(EncodeFields(vals, ks) + rest, ks) == (vals, rest)
    decreases |vals|
  {
    if vals == [] {
      assert EncodeFields(vals, ks) + rest == rest;
    } else {
      var more := EncodeFields(vals[1..], ks[1..]);
      FieldAtHead(vals[0], ks[0], more + rest);
      Assoc(EncodeField(vals[0], ks[0]), more, rest);
      SplitUnique(vals[1..], rest, ks[1..]);
      assert [vals[0]] + vals[1..] == vals;
    }
  }

  /** A pairwise count of 1 with no suite behind it: the parser succeeds and the count is lost. */
  lemma CountDropped()
    ensures var s: seq<Byte> := [48, 8, 1, 0, 0, 15, 172, 4, 1, 0];
      HeaderOk(s) && ParseFrom(s, 4, FIELDS, []) == ([Slice(4, 4)], true)
  {
    var s: seq<Byte> := [48, 8, 1, 0, 0, 15, 172, 4, 1, 0];
    assert FIELDS[1..][0] == Counted(4) && [] + [Slice(4, 4)] == [Slice(4, 4)];
    assert ParseFrom(s, 4, FIELDS, []) == ParseFrom(s, 8, FIELDS[1..], [Slice(4, 4)]);
  }

  /** One stage of the parser: the field of kind `ks[0]` at `pos`. */
  method ParseField(buf: array<Byte>, ie: nat, ieLen: nat, pos: nat, k: FieldKind,
                    ghost s: seq<Byte>, ghost ks: seq<FieldKind>, ghost found: seq<Slice>)
    returns (more: bool, ok: bool, field: Option<Slice>, next: nat)
    requires ie + ieLen <= buf.Length && buf[ie..ie + ieLen] == s && pos <= ieLen && ks != [] && k == ks[0]
    ensures more <==> field.Some?
    ensures !more ==> ParseFrom(s, pos, ks, found) == (found, ok)
    ensures more ==> next <= ieLen && ParseFrom(s, pos, ks, found) == ParseFrom(s, next, ks[1..], found + [field.value])
  {
    more, ok, field, next := false, false, None, pos;
    var n := k.n;
    if k.Counted? {
      if ieLen < pos + 2 {
        ok := ieLen == pos;
        return;
      }
      assert buf[ie + pos] == s[pos] && buf[ie + pos + 1] == s[pos + 1];
      n := k.n * Value16(buf[ie + pos + 1], buf[ie + pos]);
      next := pos + 2;
    }
    if ieLen < next + n {
      ok := ieLen == next;
      return;
    }
    more, field, next := true, Some(Slice(next, n)), next + n;
  }

  /** rtw_rsne_info_parse on the octets `s`. */
  method RsneInfoParse(buf: array<Byte>, ie: nat, ieLen: nat, ghost s: seq<Byte>) returns (ok: bool, info: RsneInfo)
    requires ie + ieLen <= buf.Length && buf[ie..ie + ieLen] == s
    ensures info.err == !ok
    ensures !HeaderOk(s) ==> !ok && info == InfoOf([], false)
    ensures HeaderOk(s) ==>
      ok == ParseFrom(s, 4, FIELDS, []).1 && info == InfoOf(ParseFrom(s, 4, FIELDS, []).0, ok)
  {
    ok, info := false, InfoOf([], false);
    if ieLen < 4 { return; }
    assert buf[ie] == s[0] && buf[ie + 1] == s[1];
    if buf[ie] != 48 || buf[ie + 1] != ieLen - 2 { return; }
    var pos: nat, more, field := 4, true, None;
    ghost var found := [];
    more, ok, field, pos := ParseField(buf, ie, ieLen, pos, Fixed(4), s, FIELDS, found);
    if !more { return ok, info.(err := !ok); }
    info, found := info.(gcs := field), found + [field.value];
    more, ok, field, pos := ParseField(buf, ie, ieLen, pos, Counted(4), s, FIELDS[1..], found);
    if !more { return ok, info.(err := !ok); }
    info, found := info.(pcs := field), found + [field.value];
    more, ok, field, pos := ParseField(buf, ie, ieLen, pos, Counted(4), s, FIELDS[1..][1..], found);
    if !more { return ok, info.(err := !ok); }
    info, found := info.(akm := field), found + [field.value];
    ok, info := ParseLaterFields(buf, ie, ieLen, pos, info, s, FIELDS[1..][1..][1..], found);
  }

  /** The last three stages. */
  method ParseLaterFields(buf: array<Byte>, ie: nat, ieLen: nat, at: nat, before: RsneInfo,
                          ghost s: seq<Byte>, ghost ks: seq<FieldKind>, ghost found0: seq<Slice>)
    returns (ok: bool, info: RsneInfo)
    requires ie + ieLen <= buf.Length && buf[ie..ie + ieLen] == s && at <= ieLen && ks == [Fixed(2), Counted(16), Fixed(4)]
    requires |found0| == 3 && before == InfoOf(found0, false)
    ensures ok == ParseFrom(s, at, ks, found0).1 && info == InfoOf(ParseFrom(s, at, ks, found0).0, ok)
  {
    var pos, more, field := at, true, None;
    ghost var found := found0;
    info := before;
    more, ok, field, pos := ParseField(buf, ie, ieLen, pos, Fixed(2), s, ks, found);
    if !more { return ok, info.(err := !ok); }
    info, found := info.(cap := field), found + [field.value];
    more, ok, field, pos := ParseField(buf, ie, ieLen, pos, Counted(16), s, ks[1..], found);
    if !more { return ok, info.(err := !ok); }
    info, found := info.(pmkid := field), found + [field.value];
    more, ok, field, pos := ParseField(buf, ie, ieLen, pos, Fixed(4), s, ks[1..][1..], found);
    if !more { return ok, info.(err := !ok); }
    info := info.(gmcs := field, err := false);
    ok := true;
  }
}
