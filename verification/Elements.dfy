/** Information elements (section 9.4.2.1 of IEEE Std 802.11-2016): lists of elements, the
    bytes that carry them, and the operations the buffer code is compared with. */
module Elements {
  import opened Wrappers

  type Byte = x: int | 0 <= x < 256 witness 0

  /** Two octets as a number. */
  function Value16(hi: Byte, lo: Byte): nat { 256 * (hi as int) + lo }

  datatype RawElement = Element(id: Byte, body: seq<Byte>)

  type Elem = e: RawElement | |e.body| < 256 witness Element(0, [])

  function Bytes(e: Elem): seq<Byte> { [e.id, |e.body|] + e.body }

  function Encode(es: seq<Elem>): seq<Byte> {
    if es == [] then [] else Bytes(es[0]) + Encode(es[1..])
  }

  /** A complete element stands at the head of the bytes. */
  predicate HasHead(s: seq<Byte>) { |s| >= 2 && |s| - 2 >= s[1] }

  function Head(s: seq<Byte>): Elem
    requires HasHead(s)
  {
    var n: nat := s[1];
    Element(s[0], s[2..2 + n])
  }

  function Tail(s: seq<Byte>): seq<Byte>
    requires HasHead(s)
  {
    var n: nat := s[1];
    s[2 + n..]
  }

  /** The elements of a byte string that consists of complete elements. */
  function Decode(s: seq<Byte>): Option<seq<Elem>>
    decreases |s|
  {
    if s == [] then Some([])
    else if !HasHead(s) || Decode(Tail(s)).None? then None
    else Some([Head(s)] + Decode(Tail(s)).value)
  }

  lemma {:induction false} DecodeEncode(es: seq<Elem>)
    ensures Decode(Encode(es)) == Some(es)
  {
    if es != [] {
      EncodeHead(es);
      var s := Encode(es);
      assert Head(s) == es[0] && Tail(s) == Encode(es[1..]);
      DecodeEncode(es[1..]);
      assert [es[0]] + es[1..] == es;
    }
  }

  lemma {:induction false} EncodeDecode(s: seq<Byte>)
    requires Decode(s).Some?
    ensures Encode(Decode(s).value) == s
    decreases |s|
  {
    if s != [] {
      EncodeDecode(Tail(s));
      EncodeConcat([Head(s)], Decode(Tail(s)).value);
      EncodeOne(Head(s));
      HeadTail(s);
    }
  }

  lemma HeadTail(s: seq<Byte>)
    requires HasHead(s)
    ensures Bytes(Head(s)) + Tail(s) == s
  {}

  lemma EncodeHead(es: seq<Elem>)
    requires es != []
    ensures var s, n := Encode(es), 2 + |es[0].body|;
      && |s| >= n && s[0] == es[0].id && s[1] == |es[0].body| && s[2..n] == es[0].body
      && s[..n] == Bytes(es[0]) && s[n..] == Encode(es[1..])
  {}

  lemma EncodeSize(es: seq<Elem>)
    ensures |Encode(es)| == 0 <==> es == []
  {}

  lemma {:induction false} EncodeConcat(a: seq<Elem>, b: seq<Elem>)
    ensures Encode(a + b) == Encode(a) + Encode(b)
  {
    if a == [] {
      assert a + b == b;
    } else {
      assert (a + b)[1..] == a[1..] + b;
      EncodeConcat(a[1..], b);
    }
  }

  lemma EncodeOne(e: Elem)
    ensures Encode([e]) == Bytes(e)
  {}

  /** Element `k` in the middle of the bytes. */
  lemma EncodeAt(es: seq<Elem>, k: nat)
    requires k < |es|
    ensures Encode(es) == Encode(es[..k]) + Bytes(es[k]) + Encode(es[k + 1..])
  {
    assert es == es[..k] + es[k..];
    EncodeConcat(es[..k], es[k..]);
    EncodeHead(es[k..]);
  }

  lemma Assoc<T>(a: seq<T>, b: seq<T>, c: seq<T>)
    ensures (a + b) + c == a + (b + c)
  {}

  lemma Assoc4<T>(a: seq<T>, b: seq<T>, c: seq<T>, d: seq<T>)
    ensures a + (b + c + d) == a + b + c + d
  {}

  lemma SplitAt<T>(s: seq<T>, k: nat)
    requires k < |s|
    ensures s == s[..k] + [s[k]] + s[k + 1..]
  {}

  // ---------------------------------------------------------------- search and removal on lists

  /** What a search looks for: an element ID and, for vendor elements, the first octets of the body. */
  datatype Pattern = Pattern(id: Byte, oui: seq<Byte>)

  predicate Matches(e: Elem, p: Pattern) { e.id == p.id && p.oui <= e.body }

  /** The code compares the octets after the header without looking at the length. */
  predicate LongEnough(es: seq<Elem>, p: Pattern) {
    forall e :: e in es ==> e.id == p.id ==> |e.body| >= |p.oui|
  }

  /** The index of the first match, or the length of the list. */
  function First(es: seq<Elem>, p: Pattern): (k: nat)
    ensures k <= |es|
    ensures k < |es| ==> Matches(es[k], p)
    ensures forall j :: 0 <= j < k ==> !Matches(es[j], p)
  {
    if es == [] || Matches(es[0], p) then 0 else 1 + First(es[1..], p)
  }

  function Without(es: seq<Elem>, p: Pattern): seq<Elem> {
    if es == [] then []
    else (if Matches(es[0], p) then [] else [es[0]]) + Without(es[1..], p)
  }

  /** The list without the matches, found by going from match to match. */
  lemma {:induction false} WithoutFirst(es: seq<Elem>, p: Pattern)
    ensures var k := First(es, p);
      Without(es, p) == if k == |es| then es else es[..k] + Without(es[k + 1..], p)
  {
    if es != [] && !Matches(es[0], p) {
      WithoutFirst(es[1..], p);
      ConsAt(es, First(es[1..], p));
    }
  }

  lemma ConsAt(es: seq<Elem>, k: nat)
    requires k < |es|
    ensures es[..k + 1] == [es[0]] + es[1..][..k]
    ensures k + 1 < |es| ==> es[1..][k + 1..] == es[k + 2..]
  {}

  lemma ConsFront(es: seq<Elem>, k: nat, mid: seq<Elem>, tail: seq<Elem>)
    requires k < |es| - 1
    ensures [es[0]] + (es[1..][..k] + mid + tail) == es[..k + 1] + mid + tail
  {
    ConsAt(es, k);
    Assoc4([es[0]], es[1..][..k], mid, tail);
  }
}
