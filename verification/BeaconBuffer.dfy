/** update_BCNTIM, rtw_add_bcn_ie and rtw_remove_bcn_ie on the buffer of a beacon (core/rtw_ap.c).
    The buffer holds the fixed part, the elements, and free room.  The memory for the copy of the
    remainder is taken to be available. */
module BeaconBuffer {
  import opened BeaconList
  import opened Bss
  import opened Buffers
  import opened Elements
  import opened InfoElements
  import opened TimElement

  const FIXED_IE_LENGTH: nat := 12

  ghost predicate Holds(s: seq<Byte>, len: nat, fixed: seq<Byte>, es: seq<Elem>, room: seq<Byte>) {
    s == fixed + Encode(es) + room && |fixed| == FIXED_IE_LENGTH && len == |fixed| + |Encode(es)|
  }

  /** The bytes up to element `k`, and the elements from there on. */
  lemma CutAt(s: seq<Byte>, len: nat, fixed: seq<Byte>, es: seq<Elem>, room: seq<Byte>, k: nat)
    requires Holds(s, len, fixed, es, room) && k <= |es|
    ensures var at := |fixed| + |Encode(es[..k])|;
      && at <= len <= |s| && s[at..len] == Encode(es[k..])
      && s == (fixed + Encode(es[..k])) + (Encode(es[k..]) + room)
  {
    var a, b := Encode(es[..k]), Encode(es[k..]);
    EncodeSplit(es, k);
    Assoc(fixed, a, b);
    Assoc(fixed + a, b, room);
    Between(fixed + a, b, room);
  }

  lemma Between(a: seq<Byte>, b: seq<Byte>, c: seq<Byte>)
    ensures (a + b + c)[|a|..|a| + |b|] == b
  {}

  /** The parts of the new list, put together. */
  lemma Joined(s: seq<Byte>, len: nat, fixed: seq<Byte>, a: seq<Elem>, mid: seq<Elem>, b: seq<Elem>, room: seq<Byte>)
    requires |fixed| == FIXED_IE_LENGTH && len == |fixed| + |Encode(a)| + |Encode(mid)| + |Encode(b)|
    requires s == (fixed + Encode(a)) + Encode(mid) + Encode(b) + room
    ensures Holds(s, len, fixed, a + mid + b, room)
  {
    EncodeConcat(a, mid);
    EncodeConcat(a + mid, b);
    Assoc(fixed, Encode(a), Encode(mid));
    Assoc(fixed, Encode(a) + Encode(mid), Encode(b));
  }

  /** The common tail of the functions: copy what follows `src` aside, write `data` at `dst`, copy back. */
  method Splice(bss: WlanBssidEx, dst: nat, src: nat, data: seq<Byte>, ghost fixed: seq<Byte>, ghost es: seq<Elem>,
                ghost room: seq<Byte>, ghost k: nat, ghost k2: nat, ghost mid: seq<Elem>)
    returns (ghost room': seq<Byte>)
    requires Holds(bss.IEs[..], bss.IELength, fixed, es, room) && k <= k2 <= |es| && data == Encode(mid)
    requires dst == |fixed| + |Encode(es[..k])| && src == |fixed| + |Encode(es[..k2])|
    requires dst + |data| + |Encode(es[k2..])| <= bss.IEs.Length
    modifies bss`IELength, bss.IEs
    ensures Holds(bss.IEs[..], bss.IELength, fixed, es[..k] + mid + es[k2..], room')
  {
    CutAt(bss.IEs[..], bss.IELength, fixed, es, room, k);
    CutAt(bss.IEs[..], bss.IELength, fixed, es, room, k2);
    var backup := bss.IEs[src..bss.IELength];
    ghost var front, tail := fixed + Encode(es[..k]), Encode(es[k2..]);
    room' := Overwrite(bss.IEs, dst, data, front, Encode(es[k..]) + room);
    room' := Overwrite(bss.IEs, dst + |data|, backup, front + data, room');
    bss.IELength := dst + |data| + |backup|;
    Joined(bss.IEs[..], bss.IELength, fixed, es[..k], mid, es[k2..], room');
  }

  /** rtw_remove_bcn_ie */
  method RemoveBcnIe(bss: WlanBssidEx, index: Byte, ghost fixed: seq<Byte>, ghost es: seq<Elem>, ghost room: seq<Byte>)
    returns (ghost room': seq<Byte>)
    requires Holds(bss.IEs[..], bss.IELength, fixed, es, room)
    modifies bss`IELength, bss.IEs
    ensures Holds(bss.IEs[..], bss.IELength, fixed, RemoveIe(es, index), room')
  {
    var found, p, ielen;
    ghost var k;
    room' := room;
    found, p, ielen, k := GetIe(bss.IEs, FIXED_IE_LENGTH, bss.IELength - FIXED_IE_LENGTH, index, fixed, es, room);
    if !found || ielen == 0 { return; }
    Prefix(es, k);
    room' := Splice(bss, p, p + 2 + ielen, [], fixed, es, room, k, k + 1, []);
    assert es[..k] + [] == es[..k];
  }

  lemma Prefix(es: seq<Elem>, k: nat)
    requires k < |es|
    ensures |Encode(es[..k + 1])| == |Encode(es[..k])| + 2 + |es[k].body|
    ensures |Encode(es)| == |Encode(es[..k + 1])| + |Encode(es[k + 1..])|
  {
    EncodePrefix(es, k);
    EncodeSplit(es, k + 1);
  }

  /** The scan of rtw_add_bcn_ie: where the last element is that was looked at, and how long its body is. */
  method Scan(bss: WlanBssidEx, index: Byte, ghost fixed: seq<Byte>, ghost es: seq<Elem>, ghost room: seq<Byte>)
    returns (seen: bool, p: nat, ielen: nat, hit: bool, ghost k: nat)
    requires Holds(bss.IEs[..], bss.IELength, fixed, es, room)
    ensures k == StopAt(es, index)
    ensures var stop := StopAt(es, index); (hit <==> stop < |es| && es[stop].id == index) && (seen <==> hit || stop > 0)
    ensures seen ==>
      var j := if hit then StopAt(es, index) else StopAt(es, index) - 1;
      p == |fixed| + |Encode(es[..j])| && ielen == |es[j].body|
  {
    var i := FIXED_IE_LENGTH;
    ghost var stop := StopAt(es, index);
    seen, p, ielen, hit, k := false, 0, 0, false, 0;
    PassedNone(bss.IEs[..], fixed, es, room);
    while i < bss.IELength
      invariant i >= |fixed| && Passed(bss.IEs[..], fixed, es, room, k, i - |fixed|) && k <= stop
      invariant seen <==> k > 0
      invariant seen ==> p == |fixed| + |Encode(es[..k - 1])| && ielen == |es[k - 1].body|
      decreases bss.IELength - i
    {
      PeekAt(bss.IEs[..], fixed, es, room, k, i - |fixed|);
      if bss.IEs[i] > index { return; }
      if bss.IEs[i] == index {
        seen, p, ielen, hit := true, i, bss.IEs[i + 1], true;
        return;
      }
      seen, p, ielen := true, i, bss.IEs[i + 1];
      i := i + ielen + 2;
      k := k + 1;
    }
    PassedAll(es, k);
  }

  /** rtw_add_bcn_ie; there must be room for the new list. */
  method AddBcnIe(bss: WlanBssidEx, index: Byte, data: seq<Byte>,
                  ghost fixed: seq<Byte>, ghost es: seq<Elem>, ghost room: seq<Byte>)
    returns (ghost room': seq<Byte>)
    requires |data| < 256 && Holds(bss.IEs[..], bss.IELength, fixed, es, room)
    requires FIXED_IE_LENGTH + |Encode(AddIe(es, Element(index, data)))| <= bss.IEs.Length
    modifies bss`IELength, bss.IEs
    ensures Holds(bss.IEs[..], bss.IELength, fixed, AddIe(es, Element(index, data)), room')
  {
    var seen, p, ielen, bmatch;
    ghost var k, e: Elem;
    e := Element(index, data);
    room' := room;
    seen, p, ielen, bmatch, k := Scan(bss, index, fixed, es, room);
    if !seen || ielen == 0 { return; }
    EncodeOne(e);
    var next := p + 2 + ielen;
    if bmatch {
      Prefix(es, k);
      NewSize(es[..k], e, es[k + 1..]);
      room' := Splice(bss, p, next, [index, |data|] + data, fixed, es, room, k, k + 1, [e]);
    } else {
      Prefix(es, k - 1);
      NewSize(es[..k], e, es[k..]);
      room' := Splice(bss, next, next, [index, |data|] + data, fixed, es, room, k, k, [e]);
    }
  }

  lemma NewSize(a: seq<Elem>, e: Elem, b: seq<Elem>)
    ensures |Encode(a + [e] + b)| == |Encode(a)| + 2 + |e.body| + |Encode(b)|
  {
    EncodeAround(a, e, b);
  }

  /** The size of the first element with this ID, if there is one. */
  method SizeOf(bss: WlanBssidEx, id: Byte, ghost fixed: seq<Byte>, ghost es: seq<Elem>, ghost room: seq<Byte>)
    returns (size: nat)
    requires Holds(bss.IEs[..], bss.IELength, fixed, es, room)
    ensures size == FirstSize(es, id)
  {
    var found, p, len;
    ghost var j;
    found, p, len, j := GetIe(bss.IEs, FIXED_IE_LENGTH, bss.IELength - FIXED_IE_LENGTH, id, fixed, es, room);
    size := if found then len + 2 else 0;
  }

  /** Where update_BCNTIM puts the element: on an existing one, or at the offset computed from SSID and rates. */
  method PlaceForTim(bss: WlanBssidEx, ghost fixed: seq<Byte>, ghost es: seq<Elem>, ghost room: seq<Byte>)
    returns (dst: nat, src: nat)
    requires Holds(bss.IEs[..], bss.IELength, fixed, es, room) && (HasTim(es) || TimOffset(es) <= |Encode(es)|)
    ensures dst == |fixed| + |Front(es)| && src + |Back(es)| == bss.IELength
    ensures dst <= src && bss.IEs[..] == fixed + Front(es) + bss.IEs[..][dst..]
    ensures bss.IEs[..][src..] == Back(es) + room
  {
    var found, p, len;
    ghost var k;
    found, p, len, k := GetIe(bss.IEs, FIXED_IE_LENGTH, bss.IELength - FIXED_IE_LENGTH, 5, fixed, es, room);
    if found && len > 0 {
      Prefix(es, k);
      dst, src := p, p + 2 + len;
      CutAround(bss.IEs[..], bss.IELength, fixed, es, room, dst, src);
    } else {
      var ssid := SizeOf(bss, 0, fixed, es, room);
      var rates := SizeOf(bss, 1, fixed, es, room);
      var offset := FIXED_IE_LENGTH + ssid + rates + 3;
      dst, src := offset, offset;
      CutInside(bss.IEs[..], fixed, Encode(es), TimOffset(es), room);
    }
  }

  lemma CutAround(s: seq<Byte>, len: nat, fixed: seq<Byte>, es: seq<Elem>, room: seq<Byte>, dst: nat, src: nat)
    requires Holds(s, len, fixed, es, room) && HasTim(es)
    requires dst == |fixed| + |Encode(es[..First(es, TIM)])| && src == |fixed| + |Encode(es[..First(es, TIM) + 1])|
    ensures dst == |fixed| + |Front(es)| && dst <= src <= |s| && src + |Back(es)| == len
    ensures s == fixed + Front(es) + s[dst..] && s[src..] == Back(es) + room
  {
    var k := First(es, TIM);
    Prefix(es, k);
    CutAt(s, len, fixed, es, room, k);
    CutAt(s, len, fixed, es, room, k + 1);
  }

  lemma CutInside(s: seq<Byte>, fixed: seq<Byte>, e: seq<Byte>, n: nat, room: seq<Byte>)
    requires s == fixed + e + room && n <= |e|
    ensures s == fixed + e[..n] + s[|fixed| + n..] && s[|fixed| + n..] == e[n..] + room
  {
    assert e == e[..n] + e[n..];
    Assoc(fixed, e[..n], e[n..]);
    Assoc(fixed + e[..n], e[n..], room);
  }

  /** update_BCNTIM; the offset must not be behind the list, and there must be room for the largest element
      of the bitmap. */
  method UpdateBcnTim(bss: WlanBssidEx, bitmap: seq<Byte>, ghost fixed: seq<Byte>, ghost es: seq<Elem>, ghost room: seq<Byte>)
    returns (ghost room': seq<Byte>, ghost n1: nat, ghost n2: nat)
    requires Holds(bss.IEs[..], bss.IELength, fixed, es, room) && (HasTim(es) || TimOffset(es) <= |Encode(es)|)
    requires 0 < |bitmap| <= 250 && |room| >= 5 + |bitmap|
    modifies bss`IELength, bss.IEs
    ensures Window(bitmap, n1, n2) && Tight(bitmap, n1, n2)
    ensures var r := Updated(es, Tim(0, 1, bitmap, n1, n2));
      bss.IEs[..] == fixed + r + room' && bss.IELength == |fixed| + |r|
    ensures Placed(es) ==> Holds(bss.IEs[..], bss.IELength, fixed, UpdateTim(es, Tim(0, 1, bitmap, n1, n2)), room')
  {
    var dst, src := PlaceForTim(bss, fixed, es, room);
    ghost var back := Back(es);
    FrontOf(bss.IEs[..], src, back, room);
    var backup := bss.IEs[src..bss.IELength];
    var ret;
    ret, n1, n2, room' := WriteTim(bss.IEs, dst, bitmap, backup, fixed + Front(es), bss.IEs[..][dst..]);
    bss.IELength := dst + ret + |backup|;
    ghost var tim := Tim(0, 1, bitmap, n1, n2);
    Assoc(fixed, Front(es), Bytes(tim));
    Assoc(fixed, Front(es) + Bytes(tim), back);
    if Placed(es) { UpdatedList(es, tim); }
  }

  lemma FrontOf(s: seq<Byte>, src: nat, back: seq<Byte>, room: seq<Byte>)
    requires src <= |s| && s[src..] == back + room
    ensures src + |back| <= |s| && s[src..src + |back|] == back
  {
    assert s[src..src + |back|] == s[src..][..|back|];
  }

  /** Write the element, and the remainder behind it. */
  method WriteTim(buf: array<Byte>, dst: nat, bitmap: seq<Byte>, backup: seq<Byte>,
                  ghost front: seq<Byte>, ghost behind: seq<Byte>)
    returns (ret: Byte, ghost n1: nat, ghost n2: nat, ghost room: seq<Byte>)
    requires buf[..] == front + behind && |front| == dst
    requires 0 < |bitmap| <= 250 && 5 + |bitmap| + |backup| <= |behind|
    modifies buf
    ensures Window(bitmap, n1, n2) && Tight(bitmap, n1, n2)
    ensures var tim := Bytes(Tim(0, 1, bitmap, n1, n2)); ret == |tim| && buf[..] == front + tim + backup + room
  {
    ret, n1, n2, room := SetTimIe(0, 1, bitmap, buf, dst, front, behind);
    ghost var tim := TimBytes(0, 1, bitmap, n1, n2);
    LengthExact(0, 1, bitmap, n1, n2);
    room := Overwrite(buf, dst + ret, backup, front + tim, room);
  }
}
