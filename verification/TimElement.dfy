/** rtw_set_tim_ie (core/rtw_ap.c) and the TIM element of section 9.4.2.6 of IEEE Std 802.11-2016. */
module TimElement {
  import opened Buffers
  import opened Elements

  predicate Empty(bmp: seq<Byte>) { forall i :: 0 <= i < |bmp| ==> bmp[i] == 0 }

  /** rtw_bmp_not_empty */
  method BmpNotEmpty(bmp: seq<Byte>) returns (r: bool)
    ensures r <==> !Empty(bmp)
  {
    var i := 0;
    while i < |bmp|
      invariant i <= |bmp| && forall j :: 0 <= j < i ==> bmp[j] == 0
    {
      if bmp[i] != 0 { return true; }
      i := i + 1;
    }
    return false;
  }

  /** The octets n1 to n2 are the window that is sent of the bitmap. */
  predicate Window(bmp: seq<Byte>, n1: nat, n2: nat) {
    && n1 <= n2 < |bmp| && n1 % 2 == 0
    && (forall i :: 0 <= i < n1 ==> bmp[i] == 0)
    && (forall i :: n2 < i < |bmp| ==> bmp[i] == 0)
  }

  /** No larger even octet has only zero octets before it, and no smaller last octet will do. */
  predicate Tight(bmp: seq<Byte>, n1: nat, n2: nat)
    requires n2 < |bmp|
  {
    if Empty(bmp) then n1 == 0 && n2 == 0
    else
      && (forall m :: m % 2 == 0 && n1 < m < |bmp| ==> exists i :: 0 <= i < m && bmp[i] != 0)
      && (n2 == 0 || bmp[n2] != 0)
  }

  predicate GroupBit(bmp: seq<Byte>) { bmp != [] && bmp[0] % 2 == 1 }

  /** The octets of the element, with its length in 8 bits. */
  function TimBytes(dtimCnt: Byte, dtimPeriod: Byte, bmp: seq<Byte>, n1: nat, n2: nat): seq<Byte>
    requires Window(bmp, n1, n2) && |bmp| < 256
  {
    [5, (3 + (n2 - n1 + 1)) % 256, dtimCnt, dtimPeriod, (if GroupBit(bmp) then 1 else 0) + n1] + bmp[n1..n2 + 1]
  }

  /** The first non-zero octet, made even; the last non-zero octet except octet 0. */
  method FindWindow(bmp: seq<Byte>) returns (n1: nat, n2: nat)
    requires 0 < |bmp| < 256
    ensures Window(bmp, n1, n2) && Tight(bmp, n1, n2)
  {
    var notEmpty := BmpNotEmpty(bmp);
    n1, n2 := 0, 0;
    if notEmpty {
      var i := 0;
      while i < |bmp|
        invariant i <= |bmp| && forall j :: 0 <= j < i ==> bmp[j] == 0
      {
        if bmp[i] != 0 { break; }
        i := i + 1;
      }
      n1 := i - i % 2;
      ghost var first := i;
      i := |bmp| - 1;
      while i > 0
        invariant 0 <= i < |bmp| && first <= i && forall j :: i < j < |bmp| ==> bmp[j] == 0
      {
        if bmp[i] != 0 { break; }
        i := i - 1;
      }
      n2 := i;
    }
  }

  /** rtw_set_tim_ie: writes the element at `at`; the length returned is cut to 8 bits. */
  method SetTimIe(dtimCnt: Byte, dtimPeriod: Byte, bmp: seq<Byte>, buf: array<Byte>, at: nat,
                  ghost front: seq<Byte>, ghost behind: seq<Byte>)
    returns (ret: Byte, ghost n1: nat, ghost n2: nat, ghost post: seq<Byte>)
    requires 0 < |bmp| < 256 && buf[..] == front + behind && |front| == at && 5 + |bmp| <= |behind|
    modifies buf
    ensures Window(bmp, n1, n2) && Tight(bmp, n1, n2)
    ensures var tim := TimBytes(dtimCnt, dtimPeriod, bmp, n1, n2);
      buf[..] == front + tim + post && ret == |tim| % 256
  {
    var m1, m2 := FindWindow(bmp);
    n1, n2 := m1, m2;
    var bmpLen := m2 - m1 + 1;
    var group := if bmp[0] % 2 == 1 then 1 else 0;
    var tim: seq<Byte> := [5, (2 + 1 + bmpLen) % 256, dtimCnt, dtimPeriod, group + m1] + bmp[m1..m1 + bmpLen];
    post := Overwrite(buf, at, tim, front, behind);
    ret := (2 + 2 + 1 + bmpLen) % 256;
  }

  // ---------------------------------------------------------------- reading the element

  /** Octet `k` of the bitmap as a station reads it from the body of the element. */
  function OctetRead(body: seq<Byte>, k: nat): Byte
    requires |body| >= 3
  {
    var n1 := body[2] - body[2] % 2;
    if n1 <= k < n1 + (|body| - 3) then body[3 + k - n1] else 0
  }

  function DtimCountRead(body: seq<Byte>): Byte
    requires |body| >= 3
  {
    body[0]
  }

  function DtimPeriodRead(body: seq<Byte>): Byte
    requires |body| >= 3
  {
    body[1]
  }

  function GroupRead(body: seq<Byte>): bool
    requires |body| >= 3
  {
    body[2] % 2 == 1
  }

  /** The element whose window is not too large for the length octet. */
  function Tim(dtimCnt: Byte, dtimPeriod: Byte, bmp: seq<Byte>, n1: nat, n2: nat): (e: Elem)
    requires Window(bmp, n1, n2) && |bmp| < 256 && n2 - n1 + 1 <= 252
    ensures Bytes(e) == TimBytes(dtimCnt, dtimPeriod, bmp, n1, n2) && e.id == 5 && |e.body| >= 4
  {
    var e: Elem := Element(5, [dtimCnt, dtimPeriod, (if GroupBit(bmp) then 1 else 0) + n1] + bmp[n1..n2 + 1]);
    assert Bytes(e) == TimBytes(dtimCnt, dtimPeriod, bmp, n1, n2);
    e
  }

  /** Every bit of the bitmap and the group bit come back, and the DTIM count and period. */
  lemma Lossless(dtimCnt: Byte, dtimPeriod: Byte, bmp: seq<Byte>, n1: nat, n2: nat, k: nat)
    requires Window(bmp, n1, n2) && |bmp| < 256 && n2 - n1 + 1 <= 252
    ensures var body := Tim(dtimCnt, dtimPeriod, bmp, n1, n2).body;
      && OctetRead(body, k) == (if k < |bmp| then bmp[k] else 0)
      && (GroupRead(body) <==> GroupBit(bmp))
      && DtimCountRead(body) == dtimCnt && DtimPeriodRead(body) == dtimPeriod
  {
    var body := Tim(dtimCnt, dtimPeriod, bmp, n1, n2).body;
    assert |body| - 3 == n2 - n1 + 1;
    if n1 <= k <= n2 { assert body[3 + k - n1] == bmp[n1..n2 + 1][k - n1]; }
  }

  /** The length returned is the number of octets written exactly when the window has at most 250 octets,
      and the length octet is right exactly when it has at most 252. */
  lemma LengthExact(dtimCnt: Byte, dtimPeriod: Byte, bmp: seq<Byte>, n1: nat, n2: nat)
    requires Window(bmp, n1, n2) && |bmp| < 256
    ensures var tim := TimBytes(dtimCnt, dtimPeriod, bmp, n1, n2);
      && (|tim| % 256 == |tim| <==> n2 - n1 + 1 <= 250)
      && (tim[1] == |tim| - 2 <==> n2 - n1 + 1 <= 252)
  {}

  const LARGE: seq<Byte> := seq(251, _ => 1)

  /** For a bitmap of 251 octets none of which is zero, 256 octets are written and 0 is returned. */
  lemma LengthWraps()
    ensures Window(LARGE, 0, 250) && Tight(LARGE, 0, 250)
    ensures |TimBytes(0, 1, LARGE, 0, 250)| == 256
  {
    assert LARGE[0] == 1 && LARGE[250] == 1;
  }

  /** The window is determined by the bitmap. */
  lemma TightIsUnique(bmp: seq<Byte>, n1: nat, n2: nat, m1: nat, m2: nat)
    requires Window(bmp, n1, n2) && Tight(bmp, n1, n2) && Window(bmp, m1, m2) && Tight(bmp, m1, m2)
    ensures n1 == m1 && n2 == m2
  {}
}
