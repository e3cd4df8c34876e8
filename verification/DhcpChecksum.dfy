/** dhcp_flag_bcast (core/rtw_br_ext.c): set the broadcast flag of a DHCP request (section 2 of RFC 2131)
    and bring the UDP checksum up to date. */
module DhcpChecksum {
  import opened Elements

  /** A 16-bit word as the host reads it. */
  function Word(s: seq<Byte>, at: nat, bigEndian: bool): nat
    requires at + 2 <= |s|
  {
    if bigEndian then Value16(s[at], s[at + 1]) else Value16(s[at + 1], s[at])
  }

  function WordBytes(w: nat, bigEndian: bool): (b: seq<Byte>)
    requires w < 65536
    ensures |b| == 2 && Word(b, 0, bigEndian) == w
  {
    if bigEndian then [w / 256, w % 256] else [w % 256, w / 256]
  }

  /** The sum of the `n` words from `at` on. */
  function WordSum(s: seq<Byte>, at: nat, n: nat, bigEndian: bool): nat
    requires at + 2 * n <= |s|
  {
    if n == 0 then 0 else WordSum(s, at, n - 1, bigEndian) + Word(s, at + 2 * (n - 1), bigEndian)
  }

  /** A datagram verifies if its words and those of the pseudo header, whose sum is `pseudo`, sum up to a
      multiple of 65535 (RFC 768, and RFC 1071 on the arithmetic). */
  predicate Verifies(s: seq<Byte>, at: nat, n: nat, pseudo: nat, bigEndian: bool)
    requires at + 2 * n <= |s|
  {
    (pseudo + WordSum(s, at, n, bigEndian)) % 65535 == 0
  }

  /** The representative of a positive sum between 1 and 65535. */
  function Folded(sum: nat): nat { if sum == 0 then 0 else (sum - 1) % 65535 + 1 }

  lemma FoldOnce(sum: nat)
    ensures Folded(sum % 65536 + sum / 65536) == Folded(sum)
    ensures sum >= 65536 ==> sum % 65536 + sum / 65536 < sum
    ensures sum < 65536 ==> Folded(sum) == sum
  {
    var hi := sum / 65536;
    assert sum == 65535 * hi + (sum % 65536 + hi);
    if sum > 0 {
      var low := sum % 65536 + hi - 1;
      SameRemainder(low, hi);
      assert sum - 1 == low + 65535 * hi;
    }
  }

  lemma SameRemainder(a: nat, q: nat)
    ensures (a + 65535 * q) % 65535 == a % 65535
  {}

  lemma FoldedRemainder(sum: nat)
    ensures Folded(sum) % 65535 == sum % 65535 && Folded(sum) <= 65535
  {}

  /** The fold loop. */
  method Fold(start: nat) returns (sum: nat)
    ensures sum == Folded(start)
  {
    sum := start;
    while sum / 65536 != 0
      invariant Folded(sum) == Folded(start)
      decreases sum
    {
      FoldOnce(sum);
      sum := sum % 65536 + sum / 65536;
    }
    FoldOnce(sum);
  }

  // ---------------------------------------------------------------- the frame

  const FLAGS_AT: nat := 18
  const CHECK_AT: nat := 6

  /** Where the UDP header starts. */
  function UdpAt(s: seq<Byte>): nat
    requires |s| >= 15
  {
    14 + s[14] % 16 * 4
  }

  /** The code does not look at the length of the frame: it reads the protocol of an IP packet, the ports
      of a UDP datagram, and the cookie and the flags if the ports are those of a DHCP request. */
  predicate Readable(s: seq<Byte>) {
    && |s| >= 14
    && (s[12..14] == [0x08, 0x00] ==> |s| >= 24 && (s[23] == 17 ==> UdpAt(s) + 4 <= |s| && (Ports(s) ==> HasCookie(s))))
  }

  predicate Ports(s: seq<Byte>)
    requires |s| >= 15 && UdpAt(s) + 4 <= |s|
  {
    s[UdpAt(s)..UdpAt(s) + 4] == [0, 68, 0, 67]
  }

  /** The frame reaches to the end of the cookie. */
  predicate HasCookie(s: seq<Byte>) { |s| >= 24 && UdpAt(s) + 248 <= |s| }

  /** The frame is a DHCP request with the magic cookie. */
  predicate IsRequest(s: seq<Byte>) {
    && HasCookie(s) && s[12..14] == [0x08, 0x00] && s[23] == 17 && Ports(s)
    && s[UdpAt(s) + 244..UdpAt(s) + 248] == [0x63, 0x82, 0x53, 0x63]
  }

  /** The flag as the host reads it. */
  function Broadcast(bigEndian: bool): nat { if bigEndian then 0x8000 else 0x0080 }

  predicate IsBroadcast(s: seq<Byte>, at: nat)
    requires at < |s|
  {
    s[at] >= 128
  }

  function Complement(w: nat): nat
    requires w < 65536
  {
    65535 - w
  }

  function NewCheck(check: nat, flags: nat): (c: nat)
    requires check < 65536
    ensures c < 65536
  {
    FoldedRemainder(Complement(check) + flags);
    Complement(Folded(Complement(check) + flags))
  }

  /** The frame with these two words in place. */
  function Rewritten(s: seq<Byte>, udp: nat, flags: nat, check: nat, bigEndian: bool): (r: seq<Byte>)
    requires udp + 20 <= |s| && flags < 65536 && check < 65536
    ensures |r| == |s|
  {
    var f, c := WordBytes(flags, bigEndian), WordBytes(check, bigEndian);
    s[udp + FLAGS_AT := f[0]][udp + FLAGS_AT + 1 := f[1]][udp + CHECK_AT := c[0]][udp + CHECK_AT + 1 := c[1]]
  }

  /** A request without the flag. */
  predicate Stampable(s: seq<Byte>) { IsRequest(s) && !IsBroadcast(s, UdpAt(s) + FLAGS_AT) }

  lemma BroadcastBit(s: seq<Byte>, at: nat, bigEndian: bool)
    requires at + 2 <= |s|
    ensures !IsBroadcast(s, at) ==> Word(s, at, bigEndian) + Broadcast(bigEndian) < 65536
    ensures !IsBroadcast(s, at) ==> Word(s, at, bigEndian) != 65535
  {}

  /** The flags after the edit. */
  function NewFlags(s: seq<Byte>, bigEndian: bool): (flags: nat)
    requires HasCookie(s) && !IsBroadcast(s, UdpAt(s) + FLAGS_AT)
    ensures 0 < flags < 65536
  {
    BroadcastBit(s, UdpAt(s) + FLAGS_AT, bigEndian);
    Word(s, UdpAt(s) + FLAGS_AT, bigEndian) + Broadcast(bigEndian)
  }

  /** dhcp_flag_bcast */
  method DhcpFlagBcast(data: array<Byte>, disabled: bool, bigEndian: bool)
    requires !disabled ==> Readable(data[..])
    modifies data
    ensures disabled || !Stampable(old(data[..])) ==> data[..] == old(data[..])
    ensures !disabled && Stampable(old(data[..])) ==> data[..] == Stamped(old(data[..]), bigEndian)
  {
    if disabled { return; }
    ghost var s := data[..];
    assert s[12..14] == [s[12], s[13]];
    if data[12] != 8 || data[13] != 0 { return; }
    if data[23] != 17 { return; }
    var udp := 14 + data[14] % 16 * 4;
    if data[udp..udp + 4] != [0, 68, 0, 67] { return; }
    if data[udp + 244..udp + 248] != [0x63, 0x82, 0x53, 0x63] { return; }
    if data[udp + FLAGS_AT] < 128 { SetBroadcast(data, udp, bigEndian); }
  }

  /** Set the flag and recalculate the checksum. */
  method SetBroadcast(data: array<Byte>, udp: nat, bigEndian: bool)
    requires HasCookie(data[..]) && udp == UdpAt(data[..]) && !IsBroadcast(data[..], udp + FLAGS_AT)
    modifies data
    ensures data[..] == Stamped(old(data[..]), bigEndian)
  {
    ghost var s := data[..];
    var flags := NewFlags(data[..], bigEndian);
    var check := Recalculate(Word(data[..], udp + CHECK_AT, bigEndian), flags);
    PutWords(data, udp, flags, check, bigEndian);
    StampedIs(s, udp, flags, check, bigEndian);
  }

  /** The recalculation in the code. */
  method Recalculate(check: nat, flags: nat) returns (c: nat)
    requires check < 65536 && flags < 65536
    ensures c < 65536 && c == NewCheck(check, flags)
  {
    var sum := Complement(check);
    sum := sum + flags;
    sum := Fold(sum);
    FoldedRemainder(Complement(check) + flags);
    c := Complement(sum);
  }

  method PutWords(data: array<Byte>, udp: nat, flags: nat, check: nat, bigEndian: bool)
    requires udp + 20 <= data.Length && flags < 65536 && check < 65536
    modifies data
    ensures data[..] == Rewritten(old(data[..]), udp, flags, check, bigEndian)
  {
    var f, c := WordBytes(flags, bigEndian), WordBytes(check, bigEndian);
    data[udp + FLAGS_AT] := f[0];
    data[udp + FLAGS_AT + 1] := f[1];
    data[udp + CHECK_AT] := c[0];
    data[udp + CHECK_AT + 1] := c[1];
  }

  /** The frame that the code makes of a request without the flag. */
  function Stamped(s: seq<Byte>, bigEndian: bool): seq<Byte>
    requires HasCookie(s) && !IsBroadcast(s, UdpAt(s) + FLAGS_AT)
  {
    var udp := UdpAt(s);
    var flags := NewFlags(s, bigEndian);
    Rewritten(s, udp, flags, NewCheck(Word(s, udp + CHECK_AT, bigEndian), flags), bigEndian)
  }

  lemma StampedIs(s: seq<Byte>, udp: nat, flags: nat, check: nat, bigEndian: bool)
    requires HasCookie(s) && udp == UdpAt(s) && !IsBroadcast(s, udp + FLAGS_AT)
    requires flags == NewFlags(s, bigEndian) && check == NewCheck(Word(s, udp + CHECK_AT, bigEndian), flags)
    ensures Stamped(s, bigEndian) == Rewritten(s, udp, flags, check, bigEndian)
  {}

  /** The edit sets the broadcast flag and keeps the 15 other flags, and apart from the checksum nothing else
      changes. */
  lemma FlagIsSet(s: seq<Byte>, bigEndian: bool)
    requires Stampable(s)
    ensures var r, udp := Stamped(s, bigEndian), UdpAt(s);
      && |r| == |s| && IsBroadcast(r, udp + FLAGS_AT)
      && r[udp + FLAGS_AT] == 128 + s[udp + FLAGS_AT] && r[udp + FLAGS_AT + 1] == s[udp + FLAGS_AT + 1]
      && forall k :: 0 <= k < |s| && k != udp + FLAGS_AT && k != udp + CHECK_AT && k != udp + CHECK_AT + 1 ==> r[k] == s[k]
  {
    var udp, flags := UdpAt(s), NewFlags(s, bigEndian);
    var check := NewCheck(Word(s, udp + CHECK_AT, bigEndian), flags);
    StampedIs(s, udp, flags, check, bigEndian);
    FlagOctets(s, udp + FLAGS_AT, bigEndian);
    RewrittenOctets(s, udp, flags, check, bigEndian);
  }

  lemma FlagOctets(s: seq<Byte>, at: nat, bigEndian: bool)
    requires at + 2 <= |s| && !IsBroadcast(s, at)
    ensures var flags := Word(s, at, bigEndian) + Broadcast(bigEndian);
      flags < 65536 && WordBytes(flags, bigEndian) == [128 + s[at], s[at + 1]]
  {}

  lemma RewrittenOctets(s: seq<Byte>, udp: nat, flags: nat, check: nat, bigEndian: bool)
    requires udp + 20 <= |s| && flags < 65536 && check < 65536
    ensures var r, f := Rewritten(s, udp, flags, check, bigEndian), WordBytes(flags, bigEndian);
      && r[udp + FLAGS_AT] == f[0] && r[udp + FLAGS_AT + 1] == f[1]
      && forall k :: 0 <= k < |s| && k != udp + FLAGS_AT && k != udp + FLAGS_AT + 1 && k != udp + CHECK_AT && k != udp + CHECK_AT + 1
           ==> r[k] == s[k]
  {}

  // ---------------------------------------------------------------- the checksum afterwards

  lemma RewrittenWords(s: seq<Byte>, udp: nat, flags: nat, check: nat, bigEndian: bool, k: nat)
    requires udp + 20 <= |s| && flags < 65536 && check < 65536 && udp + 2 * k + 2 <= |s|
    ensures var r := Rewritten(s, udp, flags, check, bigEndian);
      Word(r, udp + 2 * k, bigEndian) == if k == 9 then flags else if k == 3 then check else Word(s, udp + 2 * k, bigEndian)
  {
    var f, c := WordBytes(flags, bigEndian), WordBytes(check, bigEndian);
    var r := Rewritten(s, udp, flags, check, bigEndian);
    assert r[udp + 18] == f[0] && r[udp + 19] == f[1] && r[udp + 6] == c[0] && r[udp + 7] == c[1];
  }

  lemma {:induction false} RewrittenSum(s: seq<Byte>, udp: nat, flags: nat, check: nat, bigEndian: bool, n: nat)
    requires udp + 20 <= |s| && flags < 65536 && check < 65536 && udp + 2 * n <= |s|
    ensures var r := Rewritten(s, udp, flags, check, bigEndian);
      WordSum(r, udp, n, bigEndian) as int
      == WordSum(s, udp, n, bigEndian)
         + (if n > 9 then flags - Word(s, udp + 18, bigEndian) else 0)
         + (if n > 3 then check - Word(s, udp + 6, bigEndian) else 0)
  {
    if n > 0 {
      RewrittenSum(s, udp, flags, check, bigEndian, n - 1);
      RewrittenWords(s, udp, flags, check, bigEndian, n - 1);
    }
  }

  lemma StampedWords(s: seq<Byte>, bigEndian: bool, n: nat) returns (flags: nat, c: nat)
    requires HasCookie(s) && !IsBroadcast(s, UdpAt(s) + FLAGS_AT)
    requires n >= 10 && UdpAt(s) + 2 * n <= |s|
    ensures 0 < flags < 65536 && c < 65536 && c == NewCheck(Word(s, UdpAt(s) + CHECK_AT, bigEndian), flags)
    ensures WordSum(Stamped(s, bigEndian), UdpAt(s), n, bigEndian)
         == WordSum(s, UdpAt(s), n, bigEndian) + (flags - Word(s, UdpAt(s) + FLAGS_AT, bigEndian))
            + (c - Word(s, UdpAt(s) + CHECK_AT, bigEndian))
  {
    flags := NewFlags(s, bigEndian);
    c := NewCheck(Word(s, UdpAt(s) + CHECK_AT, bigEndian), flags);
    StampedIs(s, UdpAt(s), flags, c, bigEndian);
    RewrittenSum(s, UdpAt(s), flags, c, bigEndian, n);
  }

  /** The new checksum takes the new flags in, but not the old ones out. */
  lemma StampedSum(s: seq<Byte>, bigEndian: bool, n: nat)
    requires HasCookie(s) && !IsBroadcast(s, UdpAt(s) + FLAGS_AT)
    requires n >= 10 && UdpAt(s) + 2 * n <= |s|
    ensures var flags := Word(s, UdpAt(s) + FLAGS_AT, bigEndian);
      (WordSum(Stamped(s, bigEndian), UdpAt(s), n, bigEndian) - (WordSum(s, UdpAt(s), n, bigEndian) - flags)) % 65535 == 0
  {
    var udp := UdpAt(s);
    var old_, check := Word(s, udp + FLAGS_AT, bigEndian), Word(s, udp + CHECK_AT, bigEndian);
    var flags, c := StampedWords(s, bigEndian, n);
    CheckDelta(check, flags);
    Difference(WordSum(Stamped(s, bigEndian), udp, n, bigEndian), WordSum(s, udp, n, bigEndian), old_, flags, check, c);
  }

  lemma Difference(after: int, before: int, old_: int, flags: int, check: int, c: int)
    requires after == before + (flags - old_) + (c - check) && (c - check + flags) % 65535 == 0
    ensures (after - (before - old_)) % 65535 == 0
  {}

  lemma CheckDelta(check: nat, flags: nat)
    requires check < 65536 && flags < 65536
    ensures (NewCheck(check, flags) - check + flags) % 65535 == 0
  {
    FoldedRemainder(Complement(check) + flags);
  }

  /** It verifies exactly when the sum before, without the old flags, was a multiple of 65535. */
  lemma VerifiesAfter(s: seq<Byte>, bigEndian: bool, n: nat, pseudo: nat)
    requires HasCookie(s) && !IsBroadcast(s, UdpAt(s) + FLAGS_AT)
    requires n >= 10 && UdpAt(s) + 2 * n <= |s|
    ensures Verifies(Stamped(s, bigEndian), UdpAt(s), n, pseudo, bigEndian)
       <==> (pseudo + WordSum(s, UdpAt(s), n, bigEndian) - Word(s, UdpAt(s) + FLAGS_AT, bigEndian)) % 65535 == 0
  {
    StampedSum(s, bigEndian, n);
    var before := WordSum(s, UdpAt(s), n, bigEndian) - Word(s, UdpAt(s) + FLAGS_AT, bigEndian);
    Congruent(pseudo + WordSum(Stamped(s, bigEndian), UdpAt(s), n, bigEndian), pseudo + before);
  }

  lemma Congruent(a: int, b: int)
    requires (a - b) % 65535 == 0
    ensures a % 65535 == 0 <==> b % 65535 == 0
  {}

  /** So a datagram that verified still does exactly when its flags were zero, as the RFC asks for. */
  lemma ValidStaysValid(s: seq<Byte>, bigEndian: bool, n: nat, pseudo: nat)
    requires HasCookie(s) && !IsBroadcast(s, UdpAt(s) + FLAGS_AT)
    requires n >= 10 && UdpAt(s) + 2 * n <= |s| && Verifies(s, UdpAt(s), n, pseudo, bigEndian)
    ensures Verifies(Stamped(s, bigEndian), UdpAt(s), n, pseudo, bigEndian)
       <==> s[UdpAt(s) + FLAGS_AT] == 0 && s[UdpAt(s) + FLAGS_AT + 1] == 0
  {
    VerifiesAfter(s, bigEndian, n, pseudo);
    BroadcastBit(s, UdpAt(s) + FLAGS_AT, bigEndian);
    Without(pseudo + WordSum(s, UdpAt(s), n, bigEndian), Word(s, UdpAt(s) + FLAGS_AT, bigEndian));
  }

  lemma Without(total: int, flags: nat)
    requires total % 65535 == 0 && flags < 65535
    ensures (total - flags) % 65535 == 0 <==> flags == 0
  {}

  /** The new checksum is zero, which stands for none, exactly when the old one equals the new flags, or
      was zero while the new flags are all ones. */
  lemma ZeroCheck(check: nat, flags: nat)
    requires check < 65536 && 0 < flags < 65536
    ensures NewCheck(check, flags) == 0 <==> check == flags || (check == 0 && flags == 65535)
  {}

  /** A receiver accepts a datagram that has no checksum or verifies. */
  predicate Accepted(s: seq<Byte>, at: nat, n: nat, pseudo: nat, bigEndian: bool)
    requires at + 2 * n <= |s| && n >= 10
  {
    Word(s, at + CHECK_AT, bigEndian) == 0 || Verifies(s, at, n, pseudo, bigEndian)
  }

  /** A datagram that was accepted still is, with a checksum exactly when the flags were zero or the new
      checksum happens to be zero, and without one, in whose place the code writes a checksum, exactly when
      that happens to be zero or right. */
  lemma AcceptedAfter(s: seq<Byte>, bigEndian: bool, n: nat, pseudo: nat)
    requires HasCookie(s) && !IsBroadcast(s, UdpAt(s) + FLAGS_AT)
    requires n >= 10 && UdpAt(s) + 2 * n <= |s| && Accepted(s, UdpAt(s), n, pseudo, bigEndian)
    ensures var check, flags := Word(s, UdpAt(s) + CHECK_AT, bigEndian), Word(s, UdpAt(s) + FLAGS_AT, bigEndian);
      Accepted(Stamped(s, bigEndian), UdpAt(s), n, pseudo, bigEndian) <==>
        if check != 0 then flags == 0 || check == NewFlags(s, bigEndian)
        else NewFlags(s, bigEndian) == 65535 || (pseudo + WordSum(s, UdpAt(s), n, bigEndian) - flags) % 65535 == 0
  {
    var udp := UdpAt(s);
    var check, flags := Word(s, udp + CHECK_AT, bigEndian), NewFlags(s, bigEndian);
    RewrittenWords(s, udp, flags, NewCheck(check, flags), bigEndian, 3);
    ZeroCheck(check, flags);
    VerifiesAfter(s, bigEndian, n, pseudo);
    if check != 0 { Without(pseudo + WordSum(s, udp, n, bigEndian), Word(s, udp + FLAGS_AT, bigEndian)); }
  }

  /** The sum of the pseudo header of the frame: the IP addresses, the protocol and the length of the datagram. */
  function PseudoHeader(s: seq<Byte>, bigEndian: bool): nat
    requires HasCookie(s)
  {
    WordSum(s, 26, 4, bigEndian) + (if bigEndian then s[23] as int else 256 * (s[23] as int)) + Word(s, UdpAt(s) + 4, bigEndian)
  }

  /** The octets of a request from 0.0.0.0 to 255.255.255.255, with this checksum and this low octet of the
      flags: Ethernet header, IP header, and a datagram of 248 octets up to the cookie. */
  function RequestOctet(i: nat, hi: Byte, lo: Byte, flag: Byte): Byte {
    if i < 6 then 0xFF else if i == 6 || i == 70 then 2 else if i == 12 then 0x08
    else if i == 14 then 0x45 else if i == 16 then 1 else if i == 17 then 12 else if i == 22 then 64
    else if i == 23 then 17 else if i == 24 then 0x79 else if i == 25 then 0xE2 else if 30 <= i < 34 then 0xFF
    else if i == 35 then 68 else if i == 37 then 67 else if i == 39 then 248 else if i == 40 then hi
    else if i == 41 then lo else if i == 42 || i == 43 then 1 else if i == 44 then 6 else if i == 53 then flag
    else if i == 278 then 0x63 else if i == 279 then 0x82 else if i == 280 then 0x53 else if i == 281 then 0x63
    else 0
  }

  function Request(hi: Byte, lo: Byte, flag: Byte): seq<Byte> {
    seq(282, i requires 0 <= i => RequestOctet(i, hi, lo, flag))
  }

  lemma RequestParts(s: seq<Byte>, hi: Byte, lo: Byte, flag: Byte)
    requires s == Request(hi, lo, flag)
    ensures |s| == 282 && UdpAt(s) == 34 && Stampable(s)
    ensures Word(s, 40, true) == Value16(hi, lo) && Word(s, 52, true) == flag as int && Word(s, 38, true) == 248
  {
    assert s[12..14] == [8, 0] && s[34..38] == [0, 68, 0, 67] && s[278..282] == [0x63, 0x82, 0x53, 0x63];
  }

  lemma {:induction false} ZeroWords(s: seq<Byte>, at: nat, i: nat, j: nat)
    requires i <= j && at + 2 * j <= |s| && forall k :: at + 2 * i <= k < at + 2 * j ==> s[k] == 0
    ensures WordSum(s, at, j, true) == WordSum(s, at, i, true)
  {
    if i < j { ZeroWords(s, at, i, j - 1); }
  }

  lemma NextWord(s: seq<Byte>, at: nat, i: nat, j: nat)
    requires j == i + 1 && at + 2 * j <= |s|
    ensures WordSum(s, at, j, true) == WordSum(s, at, i, true) + Value16(s[at + 2 * i], s[at + 2 * i + 1])
  {}

  /** The words of the datagram and of its pseudo header. */
  lemma RequestSum(s: seq<Byte>, hi: Byte, lo: Byte, flag: Byte, n: nat)
    requires s == Request(hi, lo, flag) && n == 124
    ensures |s| == 282 && WordSum(s, 34, n, true) == 49509 + Value16(hi, lo) + flag
    ensures UdpAt(s) == 34 && PseudoHeader(s, true) == 131335
  {
    RequestParts(s, hi, lo, flag);
    TwoWords(s, 26);
    NextWord(s, 26, 2, 3);
    NextWord(s, 26, 3, 4);
    TwoWords(s, 34);
    var a, b, c, d, e, f := 2, 6, 10, 18, 19, 122;
    NextWords(s, 34, a, b);
    ZeroWords(s, 34, b, 9);
    NextWord(s, 34, 9, c);
    ZeroWords(s, 34, c, d);
    NextWord(s, 34, d, e);
    ZeroWords(s, 34, e, f);
    NextWord(s, 34, f, f + 1);
    NextWord(s, 34, f + 1, n);
  }

  lemma TwoWords(s: seq<Byte>, at: nat)
    requires at + 4 <= |s|
    ensures WordSum(s, at, 2, true) == Value16(s[at], s[at + 1]) + Value16(s[at + 2], s[at + 3])
  {
    NextWord(s, at, 0, 1);
    NextWord(s, at, 1, 2);
  }

  lemma NextWords(s: seq<Byte>, at: nat, i: nat, j: nat)
    requires j == i + 4 && at + 2 * j <= |s|
    ensures WordSum(s, at, j, true)
         == WordSum(s, at, i, true) + Value16(s[at + 2 * i], s[at + 2 * i + 1]) + Value16(s[at + 2 * i + 2], s[at + 2 * i + 3])
            + Value16(s[at + 2 * i + 4], s[at + 2 * i + 5]) + Value16(s[at + 2 * i + 6], s[at + 2 * i + 7])
  {
    NextWord(s, at, i, i + 1);
    NextWord(s, at, i + 1, i + 2);
    NextWord(s, at, i + 2, i + 3);
    NextWord(s, at, i + 3, j);
  }

  /** A request with the right checksum and with a reserved flag is accepted before the edit but not after it. */
  lemma RejectedRequest(s: seq<Byte>, n: nat)
    requires s == Request(61, 144, 1) && n == 124
    ensures |s| == 282 && UdpAt(s) == 34 && Stampable(s) && Word(s, 38, true) == 2 * n
    ensures var pseudo := PseudoHeader(s, true);
      Accepted(s, 34, n, pseudo, true) && !Accepted(Stamped(s, true), 34, n, pseudo, true)
  {
    RequestParts(s, 61, 144, 1);
    RequestSum(s, 61, 144, 1, n);
    assert Verifies(s, 34, n, 131335, true);
    AcceptedAfter(s, true, n, 131335);
  }

  /** A request without a checksum and without flags is accepted before the edit but not after it, because of
      the checksum that the code writes. */
  lemma RejectedUnchecked(s: seq<Byte>, n: nat)
    requires s == Request(0, 0, 0) && n == 124
    ensures |s| == 282 && UdpAt(s) == 34 && Stampable(s) && Word(s, 38, true) == 2 * n
    ensures var pseudo := PseudoHeader(s, true);
      Accepted(s, 34, n, pseudo, true) && !Accepted(Stamped(s, true), 34, n, pseudo, true)
  {
    RequestParts(s, 0, 0, 0);
    RequestSum(s, 0, 0, 0, n);
    Unfitting(s, n, 34, PseudoHeader(s, true), 49774);
  }

  lemma Unfitting(s: seq<Byte>, n: nat, udp: nat, pseudo: nat, r: nat)
    requires HasCookie(s) && udp == UdpAt(s) && n >= 10 && udp + 2 * n <= |s| && !IsBroadcast(s, udp + FLAGS_AT)
    requires Word(s, udp + CHECK_AT, true) == 0 && Word(s, udp + FLAGS_AT, true) == 0
    requires (pseudo + WordSum(s, udp, n, true) - Word(s, udp + FLAGS_AT, true)) % 65535 == r && r > 0
    ensures Accepted(s, udp, n, pseudo, true) && !Accepted(Stamped(s, true), udp, n, pseudo, true)
  {
    var sum, flags := WordSum(s, udp, n, true), Word(s, udp + FLAGS_AT, true);
    AcceptedAfter(s, true, n, pseudo);
    NotAny(Accepted(Stamped(s, true), udp, n, pseudo, true), NewFlags(s, true), pseudo + sum - flags, r);
  }

  lemma NotAny(accepted: bool, flags: nat, total: int, r: nat)
    requires accepted <==> flags == 65535 || total % 65535 == 0
    requires flags == 0x8000 && total % 65535 == r && r > 0
    ensures !accepted
  {}

  // ---------------------------------------------------------------- the byte order does not matter

  lemma {:induction false} SwappedSum(s: seq<Byte>, at: nat, n: nat)
    requires at + 2 * n <= |s|
    ensures (WordSum(s, at, n, false) - 256 * WordSum(s, at, n, true)) % 65535 == 0
  {
    if n > 0 {
      SwappedSum(s, at, n - 1);
      var hi, lo := s[at + 2 * (n - 1)], s[at + 2 * (n - 1) + 1];
      assert Word(s, at + 2 * (n - 1), false) - 256 * Word(s, at + 2 * (n - 1), true) == -65535 * (hi as int);
      Added(WordSum(s, at, n - 1, false) - 256 * WordSum(s, at, n - 1, true), -(hi as int));
    }
  }

  lemma Added(a: int, q: int)
    requires a % 65535 == 0
    ensures (a + 65535 * q) % 65535 == 0
  {}

  /** A datagram verifies on a host of either byte order, or on none. */
  lemma EitherByteOrder(s: seq<Byte>, at: nat, n: nat, pseudo: nat, swapped: nat)
    requires at + 2 * n <= |s| && (swapped - 256 * pseudo) % 65535 == 0
    ensures Verifies(s, at, n, pseudo, true) <==> Verifies(s, at, n, swapped, false)
  {
    SwappedSum(s, at, n);
    var x, y := WordSum(s, at, n, true), WordSum(s, at, n, false);
    Combined(pseudo, swapped, x, y);
    Congruent(swapped + y, 256 * (pseudo + x));
    Times256(pseudo + x);
  }

  lemma Combined(p: int, q: int, x: int, y: int)
    requires (q - 256 * p) % 65535 == 0 && (y - 256 * x) % 65535 == 0
    ensures ((q + y) - 256 * (p + x)) % 65535 == 0
  {}

  lemma Times256(x: int)
    ensures 256 * x % 65535 == 0 <==> x % 65535 == 0
  {
    var q := 256 * x / 65535;
    if 256 * x == 65535 * q { assert x == 65535 * (256 * q - x); }
  }
}
