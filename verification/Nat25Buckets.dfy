/** The table split into 16 lists by the hash of the address: the shape the chains have. */
module Nat25Buckets {
  import opened Nat25Table

  const NAT25_HASH_SIZE: nat := 16

  const NAT25_IPV4: Octet := 1
  const NAT25_IPV6: Octet := 2
  const NAT25_IPX: Octet := 3
  const NAT25_APPLE: Octet := 4
  const NAT25_PPPOE: Octet := 5

  /** The exclusive or of the octets from `lo` up to `hi`. */
  function Xor(a: NetAddr, lo: nat, hi: nat): Octet
    requires lo <= hi <= MAX_NETWORK_ADDR_LEN
    decreases hi - lo
  {
    if lo == hi then 0 else a[lo] ^ Xor(a, lo + 1, hi)
  }

  /** __nat25_network_hash: which octets count depends on the type octet. */
  function Hash(a: NetAddr): (h: nat)
    ensures h < NAT25_HASH_SIZE
  {
    Masked(
      if a[0] == NAT25_IPV4 then Xor(a, 7, 11)
      else if a[0] == NAT25_IPX then Xor(a, 1, 11)
      else if a[0] == NAT25_APPLE then Xor(a, 1, 4)
      else if a[0] == NAT25_PPPOE then Xor(a, 0, 9)
      else if a[0] == NAT25_IPV6 then Xor(a, 1, 17)
      else Xor(a, 0, MAX_NETWORK_ADDR_LEN))
  }

  /** x & (NAT25_HASH_SIZE - 1) */
  function Masked(x: Octet): (h: nat)
    ensures h < NAT25_HASH_SIZE
  {
    var m := x & 15;
    assert m <= 15;
    m as nat
  }

  datatype Item = Item(addr: NetAddr, rec: Record)

  type Buckets = b: seq<seq<Item>> | |b| == NAT25_HASH_SIZE witness seq(NAT25_HASH_SIZE, _ => [])

  /** Every item is an entry of the table that hashes to `b`, with a use count of at least 1;
      no address occurs twice; and every entry of the table that hashes to `b` is there. */
  ghost predicate Covers(items: seq<Item>, b: nat, t: Table) {
    && (forall k :: 0 <= k < |items| ==> ItemOk(items[k], b, t))
    && Distinct(items)
    && (forall a :: a in t && Hash(a) == b ==> Stored(items, a))
  }

  ghost predicate Splits(bs: Buckets, t: Table) {
    forall b :: 0 <= b < NAT25_HASH_SIZE ==> Covers(bs[b], b, t)
  }

  predicate ItemOk(i: Item, b: nat, t: Table) {
    Hash(i.addr) == b && i.addr in t && t[i.addr] == i.rec && i.rec.use >= 1
  }

  predicate Distinct(items: seq<Item>) {
    forall j, k :: 0 <= j < k < |items| ==> items[j].addr != items[k].addr
  }

  predicate Stored(items: seq<Item>, a: NetAddr) {
    exists k :: 0 <= k < |items| && items[k].addr == a
  }

  /** A change of one address does not concern the other buckets. */
  lemma CoversElsewhere(items: seq<Item>, b: nat, t: Table, t': Table, addr: NetAddr)
    requires Covers(items, b, t) && Hash(addr) != b
    requires t' - {addr} == t - {addr}
    ensures Covers(items, b, t')
  {
    assert forall a :: a != addr ==> (a in t <==> a in t - {addr}) && (a in t' <==> a in t' - {addr});
    assert forall a :: a != addr && a in t ==> t[a] == (t - {addr})[a] && t'[a] == (t' - {addr})[a];
    forall k | 0 <= k < |items| ensures ItemOk(items[k], b, t') { assert ItemOk(items[k], b, t); }
  }

  lemma ChangeSplits(bs: Buckets, t: Table, h: nat, items: seq<Item>, t': Table, addr: NetAddr)
    requires Splits(bs, t) && h < NAT25_HASH_SIZE && Hash(addr) == h
    requires t' - {addr} == t - {addr}
    requires Covers(items, h, t')
    ensures Splits(bs[h := items], t')
  {
    var bs' := bs[h := items];
    forall b | 0 <= b < NAT25_HASH_SIZE ensures Covers(bs'[b], b, t') {
      if b != h { CoversElsewhere(bs[b], b, t, t', addr); }
    }
  }

  lemma StoreSplits(bs: Buckets, t: Table, h: nat, k: nat, rec: Record)
    requires Splits(bs, t) && h < NAT25_HASH_SIZE && k < |bs[h]| && rec.use >= 1
    ensures Splits(bs[h := bs[h][k := Item(bs[h][k].addr, rec)]], t[bs[h][k].addr := rec])
  {
    var items, addr := bs[h], bs[h][k].addr;
    assert Covers(items, h, t) && ItemOk(items[k], h, t);
    StoreCovers(items, h, t, k, rec);
    ChangeSplits(bs, t, h, items[k := Item(addr, rec)], t[addr := rec], addr);
  }

  lemma StoreCovers(items: seq<Item>, h: nat, t: Table, k: nat, rec: Record)
    requires Covers(items, h, t) && k < |items| && rec.use >= 1
    ensures Covers(items[k := Item(items[k].addr, rec)], h, t[items[k].addr := rec])
  {
    var items' := items[k := Item(items[k].addr, rec)];
    assert ItemOk(items[k], h, t);
    forall j | 0 <= j < |items'| ensures ItemOk(items'[j], h, t[items[k].addr := rec]) { assert ItemOk(items[j], h, t); }
    forall a | a in t && Hash(a) == h ensures Stored(items', a) { StoredMoves(items, items', a, 0, 0); }
  }

  lemma AddSplits(bs: Buckets, t: Table, addr: NetAddr, rec: Record)
    requires Splits(bs, t) && addr !in t && rec.use >= 1
    ensures Splits(bs[Hash(addr) := [Item(addr, rec)] + bs[Hash(addr)]], t[addr := rec])
  {
    var h := Hash(addr);
    assert Covers(bs[h], h, t);
    AddCovers(bs[h], h, t, addr, rec);
    ChangeSplits(bs, t, h, [Item(addr, rec)] + bs[h], t[addr := rec], addr);
  }

  lemma AddCovers(items: seq<Item>, h: nat, t: Table, addr: NetAddr, rec: Record)
    requires Covers(items, h, t) && addr !in t && Hash(addr) == h && rec.use >= 1
    ensures Covers([Item(addr, rec)] + items, h, t[addr := rec])
  {
    var items' := [Item(addr, rec)] + items;
    AddItems(items, h, t, addr, rec);
    assert items'[0].addr == addr;
    forall a | a in t && Hash(a) == h ensures Stored(items', a) { StoredMoves(items, items', a, 0, 1); }
  }

  lemma AddItems(items: seq<Item>, h: nat, t: Table, addr: NetAddr, rec: Record)
    requires Covers(items, h, t) && addr !in t && Hash(addr) == h && rec.use >= 1
    ensures var items' := [Item(addr, rec)] + items;
      (forall j :: 0 <= j < |items'| ==> ItemOk(items'[j], h, t[addr := rec])) && Distinct(items')
  {
    var items', t' := [Item(addr, rec)] + items, t[addr := rec];
    forall j | 0 <= j < |items| ensures ItemOk(items[j], h, t') && items[j].addr != addr { assert ItemOk(items[j], h, t); }
    assert forall j :: 0 < j < |items'| ==> items'[j] == items[j - 1];
  }

  /** An address stays stored when the items from `from` on only move by `shift`. */
  lemma StoredMoves(items: seq<Item>, items': seq<Item>, a: NetAddr, from: nat, shift: int)
    requires Stored(items, a)
    requires forall j :: 0 <= j < |items| && items[j].addr == a ==>
      var j' := if j >= from then j + shift else j; 0 <= j' < |items'| && items'[j'].addr == a
    ensures Stored(items', a)
  {
    var j :| 0 <= j < |items| && items[j].addr == a;
    assert items'[if j >= from then j + shift else j].addr == a;
  }

  // ---------------------------------------------------------------- one sweep of one chain

  predicate Dies(i: Item, now: int, hz: nat) { Expired(i.rec.age, now, hz) && i.rec.use == 1 }

  function Aged(i: Item, now: int, hz: nat): Item {
    if Expired(i.rec.age, now, hz) then i.(rec := i.rec.(use := i.rec.use - 1)) else i
  }

  function SweptItems(items: seq<Item>, now: int, hz: nat): seq<Item> {
    if items == [] then []
    else (if Dies(items[0], now, hz) then [] else [Aged(items[0], now, hz)]) + SweptItems(items[1..], now, hz)
  }

  lemma {:induction false} SweptItemsFrom(items: seq<Item>, x: Item, now: int, hz: nat)
    requires x in SweptItems(items, now, hz)
    ensures exists i :: i in items && !Dies(i, now, hz) && x == Aged(i, now, hz)
  {
    var rest := SweptItems(items[1..], now, hz);
    if x in rest {
      SweptItemsFrom(items[1..], x, now, hz);
      var i :| i in items[1..] && !Dies(i, now, hz) && x == Aged(i, now, hz);
      assert i in items;
    } else {
      assert items[0] in items;
    }
  }

  lemma {:induction false} SweptItemsKeep(items: seq<Item>, i: Item, now: int, hz: nat)
    requires i in items && !Dies(i, now, hz)
    ensures Aged(i, now, hz) in SweptItems(items, now, hz)
  {
    if i != items[0] { SweptItemsKeep(items[1..], i, now, hz); }
  }

  lemma {:induction false} SweptItemsDistinct(items: seq<Item>, now: int, hz: nat)
    requires Distinct(items)
    ensures Distinct(SweptItems(items, now, hz))
  {
    if items != [] {
      var rest := SweptItems(items[1..], now, hz);
      SweptItemsDistinct(items[1..], now, hz);
      forall k | 0 <= k < |rest| ensures rest[k].addr != items[0].addr {
        SweptItemsFrom(items[1..], rest[k], now, hz);
        var i :| i in items[1..] && rest[k] == Aged(i, now, hz);
      }
    }
  }

  /** Sweeping every chain is the sweep of the table. */
  lemma SweptSplits(bs: Buckets, bs': Buckets, t: Table, now: int, hz: nat)
    requires Splits(bs, t)
    requires forall b :: 0 <= b < NAT25_HASH_SIZE ==> bs'[b] == SweptItems(bs[b], now, hz)
    ensures Splits(bs', Swept(t, now, hz))
  {
    var t' := Swept(t, now, hz);
    forall b | 0 <= b < NAT25_HASH_SIZE ensures Covers(bs'[b], b, t') {
      assert Covers(bs[b], b, t);
      SweptCovers(bs[b], b, t, now, hz);
    }
  }

  lemma SweptCovers(items: seq<Item>, b: nat, t: Table, now: int, hz: nat)
    requires Covers(items, b, t)
    ensures Covers(SweptItems(items, now, hz), b, Swept(t, now, hz))
  {
    var items', t' := SweptItems(items, now, hz), Swept(t, now, hz);
    forall j | 0 <= j < |items'| ensures ItemOk(items'[j], b, t') {
      SweptItemsFrom(items, items'[j], now, hz);
      var i :| i in items && !Dies(i, now, hz) && items'[j] == Aged(i, now, hz);
      assert ItemOk(i, b, t);
    }
    SweptItemsDistinct(items, now, hz);
    forall a | a in t' && Hash(a) == b ensures Stored(items', a) {
      assert Stored(items, a);
      var k :| 0 <= k < |items| && items[k].addr == a;
      assert ItemOk(items[k], b, t);
      SweptItemsKeep(items, items[k], now, hz);
    }
  }

  lemma EmptySplits()
    ensures Splits(seq(NAT25_HASH_SIZE, _ => []), map[])
  {}
}
