/** The NAT2.5 database of core/rtw_br_ext.c: every operation on the 16 chains is proved to be
    the operation of the same name on the plain map of Nat25Table. */
module Nat25Db {
  import opened Nat25Table
  import opened Nat25Buckets
  import opened Nat25Chain

  class Nat25 {
    const nethash: seq<Chain>
    const scdb: Scdb
    const hz: nat
    ghost var buckets: Buckets
    ghost var table: Table
    ghost var scdbAt: nat  // the chain that holds scdb_entry, unless that is null
    ghost var Repr: set<object>

    ghost predicate Valid()
      reads this, Repr
    {
      && Shape()
      && Splits(buckets, table)
      && (scdb.entry != null ==> scdbAt < NAT25_HASH_SIZE && scdb.entry in nethash[scdbAt].es)
    }

    /** The 16 chains are well formed, share nothing, and hold the values in `buckets`. */
    ghost predicate Shape()
      reads this`buckets, this`Repr, Repr
    {
      && this !in Repr && scdb in Repr && |nethash| == NAT25_HASH_SIZE
      && (forall b :: 0 <= b < NAT25_HASH_SIZE ==> nethash[b] in Repr && nethash[b].Repr <= Repr)
      && (forall b :: 0 <= b < NAT25_HASH_SIZE ==> ChainOk(b))
      && (forall b, c :: 0 <= b < NAT25_HASH_SIZE && 0 <= c < NAT25_HASH_SIZE && b != c ==> Apart(nethash[b], nethash[c]))
    }

    ghost predicate ChainOk(b: nat)
      requires b < |nethash| && b < NAT25_HASH_SIZE
      reads this`buckets, nethash[b], nethash[b].Repr
    {
      && scdb !in nethash[b].Repr
      && nethash[b].Valid() && nethash[b].items == buckets[b]
    }

    static ghost predicate Apart(b: Chain, c: Chain)
      reads b`Repr, c`Repr
    {
      b.Repr !! c.Repr
    }

    constructor (hz: nat)
      ensures Valid() && fresh(Repr) && this.hz == hz && table == map[] && scdb.entry == null
    {
      var chains: seq<Chain> := [];
      ghost var repr: set<object> := {};
      while |chains| < NAT25_HASH_SIZE
        invariant |chains| <= NAT25_HASH_SIZE && fresh(repr)
        invariant forall b :: 0 <= b < |chains| ==> chains[b].Valid() && chains[b].Repr <= repr && chains[b].items == []
        invariant forall b, c :: 0 <= b < |chains| && 0 <= c < |chains| && b != c ==> Apart(chains[b], chains[c])
      {
        var c := new Chain();
        chains, repr := chains + [c], repr + c.Repr;
      }
      nethash := chains;
      this.hz := hz;
      scdb := new Scdb();
      buckets, table, scdbAt := seq(NAT25_HASH_SIZE, _ => []), map[], 0;
      new;
      Repr := repr + {scdb};
      EmptySplits();
    }

    /** Walk the chain of the address's hash. */
    method Find(addr: NetAddr) returns (db: Entry?, h: nat, ghost k: nat)
      requires Valid()
      ensures h < NAT25_HASH_SIZE && h == Hash(addr)
      ensures db == null <==> addr !in table
      ensures db != null ==>
        k < |nethash[h].es| && db == nethash[h].es[k] && db.networkAddr == addr
        && db.Values() == table[addr] && db.useCount >= 1
    {
      h := Hash(addr);
      assert ChainOk(h);
      db, k := nethash[h].Find(addr);
      if db != null { assert Covers(buckets[h], h, table) && ItemOk(buckets[h][k], h, table); }
    }

    /** __nat25_db_network_lookup_and_replace on a frame whose destination is `dst`. */
    method LookupAndReplace(addr: NetAddr, dst: Mac, now: int) returns (found: bool, dst': Mac)
      requires Valid()
      modifies this, Repr
      ensures Valid() && Repr == old(Repr)
      ensures found == (addr in old(table))
      ensures dst' == Destination(old(table), addr, now, hz, dst)
      ensures table == LookedUp(old(table), addr, now, hz)
    {
      var db, h, k := Find(addr);
      found, dst' := db != null, dst;
      if db != null && !Expired(db.ageingTimer, now, hz) {
        dst' := db.macAddr;
        CountUse(h, db, k, addr);
      }
    }

    /** atomic_inc(&db->use_count) */
    method CountUse(h: nat, db: Entry, ghost k: nat, ghost addr: NetAddr)
      requires Valid() && h < NAT25_HASH_SIZE && k < |nethash[h].es| && db == nethash[h].es[k]
      requires db.networkAddr == addr && addr in table && table[addr] == db.Values() && db.useCount >= 1
      modifies this, Repr
      ensures Valid() && Repr == old(Repr)
      ensures table == old(table)[addr := OneMoreUse(old(table)[addr])]
    {
      StoreAt(h, db, db.macAddr, db.ageingTimer, db.useCount + 1, k, addr);
    }

    /** __nat25_db_network_insert; `gotMemory` says whether the allocation of a new entry succeeds. */
    method Insert(mac: Mac, addr: NetAddr, now: int, gotMemory: bool)
      requires Valid()
      modifies this, Repr
      ensures Valid() && fresh(Repr - old(Repr))
      ensures table == Inserted(old(table), addr, mac, now, gotMemory)
      ensures unchanged(scdb)
    {
      var db, h, k := Find(addr);
      if db != null {
        StoreAt(h, db, mac, now, db.useCount, k, addr);
        return;
      }
      if !gotMemory { return; }
      var ent := new Entry(addr, mac, now);
      AddSplits(buckets, table, addr, Record(mac, now, 1));
      LinkInChain(h, ent);
      table := table[addr := Record(mac, now, 1)];
    }

    method LinkInChain(h: nat, ent: Entry)
      requires Shape() && h < NAT25_HASH_SIZE && ent !in Repr
      requires scdb.entry != null ==> scdbAt < NAT25_HASH_SIZE && scdb.entry in nethash[scdbAt].es
      modifies this`buckets, this`Repr, Repr, ent
      ensures Shape() && Repr == old(Repr) + {ent} && unchanged(scdb)
      ensures buckets == old(buckets)[h := [Item(old(ent.networkAddr), old(ent.Values()))] + old(buckets)[h]]
      ensures scdb.entry != null ==> scdbAt < NAT25_HASH_SIZE && scdb.entry in nethash[scdbAt].es
    {
      assert ChainOk(h);
      BecomeChain(h, [Item(ent.networkAddr, ent.Values())] + buckets[h]);
      nethash[h].Link(ent);
      Repr := Repr + {ent};
      assert ChainOk(h);
    }

    /** nat25_db_expire */
    method Expire(now: int)
      requires Valid()
      modifies this, Repr
      ensures Valid() && Repr == old(Repr)
      ensures table == Swept(old(table), now, hz)
      ensures unchanged(scdb) || scdb.Forgotten()
    {
      ghost var was := buckets;
      for i := 0 to NAT25_HASH_SIZE
        invariant Shape() && Repr == old(Repr) && table == old(table) && scdbAt == old(scdbAt)
        invariant forall b :: 0 <= b < i ==> buckets[b] == SweptItems(was[b], now, hz)
        invariant forall b :: i <= b < NAT25_HASH_SIZE ==> buckets[b] == was[b]
        invariant scdb.entry != null ==> scdbAt < NAT25_HASH_SIZE && scdb.entry in nethash[scdbAt].es
        invariant unchanged(scdb) || scdb.Forgotten()
      {
        SweepChain(i, now);
      }
      SweptSplits(was, buckets, table, now, hz);
      table := Swept(table, now, hz);
    }

    method SweepChain(i: nat, now: int)
      requires Shape() && i < NAT25_HASH_SIZE
      requires scdb.entry != null ==> scdbAt < NAT25_HASH_SIZE && scdb.entry in nethash[scdbAt].es
      modifies this`buckets, Repr
      ensures Shape()
      ensures buckets == old(buckets)[i := SweptItems(old(buckets)[i], now, hz)]
      ensures scdb.entry != null ==> scdbAt < NAT25_HASH_SIZE && scdb.entry in nethash[scdbAt].es
      ensures unchanged(scdb) || scdb.Forgotten()
    {
      assert ChainOk(i);
      BecomeChain(i, SweptItems(buckets[i], now, hz));
      nethash[i].Sweep(now, hz, scdb);
      assert ChainOk(i);
    }

    /** nat25_db_cleanup */
    method Cleanup()
      requires Valid()
      modifies this, Repr
      ensures Valid() && Repr == old(Repr) && table == map[]
      ensures scdb.entry == null
    {
      for i := 0 to NAT25_HASH_SIZE
        invariant Shape() && Repr == old(Repr) && scdbAt == old(scdbAt)
        invariant forall b :: 0 <= b < i ==> buckets[b] == []
        invariant scdb.entry != null ==> i <= scdbAt < NAT25_HASH_SIZE && scdb.entry in nethash[scdbAt].es
      {
        ClearChain(i);
      }
      table := map[];
    }

    method ClearChain(i: nat)
      requires Shape() && i < NAT25_HASH_SIZE
      requires scdb.entry != null ==> scdbAt < NAT25_HASH_SIZE && scdb.entry in nethash[scdbAt].es
      modifies this`buckets, Repr
      ensures Shape() && buckets == old(buckets)[i := []]
      ensures scdb.entry != null ==> unchanged(scdb) && i != scdbAt < NAT25_HASH_SIZE && scdb.entry in nethash[scdbAt].es
    {
      assert ChainOk(i);
      BecomeChain(i, []);
      nethash[i].Clear(scdb);
      assert ChainOk(i);
    }

    /** The bridge remembers the entry of an IPv4 source and refreshes it (core/rtw_xmit.c). */
    method ScdbRemember(mac: Mac, ip: seq<Octet>, addr: NetAddr, now: int)
      requires Valid()
      modifies this, Repr
      ensures Valid() && Repr == old(Repr)
      ensures (scdb.entry != null) == (addr in old(table))
      ensures table == if addr in old(table) then Inserted(old(table), addr, old(table)[addr].mac, now, true) else old(table)
      ensures scdb.entry != null ==> scdb.mac == mac && scdb.ip == ip
    {
      var db, h, k := Find(addr);
      if db != null { StoreAt(h, db, db.macAddr, now, db.useCount, k, addr); }
      SetScdb(db, mac, ip, h);
    }

    method SetScdb(db: Entry?, mac: Mac, ip: seq<Octet>, ghost h: nat)
      requires Valid() && (db != null ==> h < NAT25_HASH_SIZE && db in nethash[h].es)
      modifies this`scdbAt, scdb
      ensures Valid() && scdb.entry == db && (db != null ==> scdb.mac == mac && scdb.ip == ip)
    {
      scdb.entry, scdbAt := db, h;
      if db != null { scdb.mac, scdb.ip := mac, ip; }
      forall b | 0 <= b < NAT25_HASH_SIZE ensures ChainOk(b) { assert old(ChainOk(b)); }
    }

    method StoreAt(h: nat, db: Entry, mac: Mac, age: int, use: int, ghost k: nat, ghost addr: NetAddr)
      requires Valid() && h < NAT25_HASH_SIZE && k < |nethash[h].es| && db == nethash[h].es[k] && use >= 1
      requires db.networkAddr == addr
      modifies this, Repr
      ensures Valid() && Repr == old(Repr)
      ensures table == old(table)[addr := Record(mac, age, use)]
      ensures nethash[h].es == old(nethash[h].es)
      ensures unchanged(scdb)
    {
      assert ChainOk(h);
      StoreSplits(buckets, table, h, k, Record(mac, age, use));
      table := table[addr := Record(mac, age, use)];
      StoreInChain(h, db, mac, age, use, k);
    }

    method StoreInChain(h: nat, db: Entry, mac: Mac, age: int, use: int, ghost k: nat)
      requires Shape() && h < NAT25_HASH_SIZE && k < |nethash[h].es| && db == nethash[h].es[k] && k < |buckets[h]|
      modifies this`buckets, nethash[h], db`macAddr, db`ageingTimer, db`useCount
      ensures Shape() && buckets == old(buckets)[h := old(buckets)[h][k := Item(old(db.networkAddr), Record(mac, age, use))]]
      ensures forall b :: 0 <= b < NAT25_HASH_SIZE ==> nethash[b].es == old(nethash[b].es)
    {
      assert ChainOk(h);
      BecomeChain(h, buckets[h][k := Item(db.networkAddr, Record(mac, age, use))]);
      nethash[h].Store(db, mac, age, use, k);
      assert ChainOk(h);
    }

    /** What chain `h` will hold after the operation; the other chains are not concerned. */
    ghost method BecomeChain(h: nat, items: seq<Item>)
      requires Shape() && h < NAT25_HASH_SIZE
      modifies this`buckets
      ensures buckets == old(buckets)[h := items]
      ensures forall b :: 0 <= b < NAT25_HASH_SIZE && b != h ==> ChainOk(b) && nethash[b].Repr !! nethash[h].Repr
    {
      forall b | 0 <= b < NAT25_HASH_SIZE && b != h ensures nethash[b].Repr !! nethash[h].Repr {
        assert Apart(nethash[b], nethash[h]);
      }
      buckets := buckets[h := items];
      forall b | 0 <= b < NAT25_HASH_SIZE && b != h ensures ChainOk(b) { assert old(ChainOk(b)); }
    }
  }
}
