/** One chain of the NAT2.5 hash table of core/rtw_br_ext.c: the nethash[] cell and the
    heap-allocated entries linked from it, forward by next_hash and back by pprev_hash, which
    holds the address of the cell that points at the entry. */
module Nat25Chain {
  import opened Nat25Table
  import opened Nat25Buckets
  import opened Sequences

  /** The cell a pprev_hash designates: a nethash[] cell or the next_hash of an entry. */
  datatype Cell = Nowhere | FirstOf(chain: Chain) | NextOf(entry: Entry)

  class Entry {
    var nextHash: Entry?
    var pprevHash: Cell
    var networkAddr: NetAddr
    var macAddr: Mac
    var ageingTimer: int
    var useCount: int

    constructor (networkAddr: NetAddr, macAddr: Mac, now: int)
      ensures this.networkAddr == networkAddr && Values() == Record(macAddr, now, 1)
    {
      this.networkAddr, this.macAddr, ageingTimer, useCount := networkAddr, macAddr, now, 1;
      nextHash, pprevHash := null, Nowhere;
    }

    function Values(): Record
      reads this`macAddr, this`ageingTimer, this`useCount
    {
      Record(macAddr, ageingTimer, useCount)
    }
  }

  /** The source cache of the bridge, which may point at an entry. */
  class Scdb {
    var mac: seq<Octet>
    var ip: seq<Octet>
    var entry: Entry?

    constructor ()
      ensures entry == null
    {
      mac, ip, entry := [0, 0, 0, 0, 0, 0], [0, 0, 0, 0], null;
    }

    predicate Forgotten()
      reads this
    {
      mac == [0, 0, 0, 0, 0, 0] && ip == [0, 0, 0, 0] && entry == null
    }

    method Forget()
      modifies this
      ensures Forgotten()
    {
      mac, ip, entry := [0, 0, 0, 0, 0, 0], [0, 0, 0, 0], null;
    }
  }

  /** The entries hold these values. */
  ghost predicate Mirrors(es: seq<Entry>, items: seq<Item>)
    reads es`networkAddr, es`macAddr, es`ageingTimer, es`useCount
  {
    |items| == |es| && forall k :: 0 <= k < |es| ==> items[k] == Item(es[k].networkAddr, es[k].Values())
  }

  lemma WithoutElements(es: seq<Entry>, k: nat)
    requires k < |es| && forall i, j :: 0 <= i < j < |es| ==> es[i] != es[j]
    ensures forall e :: e in Delete(es, k) <==> e in es && e != es[k]
  {
    forall e | e in es && e != es[k] ensures e in Delete(es, k) {
      var j :| 0 <= j < |es| && es[j] == e;
      assert Delete(es, k)[if j < k then j else j - 1] == e;
    }
  }

  lemma MirrorsWithout(es: seq<Entry>, items: seq<Item>, k: nat)
    requires Mirrors(es, items) && k < |es|
    ensures Mirrors(Delete(es, k), Delete(items, k))
  {
    forall j | 0 <= j < |es| - 1
      ensures Delete(items, k)[j] == Item(Delete(es, k)[j].networkAddr, Delete(es, k)[j].Values())
    {
      var i := if j < k then j else j + 1;
      assert Delete(items, k)[j] == items[i] && Delete(es, k)[j] == es[i];
    }
  }

  class Chain {
    var first: Entry?
    ghost var es: seq<Entry>
    ghost var items: seq<Item>
    ghost var Repr: set<object>

    ghost function At(k: nat): Entry?
      reads this`es
    {
      if k < |es| then es[k] else null
    }

    /** The cells link exactly `es`, and each pprev_hash designates the cell that points at its entry. */
    ghost predicate Linked()
      reads this, es`nextHash, es`pprevHash
    {
      && first == At(0)
      && (forall j, k :: 0 <= j < k < |es| ==> es[j] != es[k])
      && (forall k {:trigger es[k].nextHash} :: 0 <= k < |es| ==> es[k].nextHash == At(k + 1))
      && (forall k {:trigger es[k].pprevHash} :: 0 <= k < |es| ==>
            es[k].pprevHash == (if k == 0 then FirstOf(this) else NextOf(es[k - 1])))
    }

    ghost predicate Valid()
      reads this, Repr
      ensures Valid() ==> this in Repr
    {
      && this in Repr && (forall k :: 0 <= k < |es| ==> es[k] in Repr)
      && Linked() && Mirrors(es, items)
    }

    constructor ()
      ensures Valid() && fresh(Repr) && es == [] && items == []
    {
      first, es, items, Repr := null, [], [], {this};
    }

    /** The walk that lookup, insert and scdb_findEntry share. */
    method Find(addr: NetAddr) returns (db: Entry?, ghost k: nat)
      requires Valid()
      ensures db == null <==> !Stored(items, addr)
      ensures db != null ==> k < |es| && db == es[k] && items[k] == Item(addr, db.Values())
    {
      db, k := first, 0;
      while db != null
        invariant k <= |es| && db == At(k)
        invariant forall j :: 0 <= j < k ==> items[j].addr != addr
        decreases |es| - k
      {
        if db.networkAddr == addr { return; }
        db := db.nextHash;
        k := k + 1;
      }
    }

    method Store(db: Entry, mac: Mac, age: int, use: int, ghost k: nat)
      requires Valid() && k < |es| && db == es[k]
      modifies this`items, db`macAddr, db`ageingTimer, db`useCount
      ensures Valid()
      ensures items == old(items)[k := Item(db.networkAddr, Record(mac, age, use))]
    {
      db.macAddr, db.ageingTimer, db.useCount := mac, age, use;
      items := items[k := Item(db.networkAddr, Record(mac, age, use))];
    }

    /** __network_hash_link */
    method Link(ent: Entry)
      requires Valid() && ent !in Repr
      modifies this, es`pprevHash, ent`nextHash, ent`pprevHash
      ensures Valid() && Repr == old(Repr) + {ent}
      ensures es == [ent] + old(es) && items == [Item(ent.networkAddr, ent.Values())] + old(items)
    {
      ent.nextHash := first;
      if ent.nextHash != null { ent.nextHash.pprevHash := NextOf(ent); }
      first := ent;
      ent.pprevHash := FirstOf(this);
      es, items, Repr := [ent] + es, [Item(ent.networkAddr, ent.Values())] + items, Repr + {ent};
    }

    /** __network_hash_unlink */
    method Unlink(ent: Entry, ghost k: nat)
      requires Valid() && k < |es| && ent == es[k]
      modifies this, es`nextHash, es`pprevHash
      ensures Valid() && Repr == old(Repr)
      ensures es == Delete(old(es), k) && items == Delete(old(items), k)
      ensures ent.nextHash == null && ent.pprevHash == Nowhere
    {
      MirrorsWithout(es, items, k);
      Bypass(ent, k);
      ent.nextHash := null;
      ent.pprevHash := Nowhere;
      items := Delete(items, k);
    }

    /** Make the cell before and the entry after point at each other. */
    method Bypass(ent: Entry, ghost k: nat)
      requires Linked() && k < |es| && ent == es[k]
      modifies this`first, this`es, es`nextHash, es`pprevHash
      ensures Linked() && es == Delete(old(es), k)
    {
      match ent.pprevHash {
        case FirstOf(c) => c.first := ent.nextHash;
        case NextOf(e) => e.nextHash := ent.nextHash;
      }
      if ent.nextHash != null { ent.nextHash.pprevHash := ent.pprevHash; }
      es := Delete(es, k);
    }

    /** What nat25_db_expire does to one entry: an expired entry loses one use and goes with the last. */
    method SweepOne(f: Entry, now: int, hz: nat, scdb: Scdb, ghost k: nat) returns (removed: bool)
      requires Valid() && scdb !in Repr && k < |es| && f == es[k]
      modifies Repr, scdb
      ensures Valid() && Repr == old(Repr)
      ensures removed == Dies(old(items)[k], now, hz)
      ensures |es| == |old(es)| - (if removed then 1 else 0)
      ensures At(if removed then k else k + 1) == old(At(k + 1))
      ensures forall e :: e in es <==> e in old(es) && !(removed && e == f)
      ensures items == if removed then Delete(old(items), k) else old(items)[k := Aged(old(items)[k], now, hz)]
      ensures if removed && old(scdb.entry) == f then scdb.Forgotten() else unchanged(scdb)
    {
      removed := false;
      if Expired(f.ageingTimer, now, hz) {
        Store(f, f.macAddr, f.ageingTimer, f.useCount - 1, k);
        if f.useCount == 0 {
          if scdb.entry == f { scdb.Forget(); }
          WithoutElements(es, k);
          Unlink(f, k);
          removed := true;
        }
      }
    }

    /** The part of nat25_db_expire that walks one chain. */
    method Sweep(now: int, hz: nat, scdb: Scdb)
      requires Valid() && scdb !in Repr
      modifies Repr, scdb
      ensures Valid() && Repr == old(Repr)
      ensures items == SweptItems(old(items), now, hz)
      ensures forall e :: e in es ==> e in old(es)
      ensures unchanged(scdb) || (scdb.Forgotten() && old(scdb.entry) in old(es) && old(scdb.entry) !in es)
      ensures unchanged(scdb) ==> scdb.entry in old(es) ==> scdb.entry in es
    {
      var f := first;
      ghost var k := 0;
      while f != null
        invariant Valid() && Repr == old(Repr)
        invariant k <= |es| && f == At(k)
        invariant items[..k] + SweptItems(items[k..], now, hz) == SweptItems(old(items), now, hz)
        invariant forall e :: e in es ==> e in old(es)
        invariant unchanged(scdb) || (scdb.Forgotten() && old(scdb.entry) in old(es) && old(scdb.entry) !in es)
        invariant unchanged(scdb) ==> scdb.entry in old(es) ==> scdb.entry in es
        decreases |es| - k
      {
        var g := f.nextHash;
        SweptStep(items, k, now, hz);
        var removed := SweepOne(f, now, hz, scdb, k);
        if !removed { k := k + 1; }
        f := g;
      }
    }

    /** The part of nat25_db_cleanup that empties one chain. */
    method Clear(scdb: Scdb)
      requires Valid() && scdb !in Repr
      modifies Repr, scdb
      ensures Valid() && Repr == old(Repr) && items == []
      ensures if old(scdb.entry) != null && old(scdb.entry) in old(es) then scdb.Forgotten() else unchanged(scdb)
    {
      var f := first;
      while f != null
        invariant Valid() && Repr == old(Repr) && f == first
        invariant forall e :: e in es ==> e in old(es)
        invariant if old(scdb.entry) != null && old(scdb.entry) in old(es) && old(scdb.entry) !in es then scdb.Forgotten()
                  else unchanged(scdb)
        decreases |es|
      {
        var g := f.nextHash;
        if scdb.entry == f { scdb.Forget(); }
        Unlink(f, 0);
        f := g;
      }
    }
  }

  lemma SweptStep(items: seq<Item>, k: nat, now: int, hz: nat)
    requires k < |items|
    ensures var step := items[..k] + SweptItems(items[k..], now, hz);
      if Dies(items[k], now, hz) then Delete(items, k)[..k] + SweptItems(Delete(items, k)[k..], now, hz) == step
      else
        var items' := items[k := Aged(items[k], now, hz)];
        items'[..k + 1] + SweptItems(items'[k + 1..], now, hz) == step
  {
    assert items[k..][1..] == items[k + 1..];
    if Dies(items[k], now, hz) {
      assert Delete(items, k)[..k] == items[..k];
      assert Delete(items, k)[k..] == items[k + 1..];
    } else {
      var items' := items[k := Aged(items[k], now, hz)];
      assert items'[..k + 1] == items[..k] + [Aged(items[k], now, hz)];
      assert items'[k + 1..] == items[k + 1..];
    }
  }
}
