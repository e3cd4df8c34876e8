/** The NAT2.5 database of core/rtw_br_ext.c as a plain map, and how its entries age. */
module Nat25Table {

  /** One octet of an address. */
  type Octet = bv8

  const MAX_NETWORK_ADDR_LEN: nat := 17

  type NetAddr = a: seq<Octet> | |a| == MAX_NETWORK_ADDR_LEN witness seq(MAX_NETWORK_ADDR_LEN, _ => 0)

  type Mac = m: seq<Octet> | |m| == 6 witness [0, 0, 0, 0, 0, 0]

  datatype Record = Record(mac: Mac, age: int, use: int)

  type Table = map<NetAddr, Record>

  const NAT25_AGEING_TIME: int := 300

  /** __nat25_has_expired, with `hz` ticks to the second and no wrap of the tick counter. */
  predicate Expired(age: int, now: int, hz: nat) {
    age <= now - NAT25_AGEING_TIME * hz
  }

  function Inserted(t: Table, addr: NetAddr, mac: Mac, now: int, gotMemory: bool): Table {
    if addr in t then t[addr := Record(mac, now, t[addr].use)]
    else if gotMemory then t[addr := Record(mac, now, 1)]
    else t
  }

  function OneMoreUse(r: Record): Record { Record(r.mac, r.age, r.use + 1) }

  function LookedUp(t: Table, addr: NetAddr, now: int, hz: nat): Table {
    if addr in t && !Expired(t[addr].age, now, hz) then t[addr := OneMoreUse(t[addr])] else t
  }

  /** One sweep: an expired entry loses one use, and the last one removes it. */
  function Swept(t: Table, now: int, hz: nat): Table {
    map a | a in t && !(Expired(t[a].age, now, hz) && t[a].use == 1) ::
      if Expired(t[a].age, now, hz) then t[a].(use := t[a].use - 1) else t[a]
  }

  predicate Used(t: Table) { forall a :: a in t ==> t[a].use >= 1 }

  // ---------------------------------------------------------------- ageing over runs

  datatype Op =
    | Insert(addr: NetAddr, mac: Mac, now: int, gotMemory: bool)
    | Lookup(addr: NetAddr, now: int)
    | Sweep(now: int)

  function Apply(t: Table, op: Op, hz: nat): Table {
    match op
    case Insert(addr, mac, now, gotMemory) => Inserted(t, addr, mac, now, gotMemory)
    case Lookup(addr, now) => LookedUp(t, addr, now, hz)
    case Sweep(now) => Swept(t, now, hz)
  }

  function ApplyAll(t: Table, ops: seq<Op>, hz: nat): Table
    decreases |ops|
  {
    if ops == [] then t else ApplyAll(Apply(t, ops[0], hz), ops[1..], hz)
  }

  function Sweeps(ops: seq<Op>): nat {
    if ops == [] then 0 else (if ops[0].Sweep? then 1 else 0) + Sweeps(ops[1..])
  }

  function Hits(ops: seq<Op>, addr: NetAddr): nat {
    if ops == [] then 0
    else (if ops[0].Lookup? && ops[0].addr == addr then 1 else 0) + Hits(ops[1..], addr)
  }

  predicate NoInsert(ops: seq<Op>, addr: NetAddr) {
    forall op :: op in ops ==> op.Insert? ==> op.addr != addr
  }

  lemma {:induction false} UsedKept(t: Table, ops: seq<Op>, hz: nat)
    requires Used(t)
    ensures Used(ApplyAll(t, ops, hz))
    decreases |ops|
  {
    if ops != [] { UsedKept(Apply(t, ops[0], hz), ops[1..], hz); }
  }

  /** An expired entry that is not inserted again is removed by exactly the use-count-th sweep,
      however many lookups hit it in between; until then only its use count changes. */
  lemma {:induction false} RemovedByUseCountSweeps(t: Table, ops: seq<Op>, addr: NetAddr, hz: nat)
    requires Used(t) && addr in t && NoInsert(ops, addr)
    requires forall op :: op in ops ==> Expired(t[addr].age, op.now, hz)
    ensures var t' := ApplyAll(t, ops, hz);
      if Sweeps(ops) < t[addr].use then addr in t' && t'[addr] == t[addr].(use := t[addr].use - Sweeps(ops))
      else addr !in t'
    decreases |ops|
  {
    if ops != [] {
      var t1 := Apply(t, ops[0], hz);
      assert ops[0] in ops && forall op :: op in ops[1..] ==> op in ops;
      UsedKept(t, [ops[0]], hz);
      assert ApplyAll(t, [ops[0]], hz) == t1;
      if addr in t1 {
        RemovedByUseCountSweeps(t1, ops[1..], addr, hz);
      } else {
        NotInserted(t1, ops[1..], addr, hz);
      }
    }
  }

  lemma {:induction false} NotInserted(t: Table, ops: seq<Op>, addr: NetAddr, hz: nat)
    requires addr !in t && NoInsert(ops, addr)
    ensures addr !in ApplyAll(t, ops, hz)
    decreases |ops|
  {
    if ops != [] {
      assert ops[0] in ops;
      NotInserted(Apply(t, ops[0], hz), ops[1..], addr, hz);
    }
  }

  /** As long as it has not expired an entry survives every sweep and counts every lookup. */
  lemma {:induction false} FreshSurvives(t: Table, ops: seq<Op>, addr: NetAddr, hz: nat)
    requires addr in t && NoInsert(ops, addr)
    requires forall op :: op in ops ==> !Expired(t[addr].age, op.now, hz)
    ensures var t' := ApplyAll(t, ops, hz);
      addr in t' && t'[addr] == t[addr].(use := t[addr].use + Hits(ops, addr))
    decreases |ops|
  {
    if ops != [] {
      assert ops[0] in ops && forall op :: op in ops[1..] ==> op in ops;
      FreshSurvives(Apply(t, ops[0], hz), ops[1..], addr, hz);
    }
  }

  /** What a lookup makes of the destination `dst` of a frame. */
  function Destination(t: Table, addr: NetAddr, now: int, hz: nat, dst: Mac): Mac {
    if addr in t && !Expired(t[addr].age, now, hz) then t[addr].mac else dst
  }

  /** The entry ages out 300 seconds after the time that it carries. */
  predicate Within(start: int, now: int, hz: nat) { now - start < 300 * hz }

  lemma AgesOut(start: int, now: int, hz: nat)
    ensures Expired(start, now, hz) <==> !Within(start, now, hz)
  {}

  /** After an insert, of a known address or with memory for a new one, and any operations in that time
      without another insert of the address, a lookup finds the MAC that was inserted.  A known address keeps
      its use count and a new one starts at 1, and the lookups are counted. */
  lemma InsertIsFound(t: Table, addr: NetAddr, mac: Mac, start: int, gotMemory: bool, ops: seq<Op>, now: int, hz: nat, dst: Mac)
    requires (addr in t || gotMemory) && NoInsert(ops, addr)
    requires Within(start, now, hz) && forall op :: op in ops ==> Within(start, op.now, hz)
    ensures var r := ApplyAll(Inserted(t, addr, mac, start, gotMemory), ops, hz);
      && Destination(r, addr, now, hz, dst) == mac
      && addr in r && r[addr].age == start
      && r[addr].use == (if addr in t then t[addr].use else 1) + Hits(ops, addr)
  {
    FreshSurvives(Inserted(t, addr, mac, start, gotMemory), ops, addr, hz);
  }

  /** Operations on other addresses, of whatever kind, do not concern an address. */
  lemma {:induction false} OthersAreSeparate(t: Table, t': Table, ops: seq<Op>, addr: NetAddr, hz: nat)
    requires addr in t <==> addr in t'
    requires addr in t ==> t[addr] == t'[addr]
    ensures var own := OpsOn(ops, addr);
      && (addr in ApplyAll(t, ops, hz) <==> addr in ApplyAll(t', own, hz))
      && (addr in ApplyAll(t, ops, hz) ==> ApplyAll(t, ops, hz)[addr] == ApplyAll(t', own, hz)[addr])
    decreases |ops|
  {
    if ops != [] {
      var rest, more := ops[1..], OpsOn(ops[1..], addr);
      if Concerns(ops[0], addr) {
        assert ([ops[0]] + more)[1..] == more;
        OthersAreSeparate(Apply(t, ops[0], hz), Apply(t', ops[0], hz), rest, addr, hz);
      } else {
        assert [] + more == more;
        OthersAreSeparate(Apply(t, ops[0], hz), t', rest, addr, hz);
      }
    }
  }

  predicate Concerns(op: Op, addr: NetAddr) { op.Sweep? || op.addr == addr }

  /** The sweeps, and the inserts and lookups of this address. */
  function OpsOn(ops: seq<Op>, addr: NetAddr): seq<Op> {
    if ops == [] then [] else (if Concerns(ops[0], addr) then [ops[0]] else []) + OpsOn(ops[1..], addr)
  }

  /** An insert without memory for a new address changes nothing. */
  lemma InsertFails(t: Table, addr: NetAddr, mac: Mac, start: int)
    requires addr !in t
    ensures Inserted(t, addr, mac, start, false) == t
  {}
}
