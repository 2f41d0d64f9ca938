/**
 A flow table object: its TCAM and the entries embedded in it.  Creating, changing
 and deleting entries keeps what the walk over the tables relies on.
 */
module FlowTables {
  import opened Cells
  import opened SoftTcam
  import opened Actions
  import opened Cfr
  import opened Pipeline
  import opened MegaflowExactness
  import opened FlowMatch
  import Tcam

  /** Every shard of a table holds an entry. */
  lemma ShardInhabited(mm: Murmur, kw: nat, s: Shard) returns (e: Entry)
    requires ShardOk(mm, kw, s) && s.count > 0
    ensures InShard(s, e)
  {
    hide Slot;
    var b := BusyBucket(s.buckets);
    e := s.buckets[b][0];
    ChainMember(mm, s.mask, |s.buckets|, b, s.buckets[b], e);
  }

  lemma {:induction false} BusyBucket(buckets: seq<Chain>) returns (b: nat)
    requires Total(buckets) > 0
    ensures b < |buckets| && buckets[b] != []
  {
    var n := |buckets| - 1;
    if buckets[n] != [] {
      b := n;
    } else {
      b := BusyBucket(buckets[..n]);
    }
  }

  /** If every entry's match is scoped, so is every shard's mask. */
  lemma ScopedShards(mm: Murmur, shards: seq<Shard>)
    requires Tcam.LayoutOk(mm, CFR_CELLS, shards)
    requires forall e :: Stored(shards, e) ==> Scoped(e.mask)
    ensures forall s :: 0 <= s < |shards| ==> Scoped(shards[s].mask)
  {
    hide Scoped;
    forall s | 0 <= s < |shards| ensures Scoped(shards[s].mask) {
      assert ShardOk(mm, CFR_CELLS, shards[s]) && Tcam.LoadOk(shards[s]);
      var e := ShardInhabited(mm, CFR_CELLS, shards[s]);
      assert Stored(shards, e);
    }
  }

  class Table {
    const id: nat
    const version: Version
    const matched: nat
    const missed: nat
    const tcam: Tcam.Table
    var flows: map<nat, Flow>
    var entries: map<nat, Entry>

    ghost predicate Valid()
      reads this, tcam
    {
      && tcam.Valid() && tcam.keyWidth == CFR_CELLS
      && entries.Keys == flows.Keys
      && (forall e :: Stored(tcam.shards, e) <==> e.id in entries && entries[e.id] == e)
      && (forall x :: x in entries ==> entries[x].id == x)
      && (forall x :: x in flows && flows[x].next.Some? ==> id < flows[x].next.value < NUM_TABLES)
      && (!Early(version) ==> forall x :: x in entries ==> Scoped(entries[x].mask))
    }

    /** The table as the pipeline reads it. */
    ghost function Snapshot(): FlowTable
      reads this, tcam
    {
      FlowTable(tcam.shards, flows, matched, missed)
    }

    constructor (id: nat, version: Version, mm: Murmur, matched: nat, missed: nat)
      ensures Valid() && flows == map[] && entries == map[] && fresh(tcam) && tcam.mm == mm
      ensures this.id == id && this.version == version
    {
      this.id, this.version, this.matched, this.missed := id, version, matched, missed;
      tcam := new Tcam.Table(mm, CFR_CELLS);
      flows, entries := map[], map[];
    }

    /** What the pipeline needs of a table, and the scoping that makes megaflows right. */
    lemma TableIsOk()
      requires Valid()
      ensures TableOk(tcam.mm, id, Snapshot())
      ensures !Early(version) ==> forall s :: 0 <= s < |tcam.shards| ==> Scoped(tcam.shards[s].mask)
    {
      hide Scoped, Stored;
      if !Early(version) {
        ScopedShards(tcam.mm, tcam.shards);
      }
    }

    /** flowtable_entry_create, for a match and the parsed instructions. */
    method Create(x: nat, m: Match, priority: nat, actions: seq<Action>, next: Option<nat>, handle: nat) returns (ok: bool)
      requires Valid() && x !in flows && m.version == version && (!Early(version) ==> Consistent(m))
      modifies this, tcam
      ensures Valid() && (ok <==> next.None? || id < next.value < NUM_TABLES)
      ensures !ok ==> unchanged(this) && unchanged(tcam)
      ensures ok ==>
                && flows == old(flows)[x := Flow(actions, next, handle,
                                                 version.V13? && priority == 0 && MaskOf(m) == Zeroes(CFR_CELLS))]
                && x in entries && entries == old(entries)[x := entries[x]]
                && entries[x].mask == MaskOf(m) && entries[x].key == Normal(KeyOf(m), MaskOf(m))
                && entries[x].priority == priority
    {
      hide Scoped, Stored, MaskOf, KeyOf, HashKey, Tcam.LayoutOk, Tcam.UniqueIds;
      if next.Some? && !(id < next.value < NUM_TABLES) {
        return false;
      }
      if !Early(version) {
        LateScoped(m);
      }
      var key, mask := MatchToCfr(m);
      var miss := version.V13? && priority == 0 && mask == Zeroes(CFR_CELLS);
      var e := tcam.Insert(x, key, mask, priority);
      Enter(x, e, Flow(actions, next, handle, miss));
      return true;
    }

    method Enter(x: nat, e: Entry, f: Flow)
      modifies this`flows, this`entries
      ensures flows == old(flows)[x := f] && entries == old(entries)[x := e]
    {
      flows, entries := flows[x := f], entries[x := e];
    }

    /** flowtable_entry_modify: other instructions for the same match. */
    method Modify(x: nat, actions: seq<Action>, next: Option<nat>) returns (ok: bool)
      requires Valid() && x in flows
      modifies this`flows
      ensures Valid() && (ok <==> next.None? || id < next.value < NUM_TABLES)
      ensures flows == if ok then old(flows)[x := old(flows)[x].(actions := actions, next := next)] else old(flows)
    {
      hide Scoped, Stored, Tcam.LayoutOk, Tcam.UniqueIds;
      if next.Some? && !(id < next.value < NUM_TABLES) {
        return false;
      }
      flows := flows[x := flows[x].(actions := actions, next := next)];
      return true;
    }

    /** flowtable_entry_delete */
    method Delete(x: nat)
      requires Valid() && x in flows
      modifies this, tcam
      ensures Valid() && flows == old(flows) - {x} && entries == old(entries) - {x}
    {
      hide Scoped, Stored, Tcam.LayoutOk, Tcam.UniqueIds;
      tcam.Remove(entries[x]);
      Leave(x);
    }

    method Leave(x: nat)
      modifies this`flows, this`entries
      ensures flows == old(flows) - {x} && entries == old(entries) - {x}
    {
      flows, entries := flows - {x}, entries - {x};
    }
  }

  /** Sixteen valid tables make a configuration the pipeline theorems apply to. */
  lemma TablesMakeConfig(tables: seq<Table>, c: Config)
    requires |tables| == NUM_TABLES && |c.tables| == NUM_TABLES
    requires forall t :: 0 <= t < NUM_TABLES ==>
               tables[t].Valid() && tables[t].id == t && tables[t].tcam.mm == c.mm && c.tables[t] == tables[t].Snapshot()
    ensures ConfigOk(c)
    ensures (forall t :: 0 <= t < NUM_TABLES ==> !Early(tables[t].version)) ==> TablesScoped(c)
  {
    hide TableOk, Scoped;
    forall t | 0 <= t < NUM_TABLES
      ensures TableOk(c.mm, t, c.tables[t])
      ensures !Early(tables[t].version) ==>
                forall s :: 0 <= s < |c.tables[t].shards| ==> Scoped(c.tables[t].shards[s].mask)
    {
      tables[t].TableIsOk();
    }
  }
}
