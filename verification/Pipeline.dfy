/**
 The standard pipeline: a packet walks the flow tables, collecting the mask of
 everything the tables looked at, and the forwarding decision comes out as kernel
 actions, statistics handles and a mask.
 */
module Pipeline {
  import opened Cells
  import opened SoftTcam
  import opened Tcam
  import opened Keys
  import opened Actions
  import opened Cfr
  import opened CfrSoundness

  const NUM_TABLES: nat := 16

  /** IVS_PKTIN_USERDATA(OF_PACKET_IN_REASON_NO_MATCH, 0) */
  const NO_MATCH: nat := 0

  /** A flow entry's value: next_table_id of 255 is None. */
  datatype Flow = Flow(actions: seq<Action>, next: Option<nat>, handle: nat, tableMiss: bool)

  /** A table: its TCAM, and the flow that each TCAM entry is embedded in. */
  datatype FlowTable = FlowTable(shards: seq<Shard>, flows: map<nat, Flow>, matched: nat, missed: nat)

  datatype Config = Config(mm: Murmur, version13: bool, tables: seq<FlowTable>, pktinPid: nat, hash: Cells -> nat)

  ghost predicate TableOk(mm: Murmur, t: nat, table: FlowTable) {
    && LayoutOk(mm, CFR_CELLS, table.shards)
    && (forall e :: Stored(table.shards, e) ==> e.id in table.flows)
    && (forall id :: id in table.flows && table.flows[id].next.Some? ==>
          t < table.flows[id].next.value < NUM_TABLES)
  }

  /** What parse_value lets in: goto targets strictly increase below 16. */
  ghost predicate ConfigOk(c: Config) {
    |c.tables| == NUM_TABLES && forall t :: 0 <= t < NUM_TABLES ==> TableOk(c.mm, t, c.tables[t])
  }

  /** The loop state of pipeline_standard_process. */
  datatype Walk = Walk(cfr: Cells, cfrMask: Cells, run: Run)

  predicate WalkFits(w: Walk) {
    |w.cfr| == |w.cfrMask| == CFR_CELLS && Fits(w.run.ctx)
  }

  function AddStats(r: Run, handles: seq<nat>): Run {
    r.(stats := r.stats + handles)
  }

  /** A miss: up to version 1.2 the packet goes to the controller, from 1.3 on it is dropped. */
  function Miss(c: Config, table: FlowTable, r: Run): (r': Run)
    requires Fits(r.ctx)
    ensures Fits(r'.ctx) && Below(r.ctx.mask, r'.ctx.mask)
  {
    AddStats(if c.version13 then r else r.(ctx := Userspace(r.ctx, c.pktinPid, NO_MATCH)), [table.missed])
  }

  function Hit(table: FlowTable, flow: Flow, r: Run, env: Env): (r': Run)
    requires Fits(r.ctx)
    ensures Fits(r'.ctx) && Below(r.ctx.mask, r'.ctx.mask)
  {
    Translate(AddStats(r, [if flow.tableMiss then table.missed else table.matched, flow.handle]), flow.actions, env)
  }

  lemma LayoutShaped(mm: Murmur, kw: nat, shards: seq<Shard>)
    requires LayoutOk(mm, kw, shards)
    ensures Shaped(kw, shards)
  {
    forall s | 0 <= s < |shards| ensures |shards[s].buckets| > 0 && |shards[s].mask| == kw {
      assert ShardOk(mm, kw, shards[s]);
    }
  }

  ghost function Lookup(c: Config, t: nat, cfr: Cells): (r: Option<Flow>)
    requires ConfigOk(c) && t < NUM_TABLES && |cfr| == CFR_CELLS
    ensures r.Some? && r.value.next.Some? ==> t < r.value.next.value < NUM_TABLES
  {
    var table := c.tables[t];
    assert TableOk(c.mm, t, table);
    LayoutShaped(c.mm, CFR_CELLS, table.shards);
    ScanIsBestMatch(c.mm, CFR_CELLS, table.shards, cfr);
    match Scan(c.mm, table.shards, cfr)
    case None => None
    case Some(e) => Some(table.flows[e.id])
  }

  ghost function TableMask(c: Config, t: nat, m: Cells): (r: Cells)
    requires ConfigOk(c) && t < NUM_TABLES && |m| == CFR_CELLS
    ensures |r| == CFR_CELLS && Below(m, r)
  {
    assert TableOk(c.mm, t, c.tables[t]);
    LayoutShaped(c.mm, CFR_CELLS, c.tables[t].shards);
    OrMasksAbove(c.tables[t].shards, m);
    OrMasks(c.tables[t].shards, m)
  }

  /** The walk from table t on. */
  ghost function WalkFrom(c: Config, t: nat, w: Walk, env: Env): (r: Walk)
    requires ConfigOk(c) && t < NUM_TABLES && WalkFits(w)
    ensures WalkFits(r) && Below(w.run.ctx.mask, r.run.ctx.mask) && Below(w.cfrMask, r.cfrMask)
    decreases NUM_TABLES - t
  {
    var table := c.tables[t];
    var m := TableMask(c, t, w.cfrMask);
    match Lookup(c, t, w.cfr)
    case None => Walk(w.cfr, m, Miss(c, table, w.run))
    case Some(flow) =>
      var r := Hit(table, flow, w.run, env);
      match flow.next
      case None => Walk(w.cfr, m, r)
      case Some(next) => WalkFrom(c, next, Walk(UpdateCfr(w.cfr, flow.actions), m, r), env)
  }

  function EnvFor(c: Config, k: Key): Env
    requires Sized(k.cells)
  {
    Env(c.hash(k.cells[C_ETH_SRC..C_ETH_DST + 1]), c.pktinPid)
  }

  function StartWalk(k: Key, r: Run): (w: Walk)
    requires Sized(k.cells) && Fits(r.ctx)
    ensures WalkFits(w)
  {
    Walk(KeyToCfr(k), Zeroes(CFR_CELLS), r.(ctx := Mask(r.ctx, ETHERNET)))
  }

  /** pipeline_standard_process: the run, with the table mask folded into its mask. */
  ghost function Process(c: Config, k: Key, r: Run): (r': Run)
    requires ConfigOk(c) && Sized(k.cells) && Fits(r.ctx)
    ensures Fits(r'.ctx) && Below(r.ctx.mask, r'.ctx.mask)
  {
    var w := WalkFrom(c, 0, StartWalk(k, r), EnvFor(c, k));
    BelowTrans(r.ctx.mask, StartWalk(k, r).run.ctx.mask, w.run.ctx.mask);
    BelowTrans(r.ctx.mask, w.run.ctx.mask, TranslateMask(w.run.ctx.mask, w.cfr, w.cfrMask));
    w.run.(ctx := w.run.ctx.(mask := TranslateMask(w.run.ctx.mask, w.cfr, w.cfrMask)))
  }
}
