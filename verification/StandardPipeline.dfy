/**
 The packet path as code: pipeline_standard_process with its table loop, and
 pipeline_process around it, proved against Pipeline.Process and Decision.Decide.
 */
module StandardPipeline {
  import opened Cells
  import opened SoftTcam
  import opened Tcam
  import opened Keys
  import opened Actions
  import opened ActionContext
  import opened Cfr
  import opened Pipeline
  import opened Decision
  import FieldWrites
  import M = TableMeaning
  import R = ActionRefinement

  /** pipeline_standard_update_cfr */
  method RewriteCfr(cfr: Cells, actions: seq<Action>) returns (r: Cells)
    requires |cfr| == CFR_CELLS
    ensures r == UpdateCfr(cfr, actions)
    ensures FieldWrites.Rewritten(cfr, actions, r)
  {
    hide UpdateOne, FieldWrites.Rewritten;
    FieldWrites.UpdateRewrites(cfr, actions);
    r := cfr;
    for i := 0 to |actions|
      invariant |r| == CFR_CELLS && UpdateCfr(r, actions[i..]) == UpdateCfr(cfr, actions)
    {
      assert actions[i..][0] == actions[i] && actions[i..][1..] == actions[i + 1..];
      r := UpdateOne(r, actions[i]);
    }
  }

  /** One table: the entry that wins, and the mask with every mask of the table added. */
  method LookupTable(c: Config, t: nat, cfr: Cells, cfrMask: Cells) returns (flow: Option<Flow>, m: Cells)
    requires ConfigOk(c) && t < NUM_TABLES && |cfr| == |cfrMask| == CFR_CELLS
    ensures flow == Pipeline.Lookup(c, t, cfr) && m == TableMask(c, t, cfrMask)
  {
    var table := c.tables[t];
    assert TableOk(c.mm, t, table);
    hide LayoutOk, Scan, OrMasks;
    var found: Option<Entry>;
    found, m := Search(c.mm, CFR_CELLS, table.shards, cfr, cfrMask);
    flow := if found.Some? then Some(table.flows[found.value.id]) else None;
  }

  /** What a hit or a miss in a table does to the packet. */
  method UseTable(c: Config, t: nat, flow: Option<Flow>, ctx: Emitter, before: seq<nat>, env: Env) returns (stats: seq<nat>)
    requires t < |c.tables| && Fits(ctx.State()) && env.pktinPid == c.pktinPid
    modifies ctx
    ensures var r := Run(old(ctx.State()), before);
            Run(ctx.State(), stats) == if flow.Some? then Hit(c.tables[t], flow.value, r, env) else Miss(c, c.tables[t], r)
  {
    hide Translate, Userspace;
    var table := c.tables[t];
    if flow.None? {
      if !c.version13 {
        ctx.Userspace(c.pktinPid, NO_MATCH);
      }
      stats := before + [table.missed];
    } else {
      stats := before + [if flow.value.tableMiss then table.missed else table.matched];
      stats := stats + [flow.value.handle];
      assert stats == before + [if flow.value.tableMiss then table.missed else table.matched, flow.value.handle];
      stats := ctx.TranslateActions(flow.value.actions, stats, env);
    }
  }

  /** pipeline_standard_process: the loop ends because goto only leads forward. */
  method ProcessPacket(c: Config, key: Key, ctx: Emitter, before: seq<nat>) returns (stats: seq<nat>)
    requires ConfigOk(c) && Sized(key.cells) && Fits(ctx.State())
    modifies ctx
    ensures Run(ctx.State(), stats) == Process(c, key, Run(old(ctx.State()), before))
  {
    assert |c.tables| == NUM_TABLES;
    hide ConfigOk, KeyToCfr, TranslateMask, UpdateCfr, Hit, Miss, Pipeline.Lookup, TableMask, WithOnes;
    var cfr, cfrMask := KeyToCfr(key), Zeroes(CFR_CELLS);
    var env := Env(c.hash(key.cells[C_ETH_SRC..C_ETH_DST + 1]), c.pktinPid);
    ctx.mask := WithOnes(ctx.mask, ETHERNET);
    stats := before;
    ghost var goal := WalkFrom(c, 0, Walk(cfr, cfrMask, Run(ctx.State(), stats)), env);
    var table: Option<nat> := Some(0);
    while table.Some?
      invariant Fits(ctx.State()) && |cfr| == |cfrMask| == CFR_CELLS && (table.Some? ==> table.value < NUM_TABLES)
      invariant var w := Walk(cfr, cfrMask, Run(ctx.State(), stats));
                goal == if table.Some? then WalkFrom(c, table.value, w, env) else w
      decreases if table.Some? then NUM_TABLES - table.value else 0
    {
      var t := table.value;
      var flow, m := LookupTable(c, t, cfr, cfrMask);
      cfrMask := m;
      stats := UseTable(c, t, flow, ctx, stats, env);
      table := if flow.Some? then flow.value.next else None;
      if table.Some? {
        cfr := RewriteCfr(cfr, flow.value.actions);
      }
    }
    ctx.mask := TranslateMask(ctx.mask, cfr, cfrMask);
  }

  /** To every packet with this key and at most one tag the kernel does what the tables mean. */
  ghost predicate Meaningful(c: Config, ib: Inband, key: Key, v: Verdict) {
    |c.tables| == 16 && forall p :: R.PacketOk(p) && |p.tags| <= 1 && R.KeyOf(p) == key ==> M.Means(c, ib, p, v)
  }

  /** pipeline_process */
  method Decides(c: Config, ib: Inband, key: Key) returns (v: Verdict)
    requires ConfigOk(c) && Sized(key.cells)
    ensures v == Decide(c, ib, key)
    ensures Meaningful(c, ib, key, v)
  {
    hide ConfigOk, Process, SetField, OutputTo, WithOnes, INBAND_PORT, VID, Meaningful;
    var ctx := new Emitter(key, Zeroes(CELLS));
    ctx.mask := WithOnes(ctx.mask, IN_PORT);
    var port := key.cells[C_IN_PORT];
    var done, stats := false, [];
    if ib.vlan.Some? {
      if ib.isUplink(port) {
        ctx.mask := WithOnes(ctx.mask, VLAN);
        if key.cells[C_VLAN] * VID == ib.vlan.value {
          ctx.PopVlan();
          ctx.Output(INBAND_PORT);
          done := true;
        }
      } else if port == INBAND_PORT {
        if ib.uplink.Some? {
          ctx.PushVlan();
          ctx.SetVlanVid(ib.vlan.value);
          if ib.queue.Some? {
            ctx.SetPriority(ib.queue.value);
          }
          ctx.Output(ib.uplink.value);
        }
        done := true;
      }
    }
    if !done {
      stats := ProcessPacket(c, key, ctx, []);
    }
    v := Verdict(ctx.msg, key.populated + {ETHERTYPE}, ctx.mask, stats);
    Meant(c, ib, key);
  }

  lemma Meant(c: Config, ib: Inband, key: Key)
    requires ConfigOk(c) && Sized(key.cells)
    ensures Meaningful(c, ib, key, Decide(c, ib, key))
  {
    assert |c.tables| == NUM_TABLES;
    hide ConfigOk, Decide, M.Means, R.PacketOk, R.KeyOf;
    forall p | R.PacketOk(p) && |p.tags| <= 1 && R.KeyOf(p) == key ensures M.Means(c, ib, p, Decide(c, ib, key)) {
      M.DecisionMeans(c, ib, p);
    }
  }
}
