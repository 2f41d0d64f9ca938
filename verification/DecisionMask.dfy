/**
 What is in the mask of a decision, and nothing more: the bits that the visited tables
 look at, and the headers that the decision itself reads or that visited flows write.
 */
module DecisionMask {
  import opened Cells
  import opened SoftTcam
  import opened Tcam
  import opened Keys
  import opened Actions
  import opened ActionMasks
  import opened Cfr
  import opened CfrSoundness
  import opened MaskTightness
  import opened Pipeline
  import opened PipelineSoundness
  import opened MegaflowExactness
  import opened TtlRuns
  import opened Decision

  /** An entry of the table looks at bit b of field j. */
  ghost predicate Looks(table: FlowTable, j: nat, b: nat) {
    exists s :: 0 <= s < |table.shards| && j < |table.shards[s].mask| && b in table.shards[s].mask[j]
  }

  /** A table on the way of a packet with these fields does. */
  ghost predicate LookedAt(c: Config, t: nat, fields: Cells, j: nat, b: nat)
    requires ConfigOk(c) && t < NUM_TABLES && |fields| == CFR_CELLS
    decreases NUM_TABLES - t
  {
    || Looks(c.tables[t], j, b)
    || match Lookup(c, t, fields)
       case None => false
       case Some(flow) => flow.next.Some? && LookedAt(c, flow.next.value, UpdateCfr(fields, flow.actions), j, b)
  }

  /** The headers that flows on the way write, and the ingress port where the controller is told it. */
  ghost function WayTouches(c: Config, t: nat, fields: Cells): set<Attr>
    requires ConfigOk(c) && t < NUM_TABLES && |fields| == CFR_CELLS
    decreases NUM_TABLES - t
  {
    match Lookup(c, t, fields)
    case None => if c.version13 then {} else {IN_PORT}
    case Some(flow) =>
      Touched(flow.actions) +
      if flow.next.Some? then WayTouches(c, flow.next.value, UpdateCfr(fields, flow.actions)) else {}
  }

  lemma {:induction false} OrMasksBits(shards: seq<Shard>, m: Cells, j: nat, b: nat)
    requires Shaped(|m|, shards) && j < |m|
    ensures b in OrMasks(shards, m)[j] <==> b in m[j] || exists s :: 0 <= s < |shards| && b in shards[s].mask[j]
  {
    if shards != [] {
      var n := |shards| - 1;
      assert forall s :: 0 <= s < n ==> shards[..n][s] == shards[s];
      OrMasksBits(shards[..n], m, j, b);
    }
  }

  lemma TableLooks(c: Config, t: nat, m: Cells, j: nat, b: nat)
    requires ConfigOk(c) && t < NUM_TABLES && |m| == CFR_CELLS && j < CFR_CELLS
    ensures |c.tables| == NUM_TABLES
    ensures b in TableMask(c, t, m)[j] <==> b in m[j] || Looks(c.tables[t], j, b)
  {
    var table := c.tables[t];
    assert TableOk(c.mm, t, table);
    LayoutShaped(c.mm, CFR_CELLS, table.shards);
    hide LayoutOk, OrMasks;
    OrMasksBits(table.shards, m, j, b);
  }

  lemma HitWithin(c: Config, t: nat, flow: Flow, r: Run, env: Env)
    requires t < |c.tables| && Fits(r.ctx)
    ensures Within(r.ctx, Hit(c.tables[t], flow, r, env).ctx, Touched(flow.actions))
  {
    hide Within, Translate, Touched;
    var table := c.tables[t];
    TranslateWithin(AddStats(r, [if flow.tableMiss then table.missed else table.matched, flow.handle]), flow.actions, env);
  }

  lemma MissWithin(c: Config, t: nat, r: Run)
    requires t < |c.tables| && Fits(r.ctx)
    ensures Within(r.ctx, Miss(c, c.tables[t], r).ctx, if c.version13 then {} else {IN_PORT})
  {
    hide Within, Userspace;
    if c.version13 {
      WithinSelf(r.ctx, {});
    } else {
      ApplyWithin(r.ctx, Controller(NO_MATCH), c.pktinPid);
    }
  }

  /** Along the tables: the fields' mask is what they look at, and the packet's mask keeps to what is touched. */
  lemma {:induction false} WalkMasks(c: Config, t: nat, w: Walk, env: Env, j: nat, b: nat)
    requires ConfigOk(c) && t < NUM_TABLES && WalkFits(w) && j < CFR_CELLS
    ensures b in WalkFrom(c, t, w, env).cfrMask[j] <==> b in w.cfrMask[j] || LookedAt(c, t, w.cfr, j, b)
    ensures Within(w.run.ctx, WalkFrom(c, t, w, env).run.ctx, WayTouches(c, t, w.cfr))
    decreases NUM_TABLES - t
  {
    TableLooks(c, t, w.cfrMask, j, b);
    hide ConfigOk, Lookup, TableMask, Miss, Hit, UpdateCfr, Within, Looks, Touched;
    match Lookup(c, t, w.cfr) {
      case None => MissWithin(c, t, w.run);
      case Some(flow) =>
        HitWithin(c, t, flow, w.run, env);
        var next := After(c, t, w, TableMask(c, t, w.cfrMask), flow, env);
        if flow.next.Some? {
          WalkMasks(c, flow.next.value, next, env, j, b);
          WithinTrans(w.run.ctx, next.run.ctx, WalkFrom(c, t, w, env).run.ctx, Touched(flow.actions),
                      WayTouches(c, flow.next.value, next.cfr));
        } else {
          assert Touched(flow.actions) + {} == Touched(flow.actions);
        }
    }
  }

  /** What a decision reads by itself: the ingress port, the hashed addresses, an uplink's VLAN. */
  function OwnReads(ib: Inband, k: Key): set<Attr>
    requires Sized(k.cells)
  {
    {IN_PORT, ETHERNET} + if ib.vlan.Some? && ib.isUplink(k.cells[C_IN_PORT]) then {VLAN} else {}
  }

  lemma OnesOutside(m: Cells, a: Attr, s: set<Attr>, i: nat)
    requires Sized(m) && i < CELLS && a in s && Outside(i, s)
    ensures WithOnes(m, a)[i] == m[i]
  {
    assert !(First(a) <= i < Past(a));
    hide First, Past;
  }

  lemma StartMask(ib: Inband, k: Key, i: nat)
    requires Sized(k.cells) && RouteOf(ib, k).Tables? && i < CELLS && Outside(i, OwnReads(ib, k))
    ensures var x := StartWalk(k, RouteOf(ib, k).run).run.ctx; x.modified == {} && x.mask[i] == {}
  {
    hide Outside, WithOnes, VID, INBAND_PORT, FromUplink, ToUplink, KeyToCfr;
    var m, s := Zeroes(CELLS), OwnReads(ib, k);
    OnesOutside(m, IN_PORT, s, i);
    OnesOutside(WithOnes(m, IN_PORT), ETHERNET, s, i);
    if VLAN in s {
      OnesOutside(WithOnes(m, IN_PORT), VLAN, s, i);
      OnesOutside(WithOnes(WithOnes(m, IN_PORT), VLAN), ETHERNET, s, i);
    }
  }

  /** The fields' mask at the end of the walk, by what the tables on the way look at. */
  ghost predicate IsLookedMask(c: Config, k: Key, cm: Cells)
    requires ConfigOk(c) && Sized(k.cells)
  {
    |cm| == CFR_CELLS && forall j: nat, b: nat :: j < CFR_CELLS ==> (b in cm[j] <==> LookedAt(c, 0, KeyToCfr(k), j, b))
  }

  lemma WalkMaskIs(c: Config, k: Key, r: Run)
    requires ConfigOk(c) && Sized(k.cells) && Fits(r.ctx)
    ensures IsLookedMask(c, k, FinalWalk(c, k, r).cfrMask)
  {
    hide ConfigOk, KeyToCfr, WalkFrom, LookedAt, Within, WayTouches, EnvFor;
    forall j: nat, b: nat | j < CFR_CELLS
      ensures b in FinalWalk(c, k, r).cfrMask[j] <==> LookedAt(c, 0, KeyToCfr(k), j, b)
    {
      WalkMasks(c, 0, StartWalk(k, r), EnvFor(c, k), j, b);
    }
  }

  lemma ProcessMask(c: Config, k: Key, r: Run, i: nat)
    requires ConfigOk(c) && WellFormed(k) && Sized(k.cells) && Fits(r.ctx) && i < CELLS
    requires var x := StartWalk(k, r).run.ctx; x.modified == {} && x.mask[i] == {}
    requires Outside(i, WayTouches(c, 0, KeyToCfr(k)))
    ensures Process(c, k, r).ctx.mask[i] == Gains(k, FinalWalk(c, k, r).cfrMask, i)
  {
    CfrTypes(k);
    hide ConfigOk, WellFormed, KeyToCfr, TranslateMask, Gains, WalkFrom, WayTouches, Outside, LookedAt, EnvFor, WithOnes, DlType,
      NwProto;
    var s, w := StartWalk(k, r), FinalWalk(c, k, r);
    WalkTypes(c, 0, s, EnvFor(c, k));
    WalkMasks(c, 0, s, EnvFor(c, k), 0, 0);
    assert s.run.ctx.modified + WayTouches(c, 0, KeyToCfr(k)) == WayTouches(c, 0, KeyToCfr(k));
    TranslatedExactly(k, w.run.ctx.mask, w.cfr, w.cfrMask, i);
  }

  lemma OutsideBoth(i: nat, s: set<Attr>, t: set<Attr>)
    requires Outside(i, s + t)
    ensures Outside(i, s) && Outside(i, t)
  {
  }

  /** Outside the headers read or written on the way, the mask is exactly what the tables look at. */
  lemma DecisionMaskExactly(c: Config, ib: Inband, k: Key, i: nat) returns (cm: Cells)
    requires ConfigOk(c) && WellFormed(k) && Sized(k.cells) && RouteOf(ib, k).Tables? && i < CELLS
    requires Outside(i, OwnReads(ib, k) + WayTouches(c, 0, KeyToCfr(k)))
    ensures IsLookedMask(c, k, cm) && Decide(c, ib, k).mask[i] == Gains(k, cm, i)
  {
    OutsideBoth(i, OwnReads(ib, k), WayTouches(c, 0, KeyToCfr(k)));
    StartMask(ib, k, i);
    hide ConfigOk, WellFormed, KeyToCfr, RouteOf, StartWalk, Process, Gains, WayTouches, IsLookedMask, Outside, OwnReads;
    var r := RouteOf(ib, k).run;
    cm := FinalWalk(c, k, r).cfrMask;
    WalkMaskIs(c, k, r);
    ProcessMask(c, k, r, i);
  }

  // ---- the in-band shortcut ------------------------------------------------------------

  lemma SendWithin(x: Context, port: Bits, s: set<Attr>)
    requires Fits(x) && x.modified <= s
    ensures Fits(OutputTo(x, port)) && forall i :: 0 <= i < CELLS && Outside(i, s) ==> OutputTo(x, port).mask[i] == x.mask[i]
  {
    ApplyWithin(x, Output(port), 0);
    hide OutputTo;
    forall i | 0 <= i < CELLS && Outside(i, s) ensures Outside(i, x.modified + {}) {
    }
  }

  lemma SetModifies(x: Context, f: Field, s: set<Attr>)
    requires Fits(x) && x.modified <= s && Headers(f) <= s
    ensures var y := SetField(x, f); Fits(y) && y.mask == x.mask && y.modified <= s
  {
    SetWithin(x, f);
    hide SetField, Headers;
  }

  lemma FromUplinkMask(x: Context, i: nat)
    requires Fits(x) && x.modified == {} && i < CELLS && Outside(i, {VLAN})
    ensures FromUplink(x).mask[i] == x.mask[i]
  {
    hide SetField, OutputTo, INBAND_PORT;
    SetModifies(x, PopVlan, {VLAN});
    SendWithin(SetField(x, PopVlan), INBAND_PORT, {VLAN});
  }

  lemma ToUplinkMask(x: Context, ib: Inband, i: nat)
    requires Fits(x) && x.modified == {} && i < CELLS && Outside(i, {VLAN, PRIORITY}) && ib.vlan.Some?
    ensures ToUplink(x, ib.vlan.value, ib.uplink, ib.queue).mask[i] == x.mask[i]
  {
    hide SetField, OutputTo, Outside;
    if ib.uplink.Some? {
      var s := {VLAN, PRIORITY};
      var y := SetField(x, PushVlan);
      var z := SetField(y, VlanVid(ib.vlan.value));
      SetModifies(x, PushVlan, s);
      SetModifies(y, VlanVid(ib.vlan.value), s);
      if ib.queue.Some? {
        SetModifies(z, Priority(ib.queue.value), s);
        SendWithin(SetField(z, Priority(ib.queue.value)), ib.uplink.value, s);
      } else {
        SendWithin(z, ib.uplink.value, s);
      }
    }
  }

  /** A packet on the shortcut is decided by its ingress port, its tag and, if written, its queue. */
  lemma ShortcutMask(c: Config, ib: Inband, k: Key, i: nat)
    requires ConfigOk(c) && Sized(k.cells) && RouteOf(ib, k).Shortcut? && i < CELLS && Outside(i, {IN_PORT, VLAN, PRIORITY})
    ensures Decide(c, ib, k).mask[i] == {}
  {
    hide ConfigOk, WithOnes, FromUplink, ToUplink, VID, INBAND_PORT, Outside, Process;
    var s := {IN_PORT, VLAN, PRIORITY};
    var m, x := Zeroes(CELLS), InitRun(k).ctx;
    OnesOutside(m, IN_PORT, s, i);
    OnesOutside(x.mask, VLAN, s, i);
    OutsideSome(i, s);
    FromUplinkMask(Mask(x, VLAN), i);
    ToUplinkMask(x, ib, i);
  }

  lemma OutsideSome(i: nat, s: set<Attr>)
    requires Outside(i, s) && VLAN in s && PRIORITY in s
    ensures Outside(i, {VLAN}) && Outside(i, {VLAN, PRIORITY})
  {
  }
}
