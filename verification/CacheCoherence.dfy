/**
 What the flow cache promises about packets: a flow that carries the verdict on
 its own key carries the verdict on every packet it covers.
 */
module CacheCoherence {
  import opened Cells
  import opened Keys
  import opened Actions
  import opened ActionRefinement
  import opened Cfr
  import opened CfrSoundness
  import opened Pipeline
  import opened PipelineSoundness
  import opened MegaflowExactness
  import opened Decision
  import opened TableMeaning
  import F = FlowState
  import Kflow

  /** The pipeline decides by this configuration. */
  ghost predicate Implements(p: F.Pipeline, c: Config, ib: Inband) {
    ConfigOk(c) && forall k :: WellFormed(k) ==> Sized(k.cells) && p(k) == Some(Decide(c, ib, k))
  }

  /** Every packet the kernel sends through the flow gets what the pipeline would give it. */
  ghost predicate RightForAll(p: F.Pipeline, f: F.Kflow) {
    forall k :: WellFormed(k) && k.populated == f.raw.key.populated && Agree(f.raw.key.cells, k.cells, f.verdict.mask) ==>
      p(k) == Some(f.verdict)
  }

  lemma RightIsDecisionRight(p: F.Pipeline, c: Config, ib: Inband, f: F.Kflow)
    requires Implements(p, c, ib) && WellFormed(f.raw.key) && p(f.raw.key) == Some(f.verdict)
    ensures Sized(f.raw.key.cells) && (RightForAll(p, f) <==> DecisionRight(c, ib, f.raw.key))
  {
    var key := f.raw.key;
    assert p(key) == Some(Decide(c, ib, key));
    hide ConfigOk, WellFormed, Decide, Agree;
    if RightForAll(p, f) {
      forall k2 | WellFormed(k2) && k2.populated == key.populated && Agree(key.cells, k2.cells, f.verdict.mask)
        ensures Sized(k2.cells) && Decide(c, ib, k2) == f.verdict
      {
        assert p(k2) == Some(f.verdict);
      }
    }
    if DecisionRight(c, ib, key) {
      forall k2 | WellFormed(k2) && k2.populated == key.populated && Agree(key.cells, k2.cells, f.verdict.mask)
        ensures p(k2) == Some(f.verdict)
      {
        assert p(k2) == Some(Decide(c, ib, k2));
      }
    }
  }

  /** A coherent flow is right for all it covers exactly when its decision is settled. */
  lemma FlowRightExactly(p: F.Pipeline, c: Config, ib: Inband, f: F.Kflow)
    requires Implements(p, c, ib) && WellFormed(f.raw.key) && p(f.raw.key) == Some(f.verdict)
    ensures Sized(f.raw.key.cells) && (RightForAll(p, f) <==> Settled(c, ib, f.raw.key))
  {
    RightIsDecisionRight(p, c, ib, f);
    hide ConfigOk, WellFormed, RightForAll, DecisionRight, Settled;
    DecisionRightExactly(c, ib, f.raw.key);
  }

  /** With scoped matches that is a matter of the TTL, and without decrements it always is. */
  lemma ScopedFlowRight(p: F.Pipeline, c: Config, ib: Inband, f: F.Kflow)
    requires Implements(p, c, ib) && WellFormed(f.raw.key) && p(f.raw.key) == Some(f.verdict) && TablesScoped(c)
    ensures Sized(f.raw.key.cells) && (RightForAll(p, f) <==> TtlSettled(c, ib, f.raw.key))
    ensures !ConfigHasDec(c) ==> RightForAll(p, f)
  {
    FlowRightExactly(p, c, ib, f);
    hide ConfigOk, WellFormed, RightForAll, Settled, TtlSettled, TablesScoped, ConfigHasDec, HasDec;
    ScopedIsSettled(c, ib, f.raw.key);
    if !ConfigHasDec(c) {
      NoDecAnywhere(c, ib, f.raw.key);
      NoDecIsSettled(c, ib, f.raw.key);
    }
  }

  // ---- the keys a flow covers --------------------------------------------------------

  /** The packets of RightForAll are the covered ones with no attribute that the flow's key lacks. */
  lemma RightForCovered(p: F.Pipeline, c: Config, ib: Inband, f: F.Kflow)
    requires Implements(p, c, ib) && WellFormed(f.raw.key) && p(f.raw.key) == Some(f.verdict)
    ensures f.verdict.populated == f.raw.key.populated + {ETHERTYPE}
    ensures RightForAll(p, f) <==>
      forall k :: WellFormed(k) && F.Covers(f, k) && k.populated <= f.raw.key.populated ==> p(k) == Some(f.verdict)
  {
    hide ConfigOk, WellFormed, Decide, Agree, F.Covers;
    assert f.verdict == Decide(c, ib, f.raw.key);
    DecidePopulated(c, ib, f.raw.key);
    forall k: Key ensures k.populated == f.raw.key.populated && Agree(f.raw.key.cells, k.cells, f.verdict.mask) <==>
                     F.Covers(f, k) && k.populated <= f.raw.key.populated {
      F.CoversPlainly(f, k);
    }
  }

  /** The same packet with a tag. */
  function WithTag(k: Key, tci: Bits): Key
    requires Sized(k.cells)
  {
    Key(k.populated + {VLAN}, k.cells[C_VLAN := tci])
  }

  lemma WithTagTypes(k: Key, tci: Bits)
    requires Sized(k.cells)
    ensures DlType(WithTag(k, tci)) == DlType(k) && NwProto(WithTag(k, tci)) == NwProto(k)
  {
    hide IsLength, LOW_BYTE;
  }

  lemma WithTagWidth(k: Key, tci: Bits)
    requires InWidth(k.cells) && tci <= Ones(16)
    ensures InWidth(WithTag(k, tci).cells)
  {
    assert Width(C_VLAN) == 16;
    hide Ones, Width;
  }

  lemma WithTagWellFormed(k: Key, tci: Bits)
    requires WellFormed(k) && tci <= Ones(16)
    ensures Sized(k.cells) && WellFormed(WithTag(k, tci))
  {
    WellFormedFits(k);
    WithTagTypes(k, tci);
    WithTagWidth(k, tci);
    hide InWidth, DlType, NwProto, Ones, IsPorts, IsIcmp, ETH_P_IP, ETH_P_IPV6, ETH_P_ARP;
  }

  /** A flow of an untagged packet that did not look at the tag covers the tagged ones too. */
  lemma TagIsCovered(f: F.Kflow, tci: Bits)
    requires WellFormed(f.raw.key) && Sized(f.raw.key.cells) && Sized(f.verdict.mask) && tci <= Ones(16)
    requires f.verdict.populated == f.raw.key.populated + {ETHERTYPE} && VLAN !in f.raw.key.populated
    requires f.verdict.mask[C_VLAN] == {}
    ensures WellFormed(WithTag(f.raw.key, tci)) && F.Covers(f, WithTag(f.raw.key, tci))
  {
    WithTagWellFormed(f.raw.key, tci);
    hide WellFormed, Ones;
    F.CoversPlainly(f, WithTag(f.raw.key, tci));
  }

  /** A flow that pops the tag and sends: the untagged packet's actions are not the tagged one's. */
  lemma PopIsSkipped(c: Config, ib: Inband, k: Key, tci: Bits, flow: Flow, port: Bits)
    requires ConfigOk(c) && Sized(k.cells) && VLAN !in k.populated
    requires RouteOf(ib, k).Tables? && RouteOf(ib, WithTag(k, tci)).Tables?
    requires Pipeline.Lookup(c, 0, KeyToCfr(k)) == Some(flow) == Pipeline.Lookup(c, 0, KeyToCfr(WithTag(k, tci)))
    requires flow.actions == [Set(PopVlan), Output(port)] && flow.next.None?
    ensures Decide(c, ib, k).actions == [KOutput(port)]
    ensures KPopVlan in Decide(c, ib, WithTag(k, tci)).actions
  {
    OneHitActions(c, ib, k, flow);
    OneHitActions(c, ib, WithTag(k, tci), flow);
    hide ConfigOk, RouteOf, Lookup, KeyToCfr, Decide, EnvFor, WithOnes, FIELDS;
    PopSends(Run(Context(k, {}, Mask(RouteOf(ib, k).run.ctx, ETHERNET).mask, []), []), flow, port, EnvFor(c, k));
    var t := WithTag(k, tci);
    PopSends(Run(Context(t, {}, Mask(RouteOf(ib, t).run.ctx, ETHERNET).mask, []), []), flow, port, EnvFor(c, t));
  }

  lemma OneHitActions(c: Config, ib: Inband, k: Key, flow: Flow)
    requires ConfigOk(c) && Sized(k.cells) && RouteOf(ib, k).Tables?
    requires Pipeline.Lookup(c, 0, KeyToCfr(k)) == Some(flow) && flow.next.None?
    ensures |c.tables| == NUM_TABLES
    ensures var r := Run(Context(k, {}, Mask(RouteOf(ib, k).run.ctx, ETHERNET).mask, []), []);
      exists h :: Decide(c, ib, k).actions == Translate(AddStats(r, h), flow.actions, EnvFor(c, k)).ctx.msg
  {
    OneHit(c, ib, k, flow);
    RouteFresh(ib, k);
    hide ConfigOk, RouteOf, Lookup, KeyToCfr, EnvFor, WithOnes, Translate, WalkFrom, TranslateMask;
  }

  lemma PopSends(r: Run, flow: Flow, port: Bits, env: Env)
    requires Fits(r.ctx) && r.ctx.modified == {} && r.ctx.msg == [] && flow.actions == [Set(PopVlan), Output(port)]
    ensures forall h :: var msg := Translate(AddStats(r, h), flow.actions, env).ctx.msg;
      if VLAN in r.ctx.key.populated then KPopVlan in msg else msg == [KOutput(port)]
  {
    forall h
      ensures var msg := Translate(AddStats(r, h), flow.actions, env).ctx.msg;
        if VLAN in r.ctx.key.populated then KPopVlan in msg else msg == [KOutput(port)]
    {
      var x := SetField(r.ctx, PopVlan);
      var q := AddStats(r, h).(ctx := x);
      assert flow.actions[1..] == [Output(port)] && [Output(port)][1..] == [];
      assert Translate(AddStats(r, h), flow.actions, env) == Translate(q, [Output(port)], env);
      assert Translate(q, [Output(port)], env).ctx == OutputTo(x, port);
      if VLAN in r.ctx.key.populated {
        hide CommitFields, WithOnes;
        assert CommitVlan(x).msg[0] == KPopVlan;
        assert OutputTo(x, port).msg[0] == KPopVlan;
      }
    }
  }

  /** What holds of a cached flow and of its copy in the kernel. */
  ghost predicate FlowHolds(cache: Kflow.Cache, c: Config, ib: Inband, f: F.Kflow)
    reads cache
    requires ConfigOk(c)
  {
    && WellFormed(f.raw.key) && Sized(f.raw.key.cells)
    && (RightForAll(cache.pipeline, f) <==> Settled(c, ib, f.raw.key))
    && (TablesScoped(c) ==> (RightForAll(cache.pipeline, f) <==> TtlSettled(c, ib, f.raw.key)))
    && (TablesScoped(c) && !ConfigHasDec(c) ==> RightForAll(cache.pipeline, f))
    && f.raw in cache.kernel && F.SameFlow(f, cache.kernel[f.raw])
  }

  /** A packet with at most one tag that the flow covers. */
  ghost predicate CoversPacket(f: F.Kflow, q: Packet) {
    && PacketOk(q) && |q.tags| <= 1 && WellFormed(KeyOf(q)) && KeyOf(q).populated == f.raw.key.populated
    && Agree(f.raw.key.cells, KeyOf(q).cells, f.verdict.mask)
  }

  /** A flow that is right for all does to every such packet what the tables mean. */
  lemma RightFlowMeans(p: F.Pipeline, c: Config, ib: Inband, f: F.Kflow, q: Packet)
    requires Implements(p, c, ib) && RightForAll(p, f) && CoversPacket(f, q)
    ensures |c.tables| == 16 && Means(c, ib, q, f.verdict)
  {
    hide ConfigOk, WellFormed, Decide, Agree, Means, KeyOf, PacketOk;
    assert p(KeyOf(q)) == Some(Decide(c, ib, KeyOf(q)));
    DecisionMeans(c, ib, q);
  }

  ghost predicate FlowMeans(c: Config, ib: Inband, f: F.Kflow) {
    |c.tables| == 16 && forall q :: CoversPacket(f, q) ==> Means(c, ib, q, f.verdict)
  }

  lemma HeldFlowMeans(cache: Kflow.Cache, c: Config, ib: Inband, f: F.Kflow)
    requires Implements(cache.pipeline, c, ib) && FlowHolds(cache, c, ib, f) && Settled(c, ib, f.raw.key)
    ensures FlowMeans(c, ib, f)
  {
    assert |c.tables| == NUM_TABLES;
    hide ConfigOk, Settled, Means, CoversPacket;
    forall q | CoversPacket(f, q) ensures PacketOk(q) && Means(c, ib, q, f.verdict) {
      RightFlowMeans(cache.pipeline, c, ib, f, q);
    }
  }

  /**
   Cache coherence.  After a revalidation every cached flow and its copy in the kernel are
   right for every packet they cover exactly when the decision on the flow's own key is
   settled.
   */
  lemma RevalidatedCacheIsRight(cache: Kflow.Cache, c: Config, ib: Inband)
    requires cache.Valid() && cache.Coherent() && Implements(cache.pipeline, c, ib)
    ensures forall id :: id in cache.flows ==> FlowHolds(cache, c, ib, cache.flows[id])
  {
    cache.WellKeyed();
    forall id | id in cache.flows ensures FlowHolds(cache, c, ib, cache.flows[id]) {
      var f := cache.flows[id];
      hide ConfigOk, WellFormed, RightForAll, Settled, TtlSettled, TablesScoped, ConfigHasDec, F.IndexOk, F.BooksOk, F.Dated;
      Kflow.MirroredAt(cache.kernel, cache.flows, id);
      FlowRightExactly(cache.pipeline, c, ib, f);
      if TablesScoped(c) {
        ScopedFlowRight(cache.pipeline, c, ib, f);
      }
    }
  }
}
