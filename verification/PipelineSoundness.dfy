/**
 Megaflow soundness of the multi-table walk: two packets that agree on the mask
 of one visit the same tables, hit the same flows and get the same decision, even
 though set-field actions rewrite the CFR between tables.
 */
module PipelineSoundness {
  import opened Cells
  import opened SoftTcam
  import opened Tcam
  import opened Keys
  import opened Actions
  import opened ActionSoundness
  import opened Cfr
  import opened CfrSoundness
  import opened Pipeline

  /** Some flow may decrement the TTL. */
  ghost predicate ConfigHasDec(c: Config) {
    exists t, id :: 0 <= t < |c.tables| && id in c.tables[t].flows && HasDecTtl(c.tables[t].flows[id].actions)
  }

  /** A flow that this packet's walk hits may decrement the TTL. */
  ghost predicate WalkHasDec(c: Config, t: nat, w: Walk, env: Env)
    requires ConfigOk(c) && t < NUM_TABLES && WalkFits(w)
    decreases NUM_TABLES - t
  {
    match Lookup(c, t, w.cfr)
    case None => false
    case Some(flow) =>
      || HasDecTtl(flow.actions)
      || (flow.next.Some? &&
          WalkHasDec(c, flow.next.value,
                     Walk(UpdateCfr(w.cfr, flow.actions), TableMask(c, t, w.cfrMask), Hit(c.tables[t], flow, w.run, env)), env))
  }

  ghost predicate ProcessHasDec(c: Config, k: Key, r: Run)
    requires ConfigOk(c) && Sized(k.cells) && Fits(r.ctx)
  {
    WalkHasDec(c, 0, StartWalk(k, r), EnvFor(c, k))
  }

  /** Keys that agree on everything a table looked at find the same flow in it. */
  lemma LookupAgree(c: Config, t: nat, f1: Cells, f2: Cells, m: Cells)
    requires ConfigOk(c) && t < NUM_TABLES && |m| == CFR_CELLS
    requires Agree(f1, f2, TableMask(c, t, m))
    ensures Lookup(c, t, f1) == Lookup(c, t, f2)
  {
    hide LayoutOk, Scan, OrMasks;
    var shards := c.tables[t].shards;
    assert TableOk(c.mm, t, c.tables[t]);
    LayoutShaped(c.mm, CFR_CELLS, shards);
    assert ShardsOk(c.mm, CFR_CELLS, shards) by { LayoutShards(c.mm, CFR_CELLS, shards); }
    ScanAgree(c.mm, CFR_CELLS, shards, f1, f2, m);
  }

  lemma LayoutShards(mm: Murmur, kw: nat, shards: seq<Shard>)
    requires LayoutOk(mm, kw, shards)
    ensures ShardsOk(mm, kw, shards)
  {
  }

  /** A flow found by a lookup is one of the configuration's flows. */
  lemma LookupHasDec(c: Config, t: nat, f: Cells)
    requires ConfigOk(c) && t < NUM_TABLES && |f| == CFR_CELLS
    ensures var r := Lookup(c, t, f); r.Some? && HasDecTtl(r.value.actions) ==> ConfigHasDec(c)
  {
    hide LayoutOk, Scan, HasDecTtl;
    assert TableOk(c.mm, t, c.tables[t]);
    LayoutShaped(c.mm, CFR_CELLS, c.tables[t].shards);
    LayoutShards(c.mm, CFR_CELLS, c.tables[t].shards);
    ScanIsBestMatch(c.mm, CFR_CELLS, c.tables[t].shards, f);
  }

  lemma {:induction false} NoDecNowhere(c: Config, t: nat, w: Walk, env: Env)
    requires ConfigOk(c) && t < NUM_TABLES && WalkFits(w) && !ConfigHasDec(c)
    ensures !WalkHasDec(c, t, w, env)
    decreases NUM_TABLES - t
  {
    assert |c.tables| == NUM_TABLES;
    hide ConfigOk, Lookup, TableMask, Hit, HasDecTtl, ConfigHasDec, UpdateCfr;
    LookupHasDec(c, t, w.cfr);
    match Lookup(c, t, w.cfr) {
      case None =>
      case Some(flow) =>
        if flow.next.Some? {
          NoDecNowhere(c, flow.next.value,
                       Walk(UpdateCfr(w.cfr, flow.actions), TableMask(c, t, w.cfrMask), Hit(c.tables[t], flow, w.run, env)), env);
        }
    }
  }

  /** Two walks in step; c1 and c2 are the CFRs the packets came in with. */
  ghost predicate TwinWalks(w1: Walk, w2: Walk, k1: Cells, k2: Cells, c1: Cells, c2: Cells) {
    && WalkFits(w1) && WalkFits(w2) && |c1| == |c2| == CFR_CELLS
    && TwinRuns(w1.run, w2.run, k1, k2)
    && w1.cfrMask == w2.cfrMask
    && Close(w1.cfr, w2.cfr, c1, c2)
    && w1.cfr[F_DL_TYPE] == c1[F_DL_TYPE] && w1.cfr[F_NW_PROTO] == c1[F_NW_PROTO]
    && w2.cfr[F_DL_TYPE] == c2[F_DL_TYPE] && w2.cfr[F_NW_PROTO] == c2[F_NW_PROTO]
  }

  lemma MissTwins(c: Config, table: FlowTable, r1: Run, r2: Run, k1: Cells, k2: Cells, m: Cells)
    requires TwinRuns(r1, r2, k1, k2) && Covered(k1, k2, m) && Below(Miss(c, table, r1).ctx.mask, m)
    ensures TwinRuns(Miss(c, table, r1), Miss(c, table, r2), k1, k2)
  {
    if !c.version13 {
      ApplyTwins(r1.ctx, r2.ctx, Controller(NO_MATCH), c.pktinPid, k1, k2, m);
    }
  }

  lemma HitTwins(table: FlowTable, flow: Flow, r1: Run, r2: Run, env: Env, k1: Cells, k2: Cells, m: Cells)
    requires TwinRuns(r1, r2, k1, k2) && Covered(k1, k2, m) && Below(Hit(table, flow, r1, env).ctx.mask, m)
    requires DecOk(HasDecTtl(flow.actions), r1.ctx, m)
    ensures TwinRuns(Hit(table, flow, r1, env), Hit(table, flow, r2, env), k1, k2)
    ensures SameHeaders(Hit(table, flow, r1, env).ctx, r1.ctx)
  {
    hide Twins, Covered, HasDecTtl;
    TwinsFit(r1.ctx, r2.ctx, k1, k2);
    var h := [if flow.tableMiss then table.missed else table.matched, flow.handle];
    TranslateTwins(AddStats(r1, h), AddStats(r2, h), flow.actions, env, k1, k2, m);
  }

  /** The whole walk keeps the two packets in step. */
  lemma {:induction false} WalkTwins(c: Config, t: nat, w1: Walk, w2: Walk, env: Env,
                                     k1: Cells, k2: Cells, c1: Cells, c2: Cells, m: Cells, cm: Cells)
    requires ConfigOk(c) && t < NUM_TABLES && TwinWalks(w1, w2, k1, k2, c1, c2)
    requires Covered(k1, k2, m) && Agree(c1, c2, cm)
    requires Below(WalkFrom(c, t, w1, env).run.ctx.mask, m) && Below(WalkFrom(c, t, w1, env).cfrMask, cm)
    requires DecOk(WalkHasDec(c, t, w1, env), w1.run.ctx, m)
    ensures TwinWalks(WalkFrom(c, t, w1, env), WalkFrom(c, t, w2, env), k1, k2, c1, c2)
    decreases NUM_TABLES - t
  {
    assert |c.tables| == NUM_TABLES;
    hide ConfigOk, Lookup, TableMask, Miss, Hit, Covered, HasDecTtl, Twins, Close, UpdateCfr;
    var table := c.tables[t];
    var tm := TableMask(c, t, w1.cfrMask);
    FirstStep(c, t, w1, env, cm);
    CloseAgree(w1.cfr, w2.cfr, c1, c2, cm);
    AgreeMono(w1.cfr, w2.cfr, tm, cm);
    LookupAgree(c, t, w1.cfr, w2.cfr, w1.cfrMask);
    match Lookup(c, t, w1.cfr) {
      case None =>
        MissTwins(c, table, w1.run, w2.run, k1, k2, m);
      case Some(flow) =>
        var r1, r2 := Hit(table, flow, w1.run, env), Hit(table, flow, w2.run, env);
        HitMask(c, t, w1, flow, env, m);
        HitTwins(table, flow, w1.run, w2.run, env, k1, k2, m);
        if flow.next.Some? {
          UpdateClose(w1.cfr, w2.cfr, c1, c2, flow.actions);
          DecOkStable(WalkHasDec(c, flow.next.value, Walk(UpdateCfr(w1.cfr, flow.actions), tm, r1), env), w1.run.ctx, r1.ctx, m);
          WalkTwins(c, flow.next.value, Walk(UpdateCfr(w1.cfr, flow.actions), tm, r1),
                    Walk(UpdateCfr(w2.cfr, flow.actions), tm, r2), env, k1, k2, c1, c2, m, cm);
        }
    }
  }

  /** The first table's mask is part of the final CFR mask. */
  lemma FirstStep(c: Config, t: nat, w: Walk, env: Env, cm: Cells)
    requires ConfigOk(c) && t < NUM_TABLES && WalkFits(w) && Below(WalkFrom(c, t, w, env).cfrMask, cm)
    ensures Below(TableMask(c, t, w.cfrMask), cm)
  {
    hide ConfigOk, Lookup, TableMask, Miss, Hit, UpdateCfr;
    BelowTrans(TableMask(c, t, w.cfrMask), WalkFrom(c, t, w, env).cfrMask, cm);
  }

  lemma HitMask(c: Config, t: nat, w: Walk, flow: Flow, env: Env, m: Cells)
    requires ConfigOk(c) && t < NUM_TABLES && WalkFits(w) && Lookup(c, t, w.cfr) == Some(flow)
    requires Below(WalkFrom(c, t, w, env).run.ctx.mask, m)
    ensures Below(Hit(c.tables[t], flow, w.run, env).ctx.mask, m)
  {
    assert |c.tables| == NUM_TABLES;
    hide ConfigOk, Lookup, TableMask, Miss, Hit, UpdateCfr;
    BelowTrans(Hit(c.tables[t], flow, w.run, env).ctx.mask, WalkFrom(c, t, w, env).run.ctx.mask, m);
  }

  // ---- the whole pipeline --------------------------------------------------

  ghost function FinalWalk(c: Config, k: Key, r: Run): (w: Walk)
    requires ConfigOk(c) && Sized(k.cells) && Fits(r.ctx)
    ensures WalkFits(w)
  {
    WalkFrom(c, 0, StartWalk(k, r), EnvFor(c, k))
  }

  /** The Ethernet addresses are in the mask, so both packets hash to the same group bucket. */
  lemma EthernetMasked(x: Context)
    requires Fits(x)
    ensures Ones(Width(C_ETH_SRC)) <= Mask(x, ETHERNET).mask[C_ETH_SRC]
    ensures Ones(Width(C_ETH_DST)) <= Mask(x, ETHERNET).mask[C_ETH_DST]
  {
    hide Ones, Width;
  }

  lemma TwoCells(c: Cells)
    requires Sized(c)
    ensures c[C_ETH_SRC..C_ETH_DST + 1] == [c[C_ETH_SRC], c[C_ETH_DST]]
  {
  }

  lemma SameEnv(c: Config, k1: Key, k2: Key, r: Run, m: Cells)
    requires Covered(k1.cells, k2.cells, m) && Fits(r.ctx) && Below(Mask(r.ctx, ETHERNET).mask, m)
    ensures EnvFor(c, k1) == EnvFor(c, k2)
  {
    EthernetMasked(r.ctx);
    hide Ones, Width, WithOnes, CellAgree;
    CellExact(k1.cells, k2.cells, m, C_ETH_SRC);
    CellExact(k1.cells, k2.cells, m, C_ETH_DST);
    TwoCells(k1.cells);
    TwoCells(k2.cells);
  }

  lemma CfrTypes(k: Key)
    requires Sized(k.cells)
    ensures KeyToCfr(k)[F_DL_TYPE] == DlType(k) && KeyToCfr(k)[F_NW_PROTO] == NwProto(k)
  {
    hide DlType, NwProto;
    assert KeyToCfr(k)[F_NW_PROTO] == L3Cells(k)[1];
  }

  lemma CloseSelf(c1: Cells, c2: Cells)
    requires |c1| == |c2|
    ensures Close(c1, c2, c1, c2)
  {
  }

  lemma {:induction false} WalkTypes(c: Config, t: nat, w: Walk, env: Env)
    requires ConfigOk(c) && t < NUM_TABLES && WalkFits(w)
    ensures WalkFrom(c, t, w, env).cfr[F_DL_TYPE] == w.cfr[F_DL_TYPE]
    ensures WalkFrom(c, t, w, env).cfr[F_NW_PROTO] == w.cfr[F_NW_PROTO]
    decreases NUM_TABLES - t
  {
    assert |c.tables| == NUM_TABLES;
    hide ConfigOk, Lookup, TableMask, Miss, Hit, UpdateCfr;
    match Lookup(c, t, w.cfr) {
      case None =>
      case Some(flow) =>
        if flow.next.Some? {
          CloseSelf(w.cfr, w.cfr);
          UpdateClose(w.cfr, w.cfr, w.cfr, w.cfr, flow.actions);
          WalkTypes(c, flow.next.value,
                    Walk(UpdateCfr(w.cfr, flow.actions), TableMask(c, t, w.cfrMask), Hit(c.tables[t], flow, w.run, env)), env);
        }
    }
  }

  /** The same TTL in every IP header there is. */
  predicate SameTtl(p: set<Attr>, c1: Cells, c2: Cells) {
    && Sized(c1) && Sized(c2)
    && (IPV4 in p ==> c1[C_IP4_TTL] == c2[C_IP4_TTL])
    && (IPV6 in p ==> c1[C_IP6_HLIMIT] == c2[C_IP6_HLIMIT])
  }

  function WithTtls(m: Cells, p: set<Attr>): (r: Cells)
    requires Sized(m)
    ensures Below(m, r) && TtlCovered(p, r)
  {
    var n := if IPV4 in p then m[C_IP4_TTL := m[C_IP4_TTL] + Ones(Width(C_IP4_TTL))] else m;
    if IPV6 in p then n[C_IP6_HLIMIT := n[C_IP6_HLIMIT] + Ones(Width(C_IP6_HLIMIT))] else n
  }

  lemma WithTtlsAgree(c1: Cells, c2: Cells, m: Cells, p: set<Attr>)
    requires Agree(c1, c2, m) && SameTtl(p, c1, c2) && Sized(m)
    ensures Agree(c1, c2, WithTtls(m, p))
  {
    hide Ones, Width;
  }

  /** Up to the final translation, packets that agree on the mask, and on TTLs that may be decremented, are in step. */
  lemma ProcessTwins(c: Config, k1: Key, k2: Key, r1: Run, r2: Run)
    requires ConfigOk(c) && WellFormed(k1) && WellFormed(k2) && k1.populated == k2.populated
    requires TwinRuns(r1, r2, k1.cells, k2.cells)
    requires Agree(k1.cells, k2.cells, Process(c, k1, r1).ctx.mask)
    requires || DecOk(ProcessHasDec(c, k1, r1), r1.ctx, Process(c, k1, r1).ctx.mask)
             || SameTtl(r1.ctx.key.populated, k1.cells, k2.cells)
    ensures TwinWalks(FinalWalk(c, k1, r1), FinalWalk(c, k2, r2), k1.cells, k2.cells, KeyToCfr(k1), KeyToCfr(k2))
    ensures FinalWalk(c, k1, r1).cfr[F_DL_TYPE] == DlType(k1) && FinalWalk(c, k1, r1).cfr[F_NW_PROTO] == NwProto(k1)
    ensures FinalWalk(c, k2, r2).cfr[F_DL_TYPE] == DlType(k2) && FinalWalk(c, k2, r2).cfr[F_NW_PROTO] == NwProto(k2)
    ensures FinalWalk(c, k1, r1).cfrMask[F_NW_PROTO] != {} ==> NwProto(k1) == NwProto(k2)
  {
    var m := Process(c, k1, r1).ctx.mask;
    var s1, s2 := StartWalk(k1, r1), StartWalk(k2, r2);
    var w1 := FinalWalk(c, k1, r1);
    var c1, c2 := KeyToCfr(k1), KeyToCfr(k2);
    WellFormedFits(k1);
    WellFormedFits(k2);
    StartTwins(k1, k2, r1, r2);
    assert m == TranslateMask(w1.run.ctx.mask, w1.cfr, w1.cfrMask);
    assert Below(s1.run.ctx.mask, w1.run.ctx.mask);
    hide ConfigOk, TranslateMask, WellFormed, KeyToCfr, WalkHasDec, WalkFrom, Close, Twins, Agree, InWidth, DecOk, WithTtls, SameTtl;
    CfrTypes(k1);
    CfrTypes(k2);
    WalkTypes(c, 0, s1, EnvFor(c, k1));
    BelowSelf(m);
    CfrCovered(k1, k2, w1.run.ctx.mask, m, w1.cfr, w1.cfrMask);
    BelowTrans(w1.run.ctx.mask, m, m);
    BelowTrans(s1.run.ctx.mask, w1.run.ctx.mask, m);
    SameEnv(c, k1, k2, r1, m);
    BelowSelf(w1.cfrMask);
    var n := TtlMask(c, k1, k2, r1, m);
    BelowTrans(w1.run.ctx.mask, m, n);
    hide Below;
    DecOkStable(ProcessHasDec(c, k1, r1), r1.ctx, s1.run.ctx, n);
    WalkTwins(c, 0, s1, s2, EnvFor(c, k1), k1.cells, k2.cells, c1, c2, n, w1.cfrMask);
  }

  /** A mask on which the packets agree and that covers the TTLs, if need be. */
  lemma TtlMask(c: Config, k1: Key, k2: Key, r1: Run, m: Cells) returns (n: Cells)
    requires ConfigOk(c) && Sized(k1.cells) && Fits(r1.ctx) && Sized(m) && Agree(k1.cells, k2.cells, m)
    requires DecOk(ProcessHasDec(c, k1, r1), r1.ctx, m) || SameTtl(r1.ctx.key.populated, k1.cells, k2.cells)
    ensures Below(m, n) && Agree(k1.cells, k2.cells, n) && DecOk(ProcessHasDec(c, k1, r1), r1.ctx, n)
  {
    hide ConfigOk, WalkHasDec, Agree, SameTtl, WithTtls;
    if DecOk(ProcessHasDec(c, k1, r1), r1.ctx, m) {
      BelowSelf(m);
      n := m;
    } else {
      n := WithTtls(m, r1.ctx.key.populated);
      WithTtlsAgree(k1.cells, k2.cells, m, r1.ctx.key.populated);
    }
  }

  lemma StartTwins(k1: Key, k2: Key, r1: Run, r2: Run)
    requires Sized(k1.cells) && Sized(k2.cells) && TwinRuns(r1, r2, k1.cells, k2.cells)
    ensures TwinWalks(StartWalk(k1, r1), StartWalk(k2, r2), k1.cells, k2.cells, KeyToCfr(k1), KeyToCfr(k2))
  {
    hide KeyToCfr, Close, WithOnes;
    CloseSelf(KeyToCfr(k1), KeyToCfr(k2));
  }

  lemma WellFormedFits(k: Key)
    requires WellFormed(k)
    ensures InWidth(k.cells) && Sized(k.cells)
  {
  }

  lemma BelowSelf(m: Cells)
    ensures Below(m, m)
  {
  }
}
