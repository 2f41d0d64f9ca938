/**
 pipeline_process: the in-band management shortcut around the pipeline, and the
 decision for a packet as the kernel flow cache uses it.
 */
module Decision {
  import opened Cells
  import opened Keys
  import opened Actions
  import opened ActionSoundness
  import opened Cfr
  import opened CfrSoundness
  import opened Pipeline
  import opened PipelineSoundness
  import opened MegaflowExactness
  import opened TtlRuns
  import opened TtlExactness

  /** IVS_INBAND_PORT, 1000 */
  const INBAND_PORT: Bits := {3, 5, 6, 7, 8, 9}

  /** In-band management: the VLAN (None is VLAN_INVALID), the uplinks and the queue. */
  datatype Inband = Inband(vlan: Option<Bits>, isUplink: Bits -> bool, uplink: Option<Bits>, queue: Option<Bits>)

  function FromUplink(x: Context): (r: Context)
    requires Fits(x)
    ensures Fits(r) && Below(x.mask, r.mask)
  {
    OutputTo(SetField(x, PopVlan), INBAND_PORT)
  }

  function ToUplink(x: Context, vlan: Bits, uplink: Option<Bits>, queue: Option<Bits>): (r: Context)
    requires Fits(x)
    ensures Fits(r) && Below(x.mask, r.mask)
  {
    if uplink.None? then x
    else
      var y := SetField(SetField(x, PushVlan), VlanVid(vlan));
      OutputTo(if queue.Some? then SetField(y, Priority(queue.value)) else y, uplink.value)
  }

  datatype Route = Shortcut(run: Run) | Tables(run: Run)

  /** Which way the packet goes: through the shortcut, or on to the pipeline. */
  function RouteOf(ib: Inband, k: Key): (r: Route)
    requires Sized(k.cells)
    ensures Fits(r.run.ctx)
  {
    var r := InitRun(k);
    var port := k.cells[C_IN_PORT];
    if ib.vlan.None? then Tables(r)
    else if ib.isUplink(port) then
      var q := r.(ctx := Mask(r.ctx, VLAN));
      if k.cells[C_VLAN] * VID == ib.vlan.value then Shortcut(q.(ctx := FromUplink(q.ctx))) else Tables(q)
    else if port == INBAND_PORT then
      Shortcut(r.(ctx := ToUplink(r.ctx, ib.vlan.value, ib.uplink, ib.queue)))
    else Tables(r)
  }

  ghost function FinalRun(c: Config, ib: Inband, k: Key): (r: Run)
    requires ConfigOk(c) && Sized(k.cells)
    ensures Fits(r.ctx) && Below(RouteOf(ib, k).run.ctx.mask, r.ctx.mask)
  {
    match RouteOf(ib, k)
    case Shortcut(r) => BelowSelf(r.ctx.mask); r
    case Tables(r) => Process(c, k, r)
  }

  ghost function Decide(c: Config, ib: Inband, k: Key): (v: Verdict)
    requires ConfigOk(c) && Sized(k.cells)
    ensures Sized(v.mask)
  {
    var r := FinalRun(c, ib, k);
    Verdict(r.ctx.msg, k.populated + {ETHERTYPE}, r.ctx.mask, r.stats)
  }

  /** Some flow on the packet's way may decrement the TTL. */
  ghost predicate HasDec(c: Config, ib: Inband, k: Key)
    requires ConfigOk(c) && Sized(k.cells)
  {
    match RouteOf(ib, k)
    case Shortcut(_) => false
    case Tables(r) => ProcessHasDec(c, k, r)
  }

  /** The mask covers the TTL, or it makes no difference: with TTL 0 and with TTL 255 the decision is the same. */
  ghost predicate TtlSettled(c: Config, ib: Inband, k: Key)
    requires ConfigOk(c) && Sized(k.cells)
  {
    || RouteOf(ib, k).Shortcut?
    || TtlCovered(k.populated, Decide(c, ib, k).mask)
    || Decide(c, ib, AtTtl(k, {})) == Decide(c, ib, AtTtl(k, Ones(8)))
  }

  /** What makes a decision hold for a whole megaflow: see DecisionRightExactly. */
  ghost predicate Settled(c: Config, ib: Inband, k: Key)
    requires ConfigOk(c) && Sized(k.cells)
  {
    match RouteOf(ib, k)
    case Shortcut(_) => true
    case Tables(r) => Decided(c, k, r) && TtlSettled(c, ib, k)
  }

  lemma RouteMaskedPort(ib: Inband, k: Key)
    requires Sized(k.cells)
    ensures Ones(Width(C_IN_PORT)) <= RouteOf(ib, k).run.ctx.mask[C_IN_PORT]
    ensures ib.vlan.Some? && ib.isUplink(k.cells[C_IN_PORT]) ==> Ones(Width(C_VLAN)) <= RouteOf(ib, k).run.ctx.mask[C_VLAN]
  {
    hide Commit, WithOnes, Ones, Width, SetField;
    var r := InitRun(k);
    assert Ones(Width(C_IN_PORT)) <= r.ctx.mask[C_IN_PORT];
    var q := Mask(r.ctx, VLAN);
    assert Ones(Width(C_VLAN)) <= q.mask[C_VLAN] && Below(r.ctx.mask, q.mask);
  }

  lemma SetFieldPair(x1: Context, x2: Context, f: Field, k1: Cells, k2: Cells)
    requires Twins(x1, x2, k1, k2)
    ensures Fits(x1) && Fits(x2) && Twins(SetField(x1, f), SetField(x2, f), k1, k2)
  {
    hide SetField;
    SetFieldTwins(x1, x2, f, k1, k2);
  }

  lemma OutputPair(x1: Context, x2: Context, port: Bits, k1: Cells, k2: Cells, m: Cells)
    requires Twins(x1, x2, k1, k2) && Covered(k1, k2, m) && Below(OutputTo(x1, port).mask, m)
    ensures Twins(OutputTo(x1, port), OutputTo(x2, port), k1, k2)
  {
    hide Twins, Commit;
    TwinsFit(x1, x2, k1, k2);
    ApplyTwins(x1, x2, Output(port), 0, k1, k2, m);
  }

  lemma FromUplinkTwins(x1: Context, x2: Context, k1: Cells, k2: Cells, m: Cells)
    requires Twins(x1, x2, k1, k2) && Covered(k1, k2, m) && Below(FromUplink(x1).mask, m)
    ensures Twins(FromUplink(x1), FromUplink(x2), k1, k2)
  {
    hide Twins, SetField, OutputTo;
    SetFieldPair(x1, x2, PopVlan, k1, k2);
    OutputPair(SetField(x1, PopVlan), SetField(x2, PopVlan), INBAND_PORT, k1, k2, m);
  }

  lemma ToUplinkTwins(x1: Context, x2: Context, vlan: Bits, up: Option<Bits>, queue: Option<Bits>,
                      k1: Cells, k2: Cells, m: Cells)
    requires Twins(x1, x2, k1, k2) && Covered(k1, k2, m) && Below(ToUplink(x1, vlan, up, queue).mask, m)
    ensures Twins(ToUplink(x1, vlan, up, queue), ToUplink(x2, vlan, up, queue), k1, k2)
  {
    hide Twins, SetField, OutputTo;
    if up.Some? {
      SetFieldPair(x1, x2, PushVlan, k1, k2);
      var a1, a2 := SetField(x1, PushVlan), SetField(x2, PushVlan);
      SetFieldPair(a1, a2, VlanVid(vlan), k1, k2);
      var b1, b2 := SetField(a1, VlanVid(vlan)), SetField(a2, VlanVid(vlan));
      if queue.Some? {
        SetFieldPair(b1, b2, Priority(queue.value), k1, k2);
        OutputPair(SetField(b1, Priority(queue.value)), SetField(b2, Priority(queue.value)), up.value, k1, k2, m);
      } else {
        OutputPair(b1, b2, up.value, k1, k2, m);
      }
    }
  }

  /** Packets that agree on the mask take the same way, in step. */
  lemma RouteTwins(ib: Inband, k1: Key, k2: Key, m: Cells)
    requires Covered(k1.cells, k2.cells, m) && k1.populated == k2.populated
    requires Below(RouteOf(ib, k1).run.ctx.mask, m)
    ensures RouteOf(ib, k1).Shortcut? == RouteOf(ib, k2).Shortcut?
    ensures TwinRuns(RouteOf(ib, k1).run, RouteOf(ib, k2).run, k1.cells, k2.cells)
  {
    RouteMaskedPort(ib, k1);
    CellExact(k1.cells, k2.cells, m, C_IN_PORT);
    InitTwins(k1, k2);
    var r1, r2 := InitRun(k1), InitRun(k2);
    hide Close, Covered, FromUplink, ToUplink, WithOnes, InitRun, INBAND_PORT, VID;
    if ib.vlan.Some? && ib.isUplink(k1.cells[C_IN_PORT]) {
      CellExact(k1.cells, k2.cells, m, C_VLAN);
      var q1, q2 := Mask(r1.ctx, VLAN), Mask(r2.ctx, VLAN);
      assert Twins(q1, q2, k1.cells, k2.cells);
      if k1.cells[C_VLAN] * VID == ib.vlan.value {
        FromUplinkTwins(q1, q2, k1.cells, k2.cells, m);
      }
    } else if ib.vlan.Some? && k1.cells[C_IN_PORT] == INBAND_PORT {
      ToUplinkTwins(r1.ctx, r2.ctx, ib.vlan.value, ib.uplink, ib.queue, k1.cells, k2.cells, m);
    }
  }

  // ---- other TTLs ----------------------------------------------------------------

  lemma RouteBehind(ib: Inband, k: Key, u: Bits, v: Bits, a: Attr, i: nat)
    requires Sized(k.cells) && IsTtl(a, i) && OnlyIp(k.populated, a) && Le(u, v) && RouteOf(ib, k).Tables?
    ensures RouteOf(ib, AtTtl(k, u)).Tables? && RouteOf(ib, AtTtl(k, v)).Tables?
    ensures BehindRun(RouteOf(ib, AtTtl(k, u)).run, RouteOf(ib, AtTtl(k, v)).run, a, i)
  {
    hide AtTtl, InitRun, WithOnes, VID, INBAND_PORT, FromUplink, ToUplink, BehindRun;
    AtTtlCells(k, u, a, i);
    AtTtlCells(k, v, a, i);
    InitBehind(k, u, v, a, i);
    MaskBehind(InitRun(AtTtl(k, u)), InitRun(AtTtl(k, v)), VLAN, a, i);
  }

  lemma InitBehind(k: Key, u: Bits, v: Bits, a: Attr, i: nat)
    requires Sized(k.cells) && IsTtl(a, i) && OnlyIp(k.populated, a) && Le(u, v)
    ensures BehindRun(InitRun(AtTtl(k, u)), InitRun(AtTtl(k, v)), a, i)
  {
    hide AtTtl, WithOnes, Le;
    AtTtlCells(k, u, a, i);
    AtTtlCells(k, v, a, i);
  }

  /** The decision with TTL 'v', by the masks and statistics of the two extremes. */
  lemma DecideBehind(c: Config, ib: Inband, k: Key, u: Bits, v: Bits, a: Attr, i: nat)
    requires ConfigOk(c) && Sized(k.cells) && IsTtl(a, i) && OnlyIp(k.populated, a) && Le(u, v) && RouteOf(ib, k).Tables?
    requires Uncovered(Decide(c, ib, AtTtl(k, v)).mask, i)
    ensures var d, e := Decide(c, ib, AtTtl(k, u)), Decide(c, ib, AtTtl(k, v));
      d.actions == e.actions && d.populated == e.populated && d.mask == e.mask && Fewer(d.stats, e.stats)
    ensures RouteOf(ib, AtTtl(k, u)).Tables? && RouteOf(ib, AtTtl(k, v)).Tables?
    ensures Decided(c, AtTtl(k, u), RouteOf(ib, AtTtl(k, u)).run) <==> Decided(c, AtTtl(k, v), RouteOf(ib, AtTtl(k, v)).run)
  {
    RouteBehind(ib, k, u, v, a, i);
    AtTtlCfr(k, u);
    AtTtlCfr(k, v);
    AtTtlEnv(c, k, u);
    AtTtlEnv(c, k, v);
    hide ConfigOk, AtTtl, RouteOf, Process, Decided, BehindRun, KeyToCfr, DlType, NwProto, Fewer, Uncovered, EnvFor;
    ProcessBehind(c, AtTtl(k, u), AtTtl(k, v), RouteOf(ib, AtTtl(k, u)).run, RouteOf(ib, AtTtl(k, v)).run, a, i);
  }

  /** If the extremes agree, all TTLs do. */
  lemma BetweenExtremes(c: Config, ib: Inband, k: Key, v: Bits, a: Attr, i: nat)
    requires ConfigOk(c) && Sized(k.cells) && IsTtl(a, i) && OnlyIp(k.populated, a) && v <= Ones(8) && RouteOf(ib, k).Tables?
    requires var low, high := Decide(c, ib, AtTtl(k, {})), Decide(c, ib, AtTtl(k, Ones(8)));
      low == high && Uncovered(high.mask, i)
    ensures Decide(c, ib, AtTtl(k, v)) == Decide(c, ib, AtTtl(k, {}))
    ensures RouteOf(ib, AtTtl(k, v)).Tables? && RouteOf(ib, AtTtl(k, {})).Tables?
    ensures Decided(c, AtTtl(k, v), RouteOf(ib, AtTtl(k, v)).run) <==> Decided(c, AtTtl(k, {}), RouteOf(ib, AtTtl(k, {})).run)
  {
    Extremes(v);
    hide ConfigOk, AtTtl, RouteOf, Decided, Decide, Uncovered, Ones, Le;
    DecideBehind(c, ib, k, v, Ones(8), a, i);
    DecideBehind(c, ib, k, {}, v, a, i);
  }

  /** A packet with an IP header has one. */
  lemma IpHeader(k: Key) returns (a: Attr, i: nat)
    requires WellFormed(k) && (IPV4 in k.populated || IPV6 in k.populated)
    ensures IsTtl(a, i) && OnlyIp(k.populated, a) && Sized(k.cells)
  {
    TypesDiffer();
    if IPV4 in k.populated {
      a, i := IPV4, C_IP4_TTL;
    } else {
      a, i := IPV6, C_IP6_HLIMIT;
    }
    hide DlType, ETH_P_IP, ETH_P_IPV6, ETH_P_ARP, NwProto;
  }

  /** Where the mask leaves the TTL out and the extremes agree, the packet's own decision is theirs. */
  lemma OwnTtl(c: Config, ib: Inband, k: Key, v: Bits, a: Attr, i: nat)
    requires ConfigOk(c) && WellFormed(k) && Sized(k.cells) && RouteOf(ib, k).Tables? && IsTtl(a, i) && OnlyIp(k.populated, a)
    requires Uncovered(Decide(c, ib, k).mask, i) && v <= Ones(8)
    requires Decide(c, ib, AtTtl(k, {})) == Decide(c, ib, AtTtl(k, Ones(8)))
    ensures Decide(c, ib, AtTtl(k, v)) == Decide(c, ib, k)
    ensures RouteOf(ib, AtTtl(k, v)).Tables?
    ensures Decided(c, AtTtl(k, v), RouteOf(ib, AtTtl(k, v)).run) <==> Decided(c, k, RouteOf(ib, k).run)
  {
    var own := k.cells[i];
    assert own <= Ones(8) by { TtlWidth(k, a, i); }
    AtTtlCells(k, own, a, i);
    Extremes(own);
    hide ConfigOk, WellFormed, AtTtl, RouteOf, Decided, Decide, Uncovered, Ones, Le;
    DecideBehind(c, ib, k, {}, own, a, i);
    BetweenExtremes(c, ib, k, own, a, i);
    BetweenExtremes(c, ib, k, v, a, i);
  }

  lemma TtlWidth(k: Key, a: Attr, i: nat)
    requires WellFormed(k) && IsTtl(a, i)
    ensures Sized(k.cells) && k.cells[i] <= Ones(8)
  {
    assert Width(C_IP4_TTL) == 8 && Width(C_IP6_HLIMIT) == 8;
    hide Ones, Width;
  }

  // ---- soundness -----------------------------------------------------------------

  lemma CoveredIsUncovered(p: set<Attr>, m: Cells, a: Attr, i: nat)
    requires Sized(m) && IsTtl(a, i) && OnlyIp(p, a)
    ensures TtlCovered(p, m) <==> !Uncovered(m, i)
  {
  }

  lemma AtTtlAgrees(k: Key, k2: Key, m: Cells, a: Attr, i: nat)
    requires Sized(k.cells) && Sized(k2.cells) && IsTtl(a, i) && OnlyIp(k.populated, a) && k2.populated == k.populated
    requires Agree(k.cells, k2.cells, m)
    ensures Agree(AtTtl(k, k2.cells[i]).cells, k2.cells, m) && SameTtl(k.populated, AtTtl(k, k2.cells[i]).cells, k2.cells)
  {
    AtTtlCells(k, k2.cells[i], a, i);
    hide AtTtl;
  }

  /** The tables start from the packet's key, with nothing modified, emitted or charged. */
  lemma RouteFresh(ib: Inband, k: Key)
    requires Sized(k.cells) && RouteOf(ib, k).Tables?
    ensures var r := RouteOf(ib, k).run; r == Run(Context(k, {}, r.ctx.mask, []), [])
  {
    hide VID, INBAND_PORT, FromUplink, ToUplink, WithOnes;
  }

  /** Two packets through the tables that agree on a decided mask and on the TTL. */
  lemma SameTtlSound(c: Config, ib: Inband, k1: Key, k2: Key)
    requires ConfigOk(c) && WellFormed(k1) && WellFormed(k2) && Sized(k1.cells) && k1.populated == k2.populated
    requires RouteOf(ib, k1).Tables? && Agree(k1.cells, k2.cells, Decide(c, ib, k1).mask)
    requires Decided(c, k1, RouteOf(ib, k1).run) || NwProto(k1) == NwProto(k2)
    requires || SameTtl(k1.populated, k1.cells, k2.cells) || TtlCovered(k1.populated, Decide(c, ib, k1).mask) || !HasDec(c, ib, k1)
    ensures Decide(c, ib, k1) == Decide(c, ib, k2)
  {
    var m := Decide(c, ib, k1).mask;
    WellFormedFits(k1);
    WellFormedFits(k2);
    RouteTwins(ib, k1, k2, m);
    RouteFresh(ib, k1);
    hide ConfigOk, WellFormed, RouteOf, Process, Decided, ProcessHasDec, NwProto, SameTtl, TtlCovered;
    ProcessSound(c, k1, k2, RouteOf(ib, k1).run, RouteOf(ib, k2).run);
  }

  /** The property the self-test of the flow cache samples, for all packets. */
  lemma DecisionSound(c: Config, ib: Inband, k1: Key, k2: Key)
    requires ConfigOk(c) && WellFormed(k1) && WellFormed(k2) && k1.populated == k2.populated
    requires Settled(c, ib, k1) && Agree(k1.cells, k2.cells, Decide(c, ib, k1).mask)
    ensures Decide(c, ib, k1) == Decide(c, ib, k2)
  {
    var m := Decide(c, ib, k1).mask;
    WellFormedFits(k1);
    WellFormedFits(k2);
    if RouteOf(ib, k1).Shortcut? {
      RouteTwins(ib, k1, k2, m);
    } else if TtlCovered(k1.populated, m) {
      hide ConfigOk, WellFormed, RouteOf, Decide, Decided, TtlCovered, Agree;
      SameTtlSound(c, ib, k1, k2);
    } else {
      hide ConfigOk, WellFormed, RouteOf, Decide, Decided, Agree, AtTtl, Uncovered, SameTtl, Ones;
      var a, i := IpHeader(k1);
      CoveredIsUncovered(k1.populated, m, a, i);
      TtlWidth(k2, a, i);
      var k := AtTtl(k1, k2.cells[i]);
      OwnTtl(c, ib, k1, k2.cells[i], a, i);
      AtTtlWellFormed(k1, k2.cells[i]);
      AtTtlAgrees(k1, k2, m, a, i);
      SameTtlSound(c, ib, k, k2);
    }
  }

  /** The packet's decision is right for every packet of its megaflow. */
  ghost predicate DecisionRight(c: Config, ib: Inband, k: Key)
    requires ConfigOk(c) && Sized(k.cells)
  {
    forall k2 :: WellFormed(k2) && k2.populated == k.populated && Agree(k.cells, k2.cells, Decide(c, ib, k).mask) ==>
      Decide(c, ib, k2) == Decide(c, ib, k)
  }

  lemma RouteWhole(ib: Inband, k: Key)
    requires Sized(k.cells) && RouteOf(ib, k).Tables?
    ensures Whole(RouteOf(ib, k).run.ctx.mask)
  {
    hide WithOnes, Whole, VID, INBAND_PORT, FromUplink, ToUplink;
    ZeroesWhole();
    MaskWhole(Start(k), IN_PORT);
    MaskWhole(InitRun(k).ctx, VLAN);
  }

  lemma RouteByPort(ib: Inband, k: Key, q: Bits)
    requires Sized(k.cells) && RouteOf(ib, k).Tables?
    ensures RouteOf(ib, WithProto(k, q)).Tables?
    ensures TwinRuns(RouteOf(ib, k).run, RouteOf(ib, WithProto(k, q)).run, k.cells, WithProto(k, q).cells)
  {
    var k2 := WithProto(k, q);
    assert k2.cells[C_IN_PORT] == k.cells[C_IN_PORT] && k2.cells[C_VLAN] == k.cells[C_VLAN];
    InitTwins(k, k2);
    hide WithOnes, VID, INBAND_PORT, FromUplink, ToUplink, Close;
  }

  lemma UndecidedIsWrong(c: Config, ib: Inband, k: Key)
    requires ConfigOk(c) && WellFormed(k) && Sized(k.cells) && RouteOf(ib, k).Tables? && !Decided(c, k, RouteOf(ib, k).run)
    ensures !DecisionRight(c, ib, k)
  {
    var r := RouteOf(ib, k).run;
    RouteWhole(ib, k);
    hide ConfigOk, WellFormed, RouteOf, Process, Decided, ProcessHasDec, Whole, MaskL4;
    UndecidedUnmasked(c, k, r);
    var q := UndecidedOther(c, k, r);
    var k2 := WithProto(k, q);
    WithProtoAgrees(k, q, Process(c, k, r).ctx.mask);
    RouteByPort(ib, k, q);
    UndecidedDiffers(c, k, r, q, RouteOf(ib, k2).run);
    assert Decide(c, ib, k2) != Decide(c, ib, k);
  }

  /** A TTL is masked whole or not at all. */
  lemma TtlAllOrNone(c: Config, ib: Inband, k: Key, a: Attr, i: nat)
    requires ConfigOk(c) && Sized(k.cells) && RouteOf(ib, k).Tables? && IsTtl(a, i)
    ensures Decide(c, ib, k).mask[i] == {} || !Uncovered(Decide(c, ib, k).mask, i)
  {
    var r := RouteOf(ib, k).run;
    var w := FinalWalk(c, k, r);
    RouteWhole(ib, k);
    MaskWhole(r.ctx, ETHERNET);
    WalkWhole(c, 0, StartWalk(k, r), EnvFor(c, k));
    TtlKept(w.run.ctx.mask, w.cfr, w.cfrMask, a, i);
    hide ConfigOk, RouteOf, WalkFrom, TranslateMask, KeyToCfr, Ones, Width;
  }

  lemma AtTtlUnmasked(k: Key, v: Bits, m: Cells, a: Attr, i: nat)
    requires Sized(k.cells) && Sized(m) && IsTtl(a, i) && OnlyIp(k.populated, a) && m[i] == {}
    ensures Agree(k.cells, AtTtl(k, v).cells, m)
  {
    AtTtlCells(k, v, a, i);
    hide AtTtl;
  }

  lemma UnsettledTtlIsWrong(c: Config, ib: Inband, k: Key)
    requires ConfigOk(c) && WellFormed(k) && Sized(k.cells) && RouteOf(ib, k).Tables? && !TtlSettled(c, ib, k)
    ensures !DecisionRight(c, ib, k)
  {
    hide ConfigOk, WellFormed, RouteOf, Decide, AtTtl, Uncovered, Ones, Agree;
    var m := Decide(c, ib, k).mask;
    var a, i := IpHeader(k);
    CoveredIsUncovered(k.populated, m, a, i);
    TtlAllOrNone(c, ib, k, a, i);
    AtTtlUnmasked(k, {}, m, a, i);
    AtTtlUnmasked(k, Ones(8), m, a, i);
    AtTtlWellFormed(k, {});
    AtTtlWellFormed(k, Ones(8));
  }

  lemma UnsettledIsWrong(c: Config, ib: Inband, k: Key)
    requires ConfigOk(c) && WellFormed(k) && Sized(k.cells) && !Settled(c, ib, k)
    ensures !DecisionRight(c, ib, k)
  {
    hide ConfigOk, WellFormed, RouteOf, Decided, TtlSettled, DecisionRight;
    if !Decided(c, k, RouteOf(ib, k).run) {
      UndecidedIsWrong(c, ib, k);
    } else {
      UnsettledTtlIsWrong(c, ib, k);
    }
  }

  /**
   A packet's decision is right for its whole megaflow exactly when it took the shortcut, or
   the mask decides the protocol branch and either covers the TTL or the decision is the
   same with TTL 0 and with TTL 255.
   */
  lemma DecisionRightExactly(c: Config, ib: Inband, k: Key)
    requires ConfigOk(c) && WellFormed(k)
    ensures Sized(k.cells) && (DecisionRight(c, ib, k) <==> Settled(c, ib, k))
  {
    WellFormedFits(k);
    hide ConfigOk, WellFormed, Settled, Decide;
    if Settled(c, ib, k) {
      forall k2 | WellFormed(k2) && k2.populated == k.populated && Agree(k.cells, k2.cells, Decide(c, ib, k).mask)
        ensures Decide(c, ib, k2) == Decide(c, ib, k)
      {
        WellFormedFits(k2);
        DecisionSound(c, ib, k, k2);
      }
    } else {
      UnsettledIsWrong(c, ib, k);
    }
  }

  /** With protocol-scoped matches only the TTL is left to settle. */
  lemma ScopedIsSettled(c: Config, ib: Inband, k: Key)
    requires ConfigOk(c) && TablesScoped(c) && WellFormed(k)
    ensures Sized(k.cells) && (Settled(c, ib, k) <==> TtlSettled(c, ib, k))
  {
    WellFormedFits(k);
    hide ConfigOk, TablesScoped, WellFormed, Decide, Decided;
    ScopedTablesDecide(c, k, RouteOf(ib, k).run);
  }

  /** A way without a decrement settles the TTL. */
  lemma NoDecIsSettled(c: Config, ib: Inband, k: Key)
    requires ConfigOk(c) && WellFormed(k) && Sized(k.cells) && !HasDec(c, ib, k)
    ensures TtlSettled(c, ib, k)
  {
    var m := Decide(c, ib, k).mask;
    if RouteOf(ib, k).Tables? && !TtlCovered(k.populated, m) {
      hide ConfigOk, WellFormed, RouteOf, Decide, AtTtl, Uncovered, Ones, Agree, HasDec, NwProto;
      var a, i := IpHeader(k);
      CoveredIsUncovered(k.populated, m, a, i);
      TtlAllOrNone(c, ib, k, a, i);
      OtherTtl(c, ib, k, {}, a, i);
      OtherTtl(c, ib, k, Ones(8), a, i);
    }
  }

  lemma OtherTtl(c: Config, ib: Inband, k: Key, v: Bits, a: Attr, i: nat)
    requires ConfigOk(c) && WellFormed(k) && Sized(k.cells) && RouteOf(ib, k).Tables? && !HasDec(c, ib, k) && v <= Ones(8)
    requires IsTtl(a, i) && OnlyIp(k.populated, a) && Decide(c, ib, k).mask[i] == {}
    ensures Decide(c, ib, AtTtl(k, v)) == Decide(c, ib, k)
  {
    hide ConfigOk, WellFormed, RouteOf, Decide, AtTtl, Ones, Agree, HasDec, NwProto, TtlCovered, SameTtl, Decided;
    AtTtlWellFormed(k, v);
    AtTtlCfr(k, v);
    AtTtlUnmasked(k, v, Decide(c, ib, k).mask, a, i);
    SameTtlSound(c, ib, k, AtTtl(k, v));
  }

  /** Where no flow decrements a TTL, no way does. */
  lemma NoDecAnywhere(c: Config, ib: Inband, k: Key)
    requires ConfigOk(c) && Sized(k.cells) && !ConfigHasDec(c)
    ensures !HasDec(c, ib, k)
  {
    hide ConfigOk, ConfigHasDec, WalkHasDec;
    NoDecNowhere(c, 0, StartWalk(k, RouteOf(ib, k).run), EnvFor(c, k));
  }

  lemma RouteUntouched(ib: Inband, k: Key)
    requires Sized(k.cells) && RouteOf(ib, k).Tables?
    ensures Untouched(RouteOf(ib, k).run)
  {
    hide VID, INBAND_PORT, FromUplink, ToUplink, Ones, Width;
  }

  /**
   A packet with a network but no transport header that misses the first table: its decision
   is right for its megaflow exactly when the table looks at the protocol, or at no port that
   shows.
   */
  lemma MissRightExactly(c: Config, ib: Inband, k: Key)
    requires ConfigOk(c) && WellFormed(k) && Sized(k.cells) && RouteOf(ib, k).Tables?
    requires NetworkPopulated(k.populated) && !L4Populated(k.populated)
    requires Pipeline.Lookup(c, 0, KeyToCfr(k)).None?
    ensures var cm := TableMask(c, 0, Zeroes(CFR_CELLS));
      && (DecisionRight(c, ib, k) <==> cm[F_NW_PROTO] != {} || !PortsShow(k.populated, cm))
      && (Settled(c, ib, k) <==> DecisionRight(c, ib, k))
  {
    hide ConfigOk, WellFormed, RouteOf, Process, Decided, ProcessHasDec, Untouched, TableMask, KeyToCfr, PortsShow, Decide;
    RouteUntouched(ib, k);
    MissDecidedExactly(c, k, RouteOf(ib, k).run);
    NoDecIsSettled(c, ib, k);
    DecisionRightExactly(c, ib, k);
  }

  // ---- a flow that decrements and sends --------------------------------------------

  /** A packet that leaves the tables after its first flow. */
  lemma OneHit(c: Config, ib: Inband, k: Key, flow: Flow)
    requires ConfigOk(c) && Sized(k.cells) && RouteOf(ib, k).Tables?
    requires Pipeline.Lookup(c, 0, KeyToCfr(k)) == Some(flow) && flow.next.None?
    ensures |c.tables| == NUM_TABLES
    ensures var r := RouteOf(ib, k).run;
      FinalWalk(c, k, r).run == Hit(c.tables[0], flow, r.(ctx := Mask(r.ctx, ETHERNET)), EnvFor(c, k))
  {
    assert |c.tables| == NUM_TABLES;
    hide ConfigOk, RouteOf, KeyToCfr, Lookup, TableMask, Miss, Hit, EnvFor;
  }

  lemma ListCovers(q: Run, port: Bits, rest: seq<Action>, env: Env, a: Attr, i: nat)
    requires Fits(q.ctx) && IsTtl(a, i) && OnlyIp(q.ctx.key.populated, a) && Uncovered(q.ctx.mask, i)
    ensures Uncovered(Translate(q, DecThenOutput(port, rest), env).ctx.mask, i) <==> Down(q.ctx.key.cells[i]) == {}
  {
    hide DecTtl, Down, Translate, OutputTo, Uncovered, DecThenOutput;
    DecIs(q.ctx, a, i);
    DecThenOutputRuns(q, port, rest, env);
    if Down(q.ctx.key.cells[i]) != {} {
      SendCovers(DecTtl(q.ctx).0, port, a, i);
      NotUncovered(OutputTo(DecTtl(q.ctx).0, port).mask, Translate(q, DecThenOutput(port, rest), env).ctx.mask, i);
    }
  }

  lemma DecideTtl(c: Config, ib: Inband, k: Key, a: Attr, i: nat)
    requires ConfigOk(c) && Sized(k.cells) && RouteOf(ib, k).Tables? && IsTtl(a, i)
    ensures Decide(c, ib, k).mask[i] == FinalWalk(c, k, RouteOf(ib, k).run).run.ctx.mask[i]
  {
    hide ConfigOk, RouteOf, KeyToCfr, WalkFrom, TranslateMask, EnvFor;
    var w := FinalWalk(c, k, RouteOf(ib, k).run);
    TtlKept(w.run.ctx.mask, w.cfr, w.cfrMask, a, i);
  }

  /** Its mask covers the TTL exactly when the TTL survives the decrement. */
  lemma OneHitCovers(c: Config, ib: Inband, k: Key, flow: Flow, port: Bits, rest: seq<Action>, a: Attr, i: nat)
    requires ConfigOk(c) && Sized(k.cells) && RouteOf(ib, k).Tables? && IsTtl(a, i) && OnlyIp(k.populated, a)
    requires Pipeline.Lookup(c, 0, KeyToCfr(k)) == Some(flow) && flow.next.None? && flow.actions == DecThenOutput(port, rest)
    ensures Uncovered(Decide(c, ib, k).mask, i) <==> Down(k.cells[i]) == {}
  {
    hide ConfigOk, RouteOf, KeyToCfr, Lookup, FinalWalk, Decide, EnvFor, Down, WithOnes, Translate, DecThenOutput, Ones, Width;
    OneHit(c, ib, k, flow);
    RouteFresh(ib, k);
    RouteTtl(ib, k, a, i);
    DecideTtl(c, ib, k, a, i);
    var r := RouteOf(ib, k).run;
    var q := AddStats(r.(ctx := Mask(r.ctx, ETHERNET)), [if flow.tableMiss then c.tables[0].missed else c.tables[0].matched, flow.handle]);
    ListCovers(q, port, rest, EnvFor(c, k), a, i);
  }

  lemma SendCovers(x: Context, port: Bits, a: Attr, i: nat)
    requires Frozen(x, a) && IsTtl(a, i)
    ensures !Uncovered(OutputTo(x, port).mask, i)
  {
    hide Commit;
    CommitCovers(x, a, i);
  }

  lemma NotUncovered(m: Cells, n: Cells, i: nat)
    requires Below(m, n) && !Uncovered(m, i) && Sized(m) && i < CELLS
    ensures !Uncovered(n, i)
  {
  }

  lemma RouteTtl(ib: Inband, k: Key, a: Attr, i: nat)
    requires Sized(k.cells) && RouteOf(ib, k).Tables? && IsTtl(a, i)
    ensures Uncovered(Mask(RouteOf(ib, k).run.ctx, ETHERNET).mask, i)
  {
    TtlBit(a, i);
    TtlCells(IN_PORT, a, i);
    TtlCells(VLAN, a, i);
    TtlCells(ETHERNET, a, i);
    hide VID, INBAND_PORT, FromUplink, ToUplink, Ones, Width, First, Past;
  }

  lemma TtlBit(a: Attr, i: nat)
    requires IsTtl(a, i)
    ensures 0 in Ones(Width(i))
  {
  }

  /**
   DEC_NW_TTL and an output in the last flow of a packet's way: the TTL is settled exactly
   when it survives.
   */
  lemma DecThenOutputSettledExactly(c: Config, ib: Inband, k: Key, flow: Flow, port: Bits, rest: seq<Action>)
    requires ConfigOk(c) && WellFormed(k) && Sized(k.cells) && RouteOf(ib, k).Tables?
    requires Pipeline.Lookup(c, 0, KeyToCfr(k)) == Some(flow) && flow.next.None? && flow.actions == DecThenOutput(port, rest)
    ensures TtlSettled(c, ib, k) <==> Survives(k, IPV4, C_IP4_TTL) && Survives(k, IPV6, C_IP6_HLIMIT)
  {
    hide ConfigOk, WellFormed, RouteOf, KeyToCfr, Lookup, Decide, Uncovered, DecThenOutput, Ones, Decrement, AtTtl;
    if IPV4 in k.populated || IPV6 in k.populated {
      var a, i := IpHeader(k);
      AtTtlCells(k, {}, a, i);
      AtTtlCells(k, Ones(8), a, i);
      AtTtlCfr(k, {});
      AtTtlCfr(k, Ones(8));
      FullLives();
      LeSelf({});
      LeSelf(Ones(8));
      RouteBehind(ib, k, {}, {}, a, i);
      RouteBehind(ib, k, Ones(8), Ones(8), a, i);
      OneHitCovers(c, ib, k, flow, port, rest, a, i);
      OneHitCovers(c, ib, AtTtl(k, {}), flow, port, rest, a, i);
      OneHitCovers(c, ib, AtTtl(k, Ones(8)), flow, port, rest, a, i);
      CoveredIsUncovered(k.populated, Decide(c, ib, k).mask, a, i);
    }
  }

  lemma FullLives()
    ensures Down(Ones(8)) != {} && Down({}) == {}
  {
    hide Decrement, Value;
    FullValue();
    DownCounts(Ones(8));
    DownCounts(Down(Ones(8)));
  }

  lemma FullValue()
    ensures Value(Ones(8), 0, 8) > 1
  {
    assert 0 in Ones(8) && 1 in Ones(8);
    hide Ones;
    assert Value(Ones(8), 1, 8) > 0;
  }
}
