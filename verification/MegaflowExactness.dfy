/**
 The megaflow mask of the standard pipeline: when a packet's decision holds for
 every packet that agrees with it on the mask, and exactly when it does not.

 The final translation of the transport mask branches on the IP protocol.  If the
 tables looked at transport ports but nothing put the protocol into the mask, two
 packets without a parsed transport header can take different branches.
 */
module MegaflowExactness {
  import opened Cells
  import opened SoftTcam
  import opened Tcam
  import opened Keys
  import opened Actions
  import opened ActionSoundness
  import opened Cfr
  import opened CfrSoundness
  import opened Pipeline
  import opened PipelineSoundness

  // ---- the translation, layer by layer -------------------------------------

  lemma MaskL3Same(k1: Key, k2: Key, m: Cells, cm: Cells)
    requires WellFormed(k1) && WellFormed(k2) && k1.populated == k2.populated
    requires Sized(m) && |cm| == CFR_CELLS
    ensures MaskL3(m, DlType(k1), cm) == MaskL3(m, DlType(k2), cm)
  {
    hide DlType, ETH_P_IP, ETH_P_IPV6, ETH_P_ARP, InWidth, MaskExact, MaskBits, MaskAddr;
  }

  /** Whatever the protocol, the transport step would add nothing. */
  predicate Absorbed(a: Cells, cm: Cells)
    requires Sized(a) && |cm| == CFR_CELLS
  {
    AddsNothing(a, IPPROTO_TCP, cm) && AddsNothing(a, IPPROTO_ICMP, cm)
  }

  predicate AddsNothing(a: Cells, proto: Bits, cm: Cells)
    requires Sized(a) && |cm| == CFR_CELLS
  {
    MaskL4(a, proto, cm) == a
  }

  predicate L4Populated(p: set<Attr>) {
    TCP in p || UDP in p || ICMP in p || ICMPV6 in p
  }

  predicate NetworkPopulated(p: set<Attr>) {
    IPV4 in p || IPV6 in p || ARP in p
  }

  /** The cell that holds the protocol. */
  function ProtoCell(p: set<Attr>): nat {
    if IPV4 in p then C_IP4_PROTO else if IPV6 in p then C_IP6_PROTO else C_ARP_OP
  }

  /** The branch on the protocol cannot separate two packets that agree on the mask a it starts from. */
  predicate ProtoDecided(p: set<Attr>, a: Cells, cm: Cells)
    requires Sized(a) && |cm| == CFR_CELLS
  {
    || Absorbed(a, cm)
    || L4Populated(p)
    || !NetworkPopulated(p)
    || Ones(Width(ProtoCell(p))) <= a[ProtoCell(p)]
  }

  lemma MaskL4ByClass(a: Cells, p: Bits, q: Bits, cm: Cells)
    requires Sized(a) && |cm| == CFR_CELLS && IsPorts(p) == IsPorts(q) && IsIcmp(p) == IsIcmp(q)
    ensures MaskL4(a, p, cm) == MaskL4(a, q, cm)
  {
    hide IsPorts, IsIcmp, MaskBits, MaskExact;
  }

  lemma Classes()
    ensures IsPorts(IPPROTO_TCP) && !IsIcmp(IPPROTO_TCP)
    ensures !IsPorts(IPPROTO_ICMP) && IsIcmp(IPPROTO_ICMP)
    ensures !IsPorts({}) && !IsIcmp({})
  {
    TypesDiffer();
    assert 1 in IPPROTO_TCP && 0 in IPPROTO_UDP && 0 in IPPROTO_ICMP && 1 in IPPROTO_ICMPV6;
  }

  lemma MaskL4Cases(a: Cells, p: Bits, cm: Cells)
    requires Sized(a) && |cm| == CFR_CELLS
    ensures IsPorts(p) ==> MaskL4(a, p, cm) == MaskL4(a, IPPROTO_TCP, cm)
    ensures !IsPorts(p) && IsIcmp(p) ==> MaskL4(a, p, cm) == MaskL4(a, IPPROTO_ICMP, cm)
    ensures !IsPorts(p) && !IsIcmp(p) ==> MaskL4(a, p, cm) == a
  {
    Classes();
    TypesDiffer();
    hide IsPorts, IsIcmp, MaskBits, MaskExact, IPPROTO_TCP, IPPROTO_ICMP;
  }

  lemma MaskL4Same(k1: Key, k2: Key, m: Cells, a: Cells, cm: Cells)
    requires WellFormed(k1) && WellFormed(k2) && k1.populated == k2.populated
    requires Sized(m) && Sized(a) && |cm| == CFR_CELLS && Agree(k1.cells, k2.cells, m) && Below(a, m)
    requires ProtoDecided(k1.populated, a, cm)
    ensures MaskL4(a, NwProto(k1), cm) == MaskL4(a, NwProto(k2), cm)
  {
    var p1, p2 := NwProto(k1), NwProto(k2);
    if Absorbed(a, cm) {
      MaskL4Cases(a, p1, cm);
      MaskL4Cases(a, p2, cm);
    } else if L4Populated(k1.populated) {
      TypesDiffer();
      hide IsPorts, IsIcmp, DlType, NwProto, Absorbed, InWidth;
      MaskL4ByClass(a, p1, p2, cm);
    } else if NetworkPopulated(k1.populated) {
      CellExact(k1.cells, k2.cells, m, ProtoCell(k1.populated));
    }
  }

  // ---- soundness -----------------------------------------------------------

  /** The mask just before the transport step. */
  ghost function BeforeL4(c: Config, k: Key, r: Run): (a: Cells)
    requires ConfigOk(c) && Sized(k.cells) && Fits(r.ctx)
    ensures Sized(a)
  {
    var w := FinalWalk(c, k, r);
    MaskL3(MaskL2(w.run.ctx.mask, w.cfrMask), DlType(k), w.cfrMask)
  }

  ghost predicate Decided(c: Config, k: Key, r: Run)
    requires ConfigOk(c) && Sized(k.cells) && Fits(r.ctx)
  {
    ProtoDecided(k.populated, BeforeL4(c, k, r), FinalWalk(c, k, r).cfrMask)
  }

  predicate SameDecision(r1: Run, r2: Run) {
    r1.ctx.msg == r2.ctx.msg && r1.ctx.mask == r2.ctx.mask && r1.stats == r2.stats
  }

  /** The result of a run in terms of its final walk. */
  lemma ProcessIs(c: Config, k: Key, r: Run)
    requires ConfigOk(c) && Sized(k.cells) && Fits(r.ctx)
    ensures var w, p := FinalWalk(c, k, r), Process(c, k, r);
      && p.ctx.msg == w.run.ctx.msg && p.stats == w.run.stats
      && p.ctx.mask == MaskL4(BeforeL4(c, k, r), NwProto(k), w.cfrMask)
  {
    hide ConfigOk, KeyToCfr, MaskL2, MaskL3, MaskL4, WalkFrom;
    CfrTypes(k);
    WalkTypes(c, 0, StartWalk(k, r), EnvFor(c, k));
  }

  /** Packets that agree on a decided mask, and on TTLs that may be decremented, get the same decision. */
  lemma ProcessSound(c: Config, k1: Key, k2: Key, r1: Run, r2: Run)
    requires ConfigOk(c) && WellFormed(k1) && WellFormed(k2) && k1.populated == k2.populated
    requires TwinRuns(r1, r2, k1.cells, k2.cells)
    requires Agree(k1.cells, k2.cells, Process(c, k1, r1).ctx.mask)
    requires || DecOk(ProcessHasDec(c, k1, r1), r1.ctx, Process(c, k1, r1).ctx.mask)
             || SameTtl(r1.ctx.key.populated, k1.cells, k2.cells)
    requires Decided(c, k1, r1) || NwProto(k1) == NwProto(k2)
    ensures SameDecision(Process(c, k1, r1), Process(c, k2, r2))
  {
    WellFormedFits(k1);
    WellFormedFits(k2);
    ProcessTwins(c, k1, k2, r1, r2);
    ProcessIs(c, k1, r1);
    ProcessIs(c, k2, r2);
    var w := FinalWalk(c, k1, r1);
    hide ConfigOk, WellFormed, MaskL2, MaskL3, MaskL4, Process, FinalWalk, Close, ProtoDecided, Agree, DlType, NwProto;
    MaskL3Same(k1, k2, MaskL2(w.run.ctx.mask, w.cfrMask), w.cfrMask);
    if Decided(c, k1, r1) {
      MaskL4Same(k1, k2, Process(c, k1, r1).ctx.mask, BeforeL4(c, k1, r1), w.cfrMask);
    }
  }

  // ---- a condition on the flow tables --------------------------------------

  function PortBits(m: Cells): Bits
    requires |m| == CFR_CELLS
  {
    m[F_TP_SRC] + m[F_TP_SRC + 1] + m[F_TP_DST] + m[F_TP_DST + 1]
  }

  predicate LooksAtPorts(m: Cells)
    requires |m| == CFR_CELLS
  {
    PortBits(m) != {}
  }

  /** A match on transport ports also matches on the protocol. */
  predicate Scoped(m: Cells) {
    |m| == CFR_CELLS && (LooksAtPorts(m) ==> m[F_NW_PROTO] != {})
  }

  ghost predicate TablesScoped(c: Config) {
    forall t, s :: 0 <= t < |c.tables| && 0 <= s < |c.tables[t].shards| ==> Scoped(c.tables[t].shards[s].mask)
  }

  lemma ScopedOr(a: Cells, b: Cells)
    requires Scoped(a) && Scoped(b)
    ensures Scoped(Or(a, b))
  {
    var r := Or(a, b);
    assert PortBits(r) == PortBits(a) + PortBits(b);
    assert r[F_NW_PROTO] == a[F_NW_PROTO] + b[F_NW_PROTO];
  }

  lemma {:induction false} OrMasksScoped(shards: seq<Shard>, m: Cells)
    requires Shaped(CFR_CELLS, shards) && Scoped(m)
    requires forall s :: 0 <= s < |shards| ==> Scoped(shards[s].mask)
    ensures Scoped(OrMasks(shards, m))
  {
    hide Scoped;
    assert |m| == CFR_CELLS by { ScopedSize(m); }
    if shards != [] {
      OrMasksScoped(shards[..|shards| - 1], m);
      ScopedOr(OrMasks(shards[..|shards| - 1], m), shards[|shards| - 1].mask);
    }
  }

  lemma ScopedSize(m: Cells)
    requires Scoped(m)
    ensures |m| == CFR_CELLS
  {
  }

  lemma TableMaskScoped(c: Config, t: nat, m: Cells)
    requires ConfigOk(c) && TablesScoped(c) && t < NUM_TABLES && Scoped(m)
    ensures Scoped(TableMask(c, t, m))
  {
    hide Scoped, LayoutOk;
    ScopedSize(m);
    assert TableOk(c.mm, t, c.tables[t]);
    LayoutShaped(c.mm, CFR_CELLS, c.tables[t].shards);
    OrMasksScoped(c.tables[t].shards, m);
  }

  lemma {:induction false} WalkScoped(c: Config, t: nat, w: Walk, env: Env)
    requires ConfigOk(c) && TablesScoped(c) && t < NUM_TABLES && WalkFits(w) && Scoped(w.cfrMask)
    ensures Scoped(WalkFrom(c, t, w, env).cfrMask)
    decreases NUM_TABLES - t
  {
    assert |c.tables| == NUM_TABLES;
    hide ConfigOk, TablesScoped, Scoped, Lookup, TableMask, Miss, Hit, UpdateCfr;
    TableMaskScoped(c, t, w.cfrMask);
    match Lookup(c, t, w.cfr) {
      case None =>
      case Some(flow) =>
        if flow.next.Some? {
          WalkScoped(c, flow.next.value,
                     Walk(UpdateCfr(w.cfr, flow.actions), TableMask(c, t, w.cfrMask), Hit(c.tables[t], flow, w.run, env)), env);
        }
    }
  }

  lemma NoPortsAbsorbed(a: Cells, cm: Cells)
    requires Sized(a) && |cm| == CFR_CELLS && !LooksAtPorts(cm)
    ensures Absorbed(a, cm)
  {
    Classes();
    assert cm[12] <= PortBits(cm) && cm[13] <= PortBits(cm) && cm[14] <= PortBits(cm) && cm[15] <= PortBits(cm);
    assert cm[12] == {} && cm[13] == {} && cm[14] == {} && cm[15] == {};
    NothingAdded(a, C_T0);
    NothingAdded(a, C_T1);
    NothingAdded(a, C_T2);
    NothingAdded(a, C_T3);
    hide IPPROTO_TCP, IPPROTO_ICMP, IsPorts, IsIcmp, MaskBits;
    assert cm[12] + cm[13] == {} && cm[14] + cm[15] == {};
  }

  lemma NothingAdded(a: Cells, i: nat)
    requires Sized(a) && i < CELLS
    ensures MaskBits(a, i, {}) == a
  {
    assert a[i] + {} == a[i];
    assert a[i := a[i]] == a;
  }

  /** A CFR mask that has the protocol puts the protocol cell of the key into the mask. */
  lemma ProtoMasked(k: Key, m0: Cells, cm: Cells)
    requires WellFormed(k) && Sized(m0) && |cm| == CFR_CELLS && cm[F_NW_PROTO] != {} && NetworkPopulated(k.populated)
    ensures var i := ProtoCell(k.populated); Ones(Width(i)) <= MaskL3(m0, DlType(k), cm)[i]
  {
    var r := MaskL3(m0, DlType(k), cm);
    BelowSelf(r);
    if IPV4 in k.populated {
      Ipv4MaskCells(m0, cm, r);
    } else if IPV6 in k.populated {
      Ipv6MaskCells(m0, cm, r);
    } else {
      ArpMaskCells(m0, cm, r);
    }
  }

  /** If every installed match on ports also matches on the protocol, every packet is decided. */
  lemma ScopedTablesDecide(c: Config, k: Key, r: Run)
    requires ConfigOk(c) && TablesScoped(c) && WellFormed(k) && Fits(r.ctx)
    ensures Sized(k.cells) && Decided(c, k, r)
  {
    WellFormedFits(k);
    var w, a := FinalWalk(c, k, r), BeforeL4(c, k, r);
    var cm := w.cfrMask;
    WalkScoped(c, 0, StartWalk(k, r), EnvFor(c, k));
    if !LooksAtPorts(cm) {
      NoPortsAbsorbed(a, cm);
    } else if NetworkPopulated(k.populated) {
      ProtoMasked(k, MaskL2(w.run.ctx.mask, cm), cm);
    }
  }

  // ---- context masks cover whole fields -------------------------------------

  /** A mask made of whole fields. */
  predicate Whole(m: Cells) {
    Sized(m) && forall i :: 0 <= i < CELLS ==> m[i] == {} || Ones(Width(i)) <= m[i]
  }

  lemma MaskWhole(x: Context, a: Attr)
    requires Fits(x) && Whole(x.mask)
    ensures Whole(Mask(x, a).mask)
  {
    hide Ones, Width;
  }

  lemma {:induction false} CommitFieldsWhole(x: Context, n: nat)
    requires Fits(x) && Whole(x.mask) && n <= |FIELDS|
    ensures Whole(CommitFields(x, n).mask)
  {
    hide Whole;
    if n > 0 {
      CommitFieldsWhole(x, n - 1);
      var y, a := CommitFields(x, n - 1), FIELDS[n - 1];
      MaskWhole(Emit(y, KSet(a, Slice(y.key.cells, a))), a);
    }
  }

  lemma CommitWhole(x: Context)
    requires Fits(x) && Whole(x.mask)
    ensures Whole(Commit(x).mask)
  {
    hide Whole, CommitFields;
    MaskWhole(x, VLAN);
    CommitFieldsWhole(CommitVlan(x), |FIELDS|);
  }

  lemma ApplyWhole(x: Context, a: Action, pid: nat)
    requires Fits(x) && Whole(x.mask) && !a.DecNwTtl? && !a.GroupAction?
    ensures Whole(Apply(x, a, pid).mask)
  {
    hide Whole, Commit;
    if !a.Set? {
      CommitWhole(x);
      MaskWhole(Commit(x), IN_PORT);
    }
  }

  lemma {:induction false} TranslateWhole(r: Run, actions: seq<Action>, env: Env)
    requires Fits(r.ctx) && Whole(r.ctx.mask)
    ensures Whole(Translate(r, actions, env).ctx.mask)
    decreases actions, 0
  {
    hide Whole, Apply, ProcessGroup;
    if actions != [] {
      var a := actions[0];
      if a.DecNwTtl? {
        var (y, drop) := DecTtl(r.ctx);
        if !drop {
          TranslateWhole(r.(ctx := y), actions[1..], env);
        }
      } else if a.GroupAction? {
        GroupWhole(r, a.gtype, a.buckets, env);
        TranslateWhole(ProcessGroup(r, a.gtype, a.buckets, env), actions[1..], env);
      } else {
        ApplyWhole(r.ctx, a, env.pktinPid);
        TranslateWhole(r.(ctx := Apply(r.ctx, a, env.pktinPid)), actions[1..], env);
      }
    }
  }

  lemma {:induction false} BucketsWhole(r: Run, bs: seq<Bucket>, env: Env)
    requires Fits(r.ctx) && Whole(r.ctx.mask)
    ensures Whole(ProcessBuckets(r, bs, env).ctx.mask)
    decreases bs, 2
  {
    hide Whole, Translate;
    if bs != [] {
      TranslateWhole(r, bs[0].actions, env);
      BucketsWhole(ProcessBucket(r, bs[0], env), bs[1..], env);
    }
  }

  lemma {:induction false} GroupWhole(r: Run, gtype: GroupType, bs: seq<Bucket>, env: Env)
    requires Fits(r.ctx) && Whole(r.ctx.mask)
    ensures Whole(ProcessGroup(r, gtype, bs, env).ctx.mask)
    decreases bs, 3
  {
    hide Whole, Translate, ProcessBuckets;
    if bs != [] {
      BucketsWhole(r, bs, env);
      TranslateWhole(r, bs[env.hash % |bs|].actions, env);
      TranslateWhole(r, bs[0].actions, env);
    }
  }

  lemma {:induction false} WalkWhole(c: Config, t: nat, w: Walk, env: Env)
    requires ConfigOk(c) && t < NUM_TABLES && WalkFits(w) && Whole(w.run.ctx.mask)
    ensures Whole(WalkFrom(c, t, w, env).run.ctx.mask)
    decreases NUM_TABLES - t
  {
    assert |c.tables| == NUM_TABLES;
    hide ConfigOk, Whole, Lookup, TableMask, UpdateCfr, Translate, Commit;
    match Lookup(c, t, w.cfr) {
      case None =>
        ApplyWhole(w.run.ctx, Controller(NO_MATCH), c.pktinPid);
      case Some(flow) =>
        var h := [if flow.tableMiss then c.tables[t].missed else c.tables[t].matched, flow.handle];
        TranslateWhole(AddStats(w.run, h), flow.actions, env);
        if flow.next.Some? {
          WalkWhole(c, flow.next.value,
                    Walk(UpdateCfr(w.cfr, flow.actions), TableMask(c, t, w.cfrMask), Hit(c.tables[t], flow, w.run, env)), env);
        }
    }
  }

  predicate IsProtoCell(i: nat) {
    i == C_IP4_PROTO || i == C_IP6_PROTO || i == C_ARP_OP
  }

  lemma L2Keeps(m: Cells, cm: Cells, i: nat)
    requires Sized(m) && |cm| == CFR_CELLS && IsProtoCell(i)
    ensures MaskL2(m, cm)[i] == m[i]
  {
    hide Ones, Width;
  }

  lemma AddrKeeps(m: Cells, j: nat, cm: Cells, i: nat)
    requires Sized(m) && |cm| == CFR_CELLS && IsProtoCell(i) && (j == C_IP4_SRC || j == C_T0)
    ensures MaskAddr(m, j, cm)[i] == m[i]
  {
  }

  lemma L3Keeps(m: Cells, dlType: Bits, cm: Cells, i: nat)
    requires Sized(m) && |cm| == CFR_CELLS && IsProtoCell(i)
    ensures MaskL3(m, dlType, cm)[i] == m[i] || MaskL3(m, dlType, cm)[i] == m[i] + Ones(Width(i))
  {
    hide Ones, Width, ETH_P_IP, ETH_P_IPV6, ETH_P_ARP, MaskAddr;
    if dlType == ETH_P_IP {
      var a := MaskExact(MaskBits(m, C_IP4_TOS, cm[F_NW_TOS]), C_IP4_PROTO, cm[F_NW_PROTO]);
      AddrKeeps(a, C_IP4_SRC, cm, i);
    } else if dlType != ETH_P_IPV6 && dlType == ETH_P_ARP {
      AddrKeeps(MaskExact(m, C_ARP_OP, cm[F_NW_PROTO]), C_T0, cm, i);
    }
  }

  lemma L4Keeps(m: Cells, proto: Bits, cm: Cells, i: nat)
    requires Sized(m) && |cm| == CFR_CELLS && IsProtoCell(i)
    ensures MaskL4(m, proto, cm)[i] == m[i]
  {
    hide Ones, Width, IsPorts, IsIcmp;
  }

  /** The translation masks a protocol cell whole or not at all. */
  lemma ProtoAllOrNone(m0: Cells, dlType: Bits, proto: Bits, cm: Cells, i: nat)
    requires Whole(m0) && |cm| == CFR_CELLS && IsProtoCell(i)
    ensures var m := MaskL4(MaskL3(MaskL2(m0, cm), dlType, cm), proto, cm);
      m[i] == {} || Ones(Width(i)) <= m[i]
  {
    hide MaskL2, MaskL3, MaskL4, Ones, Width;
    L2Keeps(m0, cm, i);
    L3Keeps(MaskL2(m0, cm), dlType, cm, i);
    L4Keeps(MaskL3(MaskL2(m0, cm), dlType, cm), proto, cm, i);
  }

  // ---- exactness -----------------------------------------------------------

  /** The run pipeline_process starts from: the input port is always in the mask. */
  function InitRun(k: Key): (r: Run)
    requires Sized(k.cells)
    ensures Fits(r.ctx)
  {
    Run(Mask(Start(k), IN_PORT), [])
  }

  lemma InitTwins(k1: Key, k2: Key)
    requires Sized(k1.cells) && Sized(k2.cells) && k1.populated == k2.populated
    ensures TwinRuns(InitRun(k1), InitRun(k2), k1.cells, k2.cells)
  {
  }

  /** The same packet with another protocol. */
  function WithProto(k: Key, proto: Bits): Key
    requires Sized(k.cells)
  {
    k.(cells := k.cells[ProtoCell(k.populated) := proto])
  }

  lemma LowByteFits(p: set<Attr>, proto: Bits)
    requires proto <= LOW_BYTE
    ensures proto <= Ones(Width(ProtoCell(p)))
  {
    assert Width(C_IP4_PROTO) == 8 && Width(C_IP6_PROTO) == 8 && Width(C_ARP_OP) == 16;
  }

  lemma WithProtoReads(k: Key, proto: Bits)
    requires WellFormed(k) && NetworkPopulated(k.populated) && proto <= LOW_BYTE
    ensures Sized(k.cells) && NwProto(WithProto(k, proto)) == proto && DlType(WithProto(k, proto)) == DlType(k)
  {
    assert proto * LOW_BYTE == proto;
    hide LOW_BYTE, ETH_P_IP, ETH_P_IPV6, ETH_P_ARP, NOT_ETH_TYPE, IsLength;
  }

  lemma WithProtoOk(k: Key, proto: Bits)
    requires WellFormed(k) && NetworkPopulated(k.populated) && !L4Populated(k.populated) && proto <= LOW_BYTE
    ensures Sized(k.cells) && WellFormed(WithProto(k, proto)) && NwProto(WithProto(k, proto)) == proto
    ensures DlType(WithProto(k, proto)) == DlType(k)
  {
    WithProtoReads(k, proto);
    LowByteFits(k.populated, proto);
    hide DlType, NwProto, IsPorts, IsIcmp, ETH_P_IP, ETH_P_IPV6, ETH_P_ARP, Ones, Width, LOW_BYTE;
  }

  lemma WithProtoAgrees(k: Key, proto: Bits, m: Cells)
    requires Sized(k.cells) && Sized(m) && m[ProtoCell(k.populated)] == {}
    ensures Agree(k.cells, WithProto(k, proto).cells, m)
  {
  }

  lemma WithProtoTtl(k: Key, proto: Bits, p: set<Attr>)
    requires Sized(k.cells)
    ensures SameTtl(p, k.cells, WithProto(k, proto).cells)
  {
  }

  /** A protocol whose transport step differs from the packet's own. */
  lemma OtherProto(a: Cells, p: Bits, cm: Cells) returns (q: Bits)
    requires Sized(a) && |cm| == CFR_CELLS && !Absorbed(a, cm)
    ensures q <= LOW_BYTE && MaskL4(a, q, cm) != MaskL4(a, p, cm)
  {
    Classes();
    MaskL4Cases(a, p, cm);
    MaskL4Cases(a, {}, cm);
    if MaskL4(a, p, cm) != a {
      q := {};
    } else if !AddsNothing(a, IPPROTO_TCP, cm) {
      q := IPPROTO_TCP;
    } else {
      q := IPPROTO_ICMP;
    }
  }

  lemma ZeroesWhole()
    ensures Whole(Zeroes(CELLS))
  {
  }

  /** Where the protocol is not decided, the mask says nothing about it. */
  lemma UndecidedUnmasked(c: Config, k: Key, r: Run)
    requires ConfigOk(c) && Sized(k.cells) && Fits(r.ctx) && Whole(r.ctx.mask) && !Decided(c, k, r)
    ensures Process(c, k, r).ctx.mask[ProtoCell(k.populated)] == {}
  {
    var w := FinalWalk(c, k, r);
    ProcessIs(c, k, r);
    MaskWhole(r.ctx, ETHERNET);
    WalkWhole(c, 0, StartWalk(k, r), EnvFor(c, k));
    ProtoAllOrNone(w.run.ctx.mask, DlType(k), NwProto(k), w.cfrMask, ProtoCell(k.populated));
    L4Keeps(BeforeL4(c, k, r), NwProto(k), w.cfrMask, ProtoCell(k.populated));
  }

  /** Another protocol whose packets get another mask. */
  lemma UndecidedOther(c: Config, k: Key, r: Run) returns (q: Bits)
    requires ConfigOk(c) && WellFormed(k) && Sized(k.cells) && Fits(r.ctx) && !Decided(c, k, r)
    ensures q <= LOW_BYTE && MaskL4(BeforeL4(c, k, r), q, FinalWalk(c, k, r).cfrMask) != Process(c, k, r).ctx.mask
    ensures WellFormed(WithProto(k, q))
  {
    hide ConfigOk, WellFormed, MaskL2, MaskL3, MaskL4, Process, FinalWalk, DlType, NwProto;
    ProcessIs(c, k, r);
    q := OtherProto(BeforeL4(c, k, r), NwProto(k), FinalWalk(c, k, r).cfrMask);
    WithProtoOk(k, q);
  }

  /** A packet of that protocol in the same megaflow is decided differently. */
  lemma UndecidedDiffers(c: Config, k: Key, r: Run, q: Bits, r2: Run)
    requires ConfigOk(c) && WellFormed(k) && Sized(k.cells) && Fits(r.ctx) && !Decided(c, k, r)
    requires q <= LOW_BYTE && WellFormed(WithProto(k, q)) && TwinRuns(r, r2, k.cells, WithProto(k, q).cells)
    requires Agree(k.cells, WithProto(k, q).cells, Process(c, k, r).ctx.mask)
    requires MaskL4(BeforeL4(c, k, r), q, FinalWalk(c, k, r).cfrMask) != Process(c, k, r).ctx.mask
    ensures Process(c, WithProto(k, q), r2).ctx.mask != Process(c, k, r).ctx.mask
  {
    var k2 := WithProto(k, q);
    WithProtoOk(k, q);
    WellFormedFits(k2);
    hide ConfigOk, WellFormed, MaskL2, MaskL3, MaskL4, Process, FinalWalk, Close, ProtoDecided, Agree, DlType, NwProto;
    hide ProcessHasDec, SameTtl, DecOk;
    WithProtoTtl(k, q, r.ctx.key.populated);
    ProcessTwins(c, k, k2, r, r2);
    ProcessIs(c, k2, r2);
    assert BeforeL4(c, k2, r2) == BeforeL4(c, k, r);
  }

  // ---- the failing family ------------------------------------------------------

  lemma L3KeepsProto(m: Cells, dlType: Bits, cm: Cells, i: nat)
    requires Sized(m) && |cm| == CFR_CELLS && IsProtoCell(i) && cm[F_NW_PROTO] == {}
    ensures MaskL3(m, dlType, cm)[i] == m[i]
  {
    hide Ones, Width, ETH_P_IP, ETH_P_IPV6, ETH_P_ARP, MaskAddr;
    if dlType == ETH_P_IP {
      var a := MaskExact(MaskBits(m, C_IP4_TOS, cm[F_NW_TOS]), C_IP4_PROTO, cm[F_NW_PROTO]);
      AddrKeeps(a, C_IP4_SRC, cm, i);
    } else if dlType != ETH_P_IPV6 && dlType == ETH_P_ARP {
      AddrKeeps(MaskExact(m, C_ARP_OP, cm[F_NW_PROTO]), C_T0, cm, i);
    }
  }

  /**
   For a packet with a network but no transport header the branch is decided exactly when
   the ports add nothing, the tables looked at the protocol, or an IP header was rewritten.
   */
  lemma DecidedByTables(c: Config, k: Key, r: Run)
    requires ConfigOk(c) && WellFormed(k) && Sized(k.cells) && Fits(r.ctx)
    requires NetworkPopulated(k.populated) && !L4Populated(k.populated)
    ensures var w, i := FinalWalk(c, k, r), ProtoCell(k.populated);
      Decided(c, k, r) <==>
        Absorbed(BeforeL4(c, k, r), w.cfrMask) || w.cfrMask[F_NW_PROTO] != {} || Ones(Width(i)) <= w.run.ctx.mask[i]
  {
    var w, i := FinalWalk(c, k, r), ProtoCell(k.populated);
    var m := MaskL2(w.run.ctx.mask, w.cfrMask);
    L2Keeps(w.run.ctx.mask, w.cfrMask, i);
    hide ConfigOk, WellFormed, MaskL2, MaskL3, FinalWalk, DlType, Absorbed, Ones, Width;
    if w.cfrMask[F_NW_PROTO] != {} {
      ProtoMasked(k, m, w.cfrMask);
    } else {
      L3KeepsProto(m, DlType(k), w.cfrMask, i);
    }
  }

  /** What the translation up to layer three puts in the cells of the ports: nothing, or the sender of ARP. */
  function Underneath(p: set<Attr>, cm: Cells, j: nat): Bits
    requires |cm| == CFR_CELLS && j < 4
  {
    if ARP in p then cm[F_NW_SRC + j] else {}
  }

  lemma PortCells(m: Cells, k: Key, cm: Cells, j: nat)
    requires WellFormed(k) && Sized(k.cells) && Sized(m) && |cm| == CFR_CELLS && j < 4 && m[C_T0 + j] == {}
    ensures MaskL3(MaskL2(m, cm), DlType(k), cm)[C_T0 + j] == Underneath(k.populated, cm, j)
  {
    TypesDiffer();
    hide Ones, Width, ETH_P_IP, ETH_P_IPV6, ETH_P_ARP, DlType, NwProto, IsPorts, IsIcmp, InWidth;
  }

  /**
   The ports that the tables looked at ask for more than is underneath.  An ICMP type or
   code is masked whole.
   */
  predicate PortsShow(p: set<Attr>, cm: Cells)
    requires |cm| == CFR_CELLS
  {
    var t0, t1, t2, t3 := Underneath(p, cm, 0), Underneath(p, cm, 1), Underneath(p, cm, 2), Underneath(p, cm, 3);
    || !(cm[F_TP_SRC] <= t0 && cm[F_TP_SRC + 1] <= t1 && cm[F_TP_DST] <= t2 && cm[F_TP_DST + 1] <= t3)
    || (cm[F_TP_SRC] + cm[F_TP_SRC + 1] != {} && !(Ones(8) <= t0))
    || (cm[F_TP_DST] + cm[F_TP_DST + 1] != {} && !(Ones(8) <= t1))
  }

  /** Without ARP any port does. */
  lemma PortsShowPlainly(p: set<Attr>, cm: Cells)
    requires |cm| == CFR_CELLS && (ARP in p ==> forall i :: F_NW_SRC <= i < F_NW_DST ==> cm[i] == {})
    ensures PortsShow(p, cm) <==> LooksAtPorts(cm)
  {
    assert forall j :: 0 <= j < 4 ==> Underneath(p, cm, j) == {};
    assert 0 in Ones(8);
    hide Ones;
    assert PortBits(cm) == (cm[F_TP_SRC] + cm[F_TP_SRC + 1]) + (cm[F_TP_DST] + cm[F_TP_DST + 1]);
  }

  lemma PortsAddNothing(a: Cells, cm: Cells)
    requires Sized(a) && |cm| == CFR_CELLS
    ensures AddsNothing(a, IPPROTO_TCP, cm) <==>
      cm[12] <= a[C_T0] && cm[13] <= a[C_T1] && cm[14] <= a[C_T2] && cm[15] <= a[C_T3]
  {
    Classes();
    hide IPPROTO_TCP, IsPorts, IsIcmp;
    var b := MaskL4(a, IPPROTO_TCP, cm);
    assert b[C_T0] == a[C_T0] + cm[12] && b[C_T1] == a[C_T1] + cm[13] && b[C_T2] == a[C_T2] + cm[14] && b[C_T3] == a[C_T3] + cm[15];
    assert forall i :: 0 <= i < CELLS && !(C_T0 <= i <= C_T3) ==> b[i] == a[i];
    if cm[12] <= a[C_T0] && cm[13] <= a[C_T1] && cm[14] <= a[C_T2] && cm[15] <= a[C_T3] {
      assert forall i :: 0 <= i < CELLS ==> b[i] == a[i];
    }
  }

  lemma IcmpAddsNothing(a: Cells, cm: Cells)
    requires Sized(a) && |cm| == CFR_CELLS
    ensures AddsNothing(a, IPPROTO_ICMP, cm) <==>
      && (cm[12] + cm[13] != {} ==> Ones(8) <= a[C_T0])
      && (cm[14] + cm[15] != {} ==> Ones(8) <= a[C_T1])
  {
    Classes();
    assert Width(C_T0) == 8 && Width(C_T1) == 8;
    hide IPPROTO_ICMP, IsPorts, IsIcmp, Ones, Width;
    var b := MaskL4(a, IPPROTO_ICMP, cm);
    assert b[C_T0] == a[C_T0] + if cm[12] + cm[13] != {} then Ones(8) else {};
    assert b[C_T1] == a[C_T1] + if cm[14] + cm[15] != {} then Ones(8) else {};
    assert forall i :: 0 <= i < CELLS && i != C_T0 && i != C_T1 ==> b[i] == a[i];
    if b[C_T0] == a[C_T0] && b[C_T1] == a[C_T1] {
      assert forall i :: 0 <= i < CELLS ==> b[i] == a[i];
    }
  }

  /** Nothing set, nothing masked beyond what the pipeline starts with. */
  predicate Untouched(r: Run) {
    && Fits(r.ctx) && r.ctx.modified == {}
    && r.ctx.mask[C_IP4_PROTO] == {} && r.ctx.mask[C_IP6_PROTO] == {} && r.ctx.mask[C_ARP_OP] == {}
    && forall i :: C_T0 <= i <= C_T3 ==> r.ctx.mask[i] == {}
  }

  lemma MissUntouched(c: Config, table: FlowTable, r: Run)
    requires Untouched(r)
    ensures Untouched(Miss(c, table, r.(ctx := Mask(r.ctx, ETHERNET))))
  {
    hide Ones, Width, CommitFields, CommitVlan;
  }

  lemma MissWalk(c: Config, k: Key, r: Run)
    requires ConfigOk(c) && Sized(k.cells) && Fits(r.ctx) && Lookup(c, 0, KeyToCfr(k)).None?
    ensures |c.tables| == NUM_TABLES
    ensures var w := FinalWalk(c, k, r);
      && w.cfrMask == TableMask(c, 0, Zeroes(CFR_CELLS))
      && w.run == Miss(c, c.tables[0], r.(ctx := Mask(r.ctx, ETHERNET)))
    ensures !ProcessHasDec(c, k, r)
  {
    assert |c.tables| == NUM_TABLES;
    hide ConfigOk, KeyToCfr, TableMask, Miss, Hit, Lookup, UpdateCfr;
  }

  lemma ProtoOnes(p: set<Attr>)
    ensures 0 in Ones(Width(ProtoCell(p)))
  {
  }

  lemma AbsorbedExactly(c: Config, k: Key, r: Run)
    requires ConfigOk(c) && WellFormed(k) && Sized(k.cells) && Fits(r.ctx) && Untouched(FinalWalk(c, k, r).run)
    ensures Absorbed(BeforeL4(c, k, r), FinalWalk(c, k, r).cfrMask) <==> !PortsShow(k.populated, FinalWalk(c, k, r).cfrMask)
  {
    hide ConfigOk, WellFormed, DlType, Ones, MaskL2, MaskL3, FinalWalk, AddsNothing;
    var w := FinalWalk(c, k, r);
    PortCells(w.run.ctx.mask, k, w.cfrMask, 0);
    PortCells(w.run.ctx.mask, k, w.cfrMask, 1);
    PortCells(w.run.ctx.mask, k, w.cfrMask, 2);
    PortCells(w.run.ctx.mask, k, w.cfrMask, 3);
    PortsAddNothing(BeforeL4(c, k, r), w.cfrMask);
    IcmpAddsNothing(BeforeL4(c, k, r), w.cfrMask);
  }

  /**
   A packet with a network but no transport header that misses the first table is decided
   exactly when the table looks at the protocol, or at no port that shows.
   */
  lemma MissDecidedExactly(c: Config, k: Key, r: Run)
    requires ConfigOk(c) && WellFormed(k) && Sized(k.cells) && Untouched(r)
    requires NetworkPopulated(k.populated) && !L4Populated(k.populated)
    requires Lookup(c, 0, KeyToCfr(k)).None?
    ensures !ProcessHasDec(c, k, r)
    ensures var cm := TableMask(c, 0, Zeroes(CFR_CELLS));
      Decided(c, k, r) <==> cm[F_NW_PROTO] != {} || !PortsShow(k.populated, cm)
  {
    hide ConfigOk, WellFormed, DlType, Absorbed, Ones, Width, MaskL2, MaskL3, TableMask, Miss, FinalWalk, PortsShow;
    hide KeyToCfr, Lookup, ProcessHasDec, Decided, WithOnes;
    MissWalk(c, k, r);
    MissUntouched(c, c.tables[0], r);
    ProtoOnes(k.populated);
    DecidedByTables(c, k, r);
    AbsorbedExactly(c, k, r);
  }
}
