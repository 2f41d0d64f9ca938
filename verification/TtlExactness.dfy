/** The decisions of packets that differ in their TTL only. */
module TtlExactness {
  import opened Cells
  import opened Keys
  import opened Actions
  import opened Cfr
  import opened CfrSoundness
  import opened Pipeline
  import opened PipelineSoundness
  import opened MegaflowExactness
  import opened TtlRuns

  /** The same packet with another TTL in the IP header it has. */
  function AtTtl(k: Key, v: Bits): (r: Key)
    requires Sized(k.cells)
    ensures Sized(r.cells) && r.populated == k.populated
  {
    var c := if IPV4 in k.populated then k.cells[C_IP4_TTL := v] else k.cells;
    k.(cells := if IPV6 in k.populated then c[C_IP6_HLIMIT := v] else c)
  }

  lemma AtTtlCells(k: Key, v: Bits, a: Attr, i: nat)
    requires Sized(k.cells) && IsTtl(a, i) && OnlyIp(k.populated, a)
    ensures AtTtl(k, v).cells == k.cells[i := v] && AtTtl(k, k.cells[i]) == k
  {
    assert k.cells[i := k.cells[i]] == k.cells;
  }

  lemma AtTtlCfr(k: Key, v: Bits)
    requires Sized(k.cells)
    ensures KeyToCfr(AtTtl(k, v)) == KeyToCfr(k)
    ensures DlType(AtTtl(k, v)) == DlType(k) && NwProto(AtTtl(k, v)) == NwProto(k)
  {
    var r := AtTtl(k, v);
    assert forall j :: 0 <= j < CELLS && j != C_IP4_TTL && j != C_IP6_HLIMIT ==> r.cells[j] == k.cells[j];
    hide AtTtl;
    assert DlType(r) == DlType(k) && NwProto(r) == NwProto(k);
    hide DlType, NwProto, CFI, PORT_LOCAL, OVSP_LOCAL;
    assert L2Cells(r) == L2Cells(k) && L3Cells(r) == L3Cells(k) && L4Cells(r) == L4Cells(k) && Ipv6Cells(r) == Ipv6Cells(k);
  }

  lemma AtTtlInWidth(k: Key, v: Bits)
    requires InWidth(k.cells) && v <= Ones(8)
    ensures InWidth(AtTtl(k, v).cells)
  {
    assert Width(C_IP4_TTL) == 8 && Width(C_IP6_HLIMIT) == 8;
    hide Ones, Width;
  }

  lemma AtTtlWellFormed(k: Key, v: Bits)
    requires WellFormed(k) && v <= Ones(8)
    ensures Sized(k.cells) && WellFormed(AtTtl(k, v))
  {
    WellFormedFits(k);
    AtTtlCfr(k, v);
    AtTtlInWidth(k, v);
    hide AtTtl, InWidth, DlType, NwProto, ETH_P_IP, ETH_P_IPV6, ETH_P_ARP, IsPorts, IsIcmp, Ones, KeyToCfr;
  }

  lemma AtTtlEnv(c: Config, k: Key, v: Bits)
    requires Sized(k.cells)
    ensures EnvFor(c, AtTtl(k, v)) == EnvFor(c, k)
  {
    TwoCells(k.cells);
    TwoCells(AtTtl(k, v).cells);
  }

  /** The last translation leaves the TTL alone. */
  lemma TtlKept(m: Cells, cfr: Cells, cm: Cells, a: Attr, i: nat)
    requires Sized(m) && |cfr| == |cm| == CFR_CELLS && IsTtl(a, i)
    ensures TranslateMask(m, cfr, cm)[i] == m[i]
  {
    hide Ones, Width, ETH_P_IP, ETH_P_IPV6, ETH_P_ARP, IsPorts, IsIcmp;
    assert MaskL2(m, cm)[i] == m[i];
    assert MaskL3(MaskL2(m, cm), cfr[F_DL_TYPE], cm)[i] == m[i];
  }

  /** As long as the mask of the packet with more life leaves the TTL out, they differ in statistics only. */
  lemma ProcessBehind(c: Config, k1: Key, k2: Key, r1: Run, r2: Run, a: Attr, i: nat)
    requires ConfigOk(c) && Sized(k1.cells) && Sized(k2.cells) && BehindRun(r1, r2, a, i) && Fits(r1.ctx) && Fits(r2.ctx)
    requires KeyToCfr(k1) == KeyToCfr(k2) && EnvFor(c, k1) == EnvFor(c, k2) && k1.populated == k2.populated
    requires DlType(k1) == DlType(k2)
    requires Uncovered(Process(c, k2, r2).ctx.mask, i)
    ensures var p1, p2 := Process(c, k1, r1), Process(c, k2, r2);
      p1.ctx.msg == p2.ctx.msg && p1.ctx.mask == p2.ctx.mask && Fewer(p1.stats, p2.stats)
    ensures Decided(c, k1, r1) <==> Decided(c, k2, r2)
  {
    var s1, s2 := StartWalk(k1, r1), StartWalk(k2, r2);
    var w1, w2 := FinalWalk(c, k1, r1), FinalWalk(c, k2, r2);
    IsTtlOf(r1, r2, a, i);
    TtlKept(w2.run.ctx.mask, w2.cfr, w2.cfrMask, a, i);
    MaskBehind(r1, r2, ETHERNET, a, i);
    hide ConfigOk, KeyToCfr, WalkFrom, TranslateMask, MaskL2, MaskL3, Behind, DlType, Ones, Width, WithOnes, ProtoDecided;
    WalkBehind(c, 0, s1, s2, EnvFor(c, k2), a, i);
    BehindOut(w1.run, w2.run, a, i);
  }

  lemma IsTtlOf(r1: Run, r2: Run, a: Attr, i: nat)
    requires BehindRun(r1, r2, a, i)
    ensures IsTtl(a, i)
  {
  }

  lemma BehindOut(r1: Run, r2: Run, a: Attr, i: nat)
    requires BehindRun(r1, r2, a, i)
    ensures r1.ctx.msg == r2.ctx.msg && r1.ctx.mask == r2.ctx.mask && Fewer(r1.stats, r2.stats)
  {
  }

  lemma MaskBehind(r1: Run, r2: Run, b: Attr, a: Attr, i: nat)
    requires BehindRun(r1, r2, a, i) && Fits(r1.ctx) && Fits(r2.ctx)
    ensures BehindRun(r1.(ctx := Mask(r1.ctx, b)), r2.(ctx := Mask(r2.ctx, b)), a, i)
  {
    hide WithOnes, Le;
  }
}
