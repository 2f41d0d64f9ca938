/**
 What the flow tables can see of a packet is in the translated mask: keys that
 agree on it have CFRs that agree on the CFR mask.
 */
module CfrSoundness {
  import opened Cells
  import opened Keys
  import opened Actions
  import opened ActionSoundness
  import opened Cfr

  /** The network and transport attributes of a key are the ones its types announce. */
  predicate WellFormed(k: Key) {
    && InWidth(k.cells)
    && (IPV4 in k.populated <==> DlType(k) == ETH_P_IP)
    && (IPV6 in k.populated <==> DlType(k) == ETH_P_IPV6)
    && (ARP in k.populated <==> DlType(k) == ETH_P_ARP)
    && (TCP in k.populated || UDP in k.populated ==> ARP !in k.populated && IsPorts(NwProto(k)))
    && (ICMP in k.populated || ICMPV6 in k.populated ==> ARP !in k.populated && IsIcmp(NwProto(k)))
  }

  lemma TypesDiffer()
    ensures ETH_P_IP != ETH_P_IPV6 && ETH_P_IP != ETH_P_ARP && ETH_P_IPV6 != ETH_P_ARP
    ensures NOT_ETH_TYPE != ETH_P_IP && NOT_ETH_TYPE != ETH_P_IPV6 && NOT_ETH_TYPE != ETH_P_ARP
    ensures forall p :: IsPorts(p) ==> !IsIcmp(p)
  {
    assert 15 in ETH_P_IPV6 && 15 !in ETH_P_IP && 15 !in ETH_P_ARP && 15 !in NOT_ETH_TYPE;
    assert 1 in ETH_P_ARP && 1 !in ETH_P_IP;
    assert 11 !in NOT_ETH_TYPE;
    assert 2 in IPPROTO_TCP && 2 !in IPPROTO_ICMP && 2 !in IPPROTO_ICMPV6;
    assert 4 in IPPROTO_UDP && 4 !in IPPROTO_ICMP && 1 in IPPROTO_ICMPV6 && 1 !in IPPROTO_UDP;
  }

  // ---- layer by layer ------------------------------------------------------

  lemma CellBelow(a: Bits, b: Bits, m: Bits, n: Bits)
    requires CellAgree(a, b, n) && m <= n
    ensures CellAgree(a, b, m)
  {
    assert a * m == (a * n) * m && b * m == (b * n) * m;
  }

  lemma CellSame(a: Bits, m: Bits)
    ensures CellAgree(a, a, m)
  {
  }

  /** An exactly masked field: all its bits count, or none does. */
  lemma CellAllOrNothing(k1: Cells, k2: Cells, m: Cells, i: nat, bits: Bits)
    requires Covered(k1, k2, m) && i < CELLS && Exactly(bits, i, m[i])
    ensures bits != {} ==> k1[i] == k2[i]
    ensures CellAgree(k1[i], k2[i], bits)
  {
    if bits != {} {
      CellExact(k1, k2, m, i);
    }
  }

  lemma CellExact(k1: Cells, k2: Cells, m: Cells, i: nat)
    requires Covered(k1, k2, m) && i < CELLS && Ones(Width(i)) <= m[i]
    ensures k1[i] == k2[i]
  {
    assert CellAgree(k1[i], k2[i], m[i]);
    assert k1[i] * m[i] == k1[i] && k2[i] * m[i] == k2[i];
  }

  /** Some bits of the CFR mask are in the key mask. */
  predicate Under(bits: Bits, n: Bits) {
    bits <= n
  }

  /** An exactly masked field is in the key mask whole, if at all. */
  predicate Exactly(bits: Bits, i: nat, n: Bits) {
    bits != {} ==> Ones(Width(i)) <= n
  }

  /** The keys agree on a CFR mask cell that was ORed into the key mask at i. */
  lemma CellOred(k1: Cells, k2: Cells, m: Cells, i: nat, bits: Bits)
    requires Covered(k1, k2, m) && i < CELLS && Under(bits, m[i])
    ensures CellAgree(k1[i], k2[i], bits)
  {
    assert CellAgree(k1[i], k2[i], m[i]);
    CellBelow(k1[i], k2[i], bits, m[i]);
  }

  lemma L2MaskCells(m0: Cells, cm: Cells, m: Cells)
    requires Sized(m0) && |cm| == CFR_CELLS && Below(MaskL2(m0, cm), m)
    ensures Exactly(cm[F_IN_PORT], C_IN_PORT, m[C_IN_PORT]) && Exactly(cm[F_DL_TYPE], C_ETHERTYPE, m[C_ETHERTYPE])
    ensures Under(cm[F_DL_DST], m[C_ETH_DST]) && Under(cm[F_DL_SRC], m[C_ETH_SRC]) && Under(cm[F_DL_VLAN], m[C_VLAN])
  {
    hide Ones, Width;
  }

  lemma L2Covered(k1: Key, k2: Key, m0: Cells, m: Cells, cm: Cells)
    requires Sized(m0) && |cm| == CFR_CELLS && Covered(k1.cells, k2.cells, m) && k1.populated == k2.populated
    requires Below(MaskL2(m0, cm), m)
    ensures Agree(L2Cells(k1), L2Cells(k2), cm[..5])
  {
    var c1, c2 := k1.cells, k2.cells;
    L2MaskCells(m0, cm, m);
    hide MaskL2, Below, Under, Exactly, CellAgree, Covered, Ones, Width, CFI, PORT_LOCAL, OVSP_LOCAL, NOT_ETH_TYPE, IsLength;
    CellAllOrNothing(c1, c2, m, C_IN_PORT, cm[F_IN_PORT]);
    CellOred(c1, c2, m, C_ETH_DST, cm[F_DL_DST]);
    CellOred(c1, c2, m, C_ETH_SRC, cm[F_DL_SRC]);
    CellAllOrNothing(c1, c2, m, C_ETHERTYPE, cm[F_DL_TYPE]);
    CellOred(c1, c2, m, C_VLAN, cm[F_DL_VLAN]);
    VlanAgree(c1[C_VLAN], c2[C_VLAN], cm[F_DL_VLAN], CFI);
    CellSame({}, cm[F_DL_VLAN]);
    SameOrNothing(L2Cells(k1)[F_IN_PORT], L2Cells(k2)[F_IN_PORT], cm[F_IN_PORT]);
    SameOrNothing(DlType(k1), DlType(k2), cm[F_DL_TYPE]);
    Agree5(L2Cells(k1), L2Cells(k2), cm[..5]);
  }

  lemma SameOrNothing(a: Bits, b: Bits, m: Bits)
    requires m != {} ==> a == b
    ensures CellAgree(a, b, m)
  {
  }

  lemma Agree5(a: Cells, b: Cells, m: Cells)
    requires |a| == |b| == |m| == 5
    requires CellAgree(a[0], b[0], m[0]) && CellAgree(a[1], b[1], m[1]) && CellAgree(a[2], b[2], m[2])
    requires CellAgree(a[3], b[3], m[3]) && CellAgree(a[4], b[4], m[4])
    ensures Agree(a, b, m)
  {
    hide CellAgree;
  }

  lemma Agree7(a: Cells, b: Cells, m: Cells)
    requires |a| == |b| == |m| == 7
    requires CellAgree(a[0], b[0], m[0]) && CellAgree(a[1], b[1], m[1]) && CellAgree(a[2], b[2], m[2])
    requires CellAgree(a[3], b[3], m[3]) && CellAgree(a[4], b[4], m[4]) && CellAgree(a[5], b[5], m[5])
    requires CellAgree(a[6], b[6], m[6])
    ensures Agree(a, b, m)
  {
    hide CellAgree;
  }

  lemma Agree4(a: Cells, b: Cells, m: Cells)
    requires |a| == |b| == |m| == 4
    requires CellAgree(a[0], b[0], m[0]) && CellAgree(a[1], b[1], m[1])
    requires CellAgree(a[2], b[2], m[2]) && CellAgree(a[3], b[3], m[3])
    ensures Agree(a, b, m)
  {
    hide CellAgree;
  }

  lemma AgreeSame(a: Cells, m: Cells)
    requires |a| == |m|
    ensures Agree(a, a, m)
  {
  }

  lemma VlanAgree(a: Bits, b: Bits, m: Bits, cfi: Bits)
    requires CellAgree(a, b, m)
    ensures CellAgree(a + cfi, b + cfi, m)
  {
    assert (a + cfi) * m == (a * m) + (cfi * m);
    assert (b + cfi) * m == (b * m) + (cfi * m);
  }

  ghost predicate L3Agree(k1: Key, k2: Key, cm: Cells)
    requires Sized(k1.cells) && Sized(k2.cells) && |cm| == CFR_CELLS
  {
    Agree(L3Cells(k1), L3Cells(k2), cm[5..12]) && Agree(Ipv6Cells(k1), Ipv6Cells(k2), cm[16..18])
  }

  lemma AddrMaskCells(m0: Cells, i: nat, cm: Cells, m: Cells)
    requires Sized(m0) && i + 3 < CELLS && |cm| == CFR_CELLS && Below(MaskAddr(m0, i, cm), m)
    ensures Under(cm[7], m[i]) && Under(cm[8], m[i + 1]) && Under(cm[9], m[i + 2]) && Under(cm[10], m[i + 3])
  {
  }

  lemma BelowTrans(a: Cells, b: Cells, c: Cells)
    requires Below(a, b) && Below(b, c)
    ensures Below(a, c)
  {
  }

  lemma Ipv4MaskCells(m0: Cells, cm: Cells, m: Cells)
    requires Sized(m0) && |cm| == CFR_CELLS && Below(MaskL3(m0, ETH_P_IP, cm), m)
    ensures Under(cm[5], m[C_IP4_TOS]) && Exactly(cm[6], C_IP4_PROTO, m[C_IP4_PROTO])
    ensures Under(cm[7], m[C_IP4_SRC]) && Under(cm[8], m[C_IP4_SRC + 1])
    ensures Under(cm[9], m[C_IP4_SRC + 2]) && Under(cm[10], m[C_IP4_SRC + 3]) && Under(cm[11], m[C_IP4_DST])
  {
    var a := MaskExact(MaskBits(m0, C_IP4_TOS, cm[F_NW_TOS]), C_IP4_PROTO, cm[F_NW_PROTO]);
    var b := MaskAddr(a, C_IP4_SRC, cm);
    hide MaskAddr, Ones, Width;
    BelowTrans(b, MaskBits(b, C_IP4_DST, cm[F_NW_DST]), m);
    AddrMaskCells(a, C_IP4_SRC, cm, m);
  }

  lemma Ipv6MaskCells(m0: Cells, cm: Cells, m: Cells)
    requires Sized(m0) && |cm| == CFR_CELLS && Below(MaskL3(m0, ETH_P_IPV6, cm), m)
    ensures Under(cm[5], m[C_IP6_TCLASS]) && Exactly(cm[6], C_IP6_PROTO, m[C_IP6_PROTO])
    ensures Under(cm[16], m[C_IP6_SRC]) && Under(cm[17], m[C_IP6_DST])
  {
    TypesDiffer();
    hide Ones, Width, MaskAddr;
  }

  lemma ArpMaskCells(m0: Cells, cm: Cells, m: Cells)
    requires Sized(m0) && |cm| == CFR_CELLS && Below(MaskL3(m0, ETH_P_ARP, cm), m)
    ensures Exactly(cm[6], C_ARP_OP, m[C_ARP_OP])
    ensures Under(cm[7], m[C_T0]) && Under(cm[8], m[C_T1]) && Under(cm[9], m[C_T2]) && Under(cm[10], m[C_T3])
    ensures Under(cm[11], m[C_ARP_TIP])
  {
    TypesDiffer();
    var a := MaskExact(m0, C_ARP_OP, cm[F_NW_PROTO]);
    var b := MaskAddr(a, C_T0, cm);
    hide MaskAddr, Ones, Width;
    BelowTrans(b, MaskBits(b, C_ARP_TIP, cm[F_NW_DST]), m);
    AddrMaskCells(a, C_T0, cm, m);
  }

  lemma Ipv4Covered(k1: Key, k2: Key, m0: Cells, m: Cells, cm: Cells)
    requires Sized(m0) && |cm| == CFR_CELLS && Covered(k1.cells, k2.cells, m) && k1.populated == k2.populated
    requires IPV4 in k1.populated && Below(MaskL3(m0, ETH_P_IP, cm), m)
    ensures L3Agree(k1, k2, cm)
    ensures cm[F_NW_PROTO] != {} ==> NwProto(k1) == NwProto(k2)
  {
    var c1, c2 := k1.cells, k2.cells;
    Ipv4MaskCells(m0, cm, m);
    hide MaskL3, Below, Under, Exactly, CellAgree, Covered, Ones, Width, ETH_P_IP;
    CellOred(c1, c2, m, C_IP4_TOS, cm[5]);
    CellAllOrNothing(c1, c2, m, C_IP4_PROTO, cm[6]);
    CellOred(c1, c2, m, C_IP4_SRC, cm[7]);
    CellOred(c1, c2, m, C_IP4_SRC + 1, cm[8]);
    CellOred(c1, c2, m, C_IP4_SRC + 2, cm[9]);
    CellOred(c1, c2, m, C_IP4_SRC + 3, cm[10]);
    CellOred(c1, c2, m, C_IP4_DST, cm[11]);
    Agree7(L3Cells(k1), L3Cells(k2), cm[5..12]);
    AgreeSame(Ipv6Cells(k1), cm[16..18]);
  }

  lemma Ipv6Covered(k1: Key, k2: Key, m0: Cells, m: Cells, cm: Cells)
    requires Sized(m0) && |cm| == CFR_CELLS && Covered(k1.cells, k2.cells, m) && k1.populated == k2.populated
    requires IPV4 !in k1.populated && IPV6 in k1.populated && Below(MaskL3(m0, ETH_P_IPV6, cm), m)
    ensures L3Agree(k1, k2, cm)
    ensures cm[F_NW_PROTO] != {} ==> NwProto(k1) == NwProto(k2)
  {
    var c1, c2 := k1.cells, k2.cells;
    Ipv6MaskCells(m0, cm, m);
    hide MaskL3, Below, Under, Exactly, CellAgree, Covered, Ones, Width, ETH_P_IPV6, L3Cells, Ipv6Cells, L3Agree;
    CellOred(c1, c2, m, C_IP6_TCLASS, cm[5]);
    CellAllOrNothing(c1, c2, m, C_IP6_PROTO, cm[6]);
    CellOred(c1, c2, m, C_IP6_SRC, cm[16]);
    CellOred(c1, c2, m, C_IP6_DST, cm[17]);
    Ipv6Agree(k1, k2, cm);
  }

  lemma Ipv6Agree(k1: Key, k2: Key, cm: Cells)
    requires Sized(k1.cells) && Sized(k2.cells) && |cm| == CFR_CELLS && k1.populated == k2.populated
    requires IPV4 !in k1.populated && IPV6 in k1.populated
    requires CellAgree(k1.cells[C_IP6_TCLASS], k2.cells[C_IP6_TCLASS], cm[5]) && CellAgree(NwProto(k1), NwProto(k2), cm[6])
    requires CellAgree(k1.cells[C_IP6_SRC], k2.cells[C_IP6_SRC], cm[16])
    requires CellAgree(k1.cells[C_IP6_DST], k2.cells[C_IP6_DST], cm[17])
    ensures L3Agree(k1, k2, cm)
  {
    CellSame({}, cm[7]);
    CellSame({}, cm[8]);
    CellSame({}, cm[9]);
    CellSame({}, cm[10]);
    CellSame({}, cm[11]);
    hide CellAgree, NwProto;
    Agree7(L3Cells(k1), L3Cells(k2), cm[5..12]);
  }

  lemma ArpProto(k1: Key, k2: Key)
    requires Sized(k1.cells) && Sized(k2.cells) && k1.populated == k2.populated
    requires IPV4 !in k1.populated && IPV6 !in k1.populated && ARP in k1.populated
    ensures k1.cells[C_ARP_OP] == k2.cells[C_ARP_OP] ==> NwProto(k1) == NwProto(k2)
  {
  }

  lemma ArpAgree(k1: Key, k2: Key, cm: Cells)
    requires Sized(k1.cells) && Sized(k2.cells) && |cm| == CFR_CELLS && k1.populated == k2.populated
    requires IPV4 !in k1.populated && IPV6 !in k1.populated && ARP in k1.populated
    requires CellAgree(NwProto(k1), NwProto(k2), cm[6]) && CellAgree(k1.cells[C_T0], k2.cells[C_T0], cm[7])
    requires CellAgree(k1.cells[C_T1], k2.cells[C_T1], cm[8]) && CellAgree(k1.cells[C_T2], k2.cells[C_T2], cm[9])
    requires CellAgree(k1.cells[C_T3], k2.cells[C_T3], cm[10]) && CellAgree(k1.cells[C_ARP_TIP], k2.cells[C_ARP_TIP], cm[11])
    ensures L3Agree(k1, k2, cm)
  {
    CellSame({}, cm[5]);
    hide CellAgree, NwProto;
    Agree7(L3Cells(k1), L3Cells(k2), cm[5..12]);
    AgreeSame(Ipv6Cells(k1), cm[16..18]);
  }

  lemma ArpCovered(k1: Key, k2: Key, m0: Cells, m: Cells, cm: Cells)
    requires Sized(m0) && |cm| == CFR_CELLS && Covered(k1.cells, k2.cells, m) && k1.populated == k2.populated
    requires IPV4 !in k1.populated && IPV6 !in k1.populated && ARP in k1.populated
    requires Below(MaskL3(m0, ETH_P_ARP, cm), m)
    ensures L3Agree(k1, k2, cm)
    ensures cm[F_NW_PROTO] != {} ==> NwProto(k1) == NwProto(k2)
  {
    var c1, c2 := k1.cells, k2.cells;
    ArpMaskCells(m0, cm, m);
    ArpProto(k1, k2);
    hide NwProto, MaskL3, Under, Exactly, CellAgree, Covered, Ones, Width, ETH_P_ARP, LOW_BYTE, Below;
    CellAllOrNothing(c1, c2, m, C_ARP_OP, cm[6]);
    SameOrNothing(NwProto(k1), NwProto(k2), cm[6]);
    hide L3Cells, Ipv6Cells, L3Agree;
    CellOred(c1, c2, m, C_T0, cm[7]);
    CellOred(c1, c2, m, C_T1, cm[8]);
    CellOred(c1, c2, m, C_T2, cm[9]);
    CellOred(c1, c2, m, C_T3, cm[10]);
    CellOred(c1, c2, m, C_ARP_TIP, cm[11]);
    ArpAgree(k1, k2, cm);
  }

  lemma L3Covered(k1: Key, k2: Key, m0: Cells, m: Cells, cm: Cells)
    requires Sized(m0) && |cm| == CFR_CELLS && Covered(k1.cells, k2.cells, m) && k1.populated == k2.populated
    requires WellFormed(k1) && Below(MaskL3(m0, DlType(k1), cm), m)
    ensures L3Agree(k1, k2, cm)
    ensures cm[F_NW_PROTO] != {} ==> NwProto(k1) == NwProto(k2)
  {
    hide MaskL3, ETH_P_IP, ETH_P_IPV6, ETH_P_ARP, DlType, Covered, CellAgree, Agree;
    if IPV4 in k1.populated {
      Ipv4Covered(k1, k2, m0, m, cm);
    } else if IPV6 in k1.populated {
      Ipv6Covered(k1, k2, m0, m, cm);
    } else if ARP in k1.populated {
      ArpCovered(k1, k2, m0, m, cm);
    } else {
      AgreeSame(L3Cells(k1), cm[5..12]);
      AgreeSame(Ipv6Cells(k1), cm[16..18]);
    }
  }

  lemma PortsMaskCells(m0: Cells, proto: Bits, cm: Cells, m: Cells)
    requires Sized(m0) && |cm| == CFR_CELLS && IsPorts(proto) && Below(MaskL4(m0, proto, cm), m)
    ensures Under(cm[12], m[C_T0]) && Under(cm[13], m[C_T1]) && Under(cm[14], m[C_T2]) && Under(cm[15], m[C_T3])
  {
  }

  lemma IcmpMaskCells(m0: Cells, proto: Bits, cm: Cells, m: Cells)
    requires Sized(m0) && |cm| == CFR_CELLS && IsIcmp(proto) && !IsPorts(proto) && Below(MaskL4(m0, proto, cm), m)
    ensures Exactly(cm[13], C_T0, m[C_T0]) && Exactly(cm[15], C_T1, m[C_T1])
  {
    hide Ones, Width;
  }

  lemma PortsCovered(k1: Key, k2: Key, m0: Cells, m: Cells, cm: Cells)
    requires Sized(m0) && |cm| == CFR_CELLS && Covered(k1.cells, k2.cells, m) && k1.populated == k2.populated
    requires WellFormed(k1) && Below(MaskL4(m0, NwProto(k1), cm), m)
    requires TCP in k1.populated || UDP in k1.populated
    ensures Agree(L4Cells(k1), L4Cells(k2), cm[12..16])
  {
    TypesDiffer();
    var c1, c2 := k1.cells, k2.cells;
    assert Sized(c1) && Sized(c2);
    hide IPPROTO_TCP, IPPROTO_UDP, IPPROTO_ICMP, IPPROTO_ICMPV6, IsPorts, IsIcmp, DlType, NwProto;
    hide CellAgree, Covered, Ones, Width, MaskL4, Below, Under, Exactly;
    PortsMaskCells(m0, NwProto(k1), cm, m);
    CellOred(c1, c2, m, C_T0, cm[12]);
    CellOred(c1, c2, m, C_T1, cm[13]);
    CellOred(c1, c2, m, C_T2, cm[14]);
    CellOred(c1, c2, m, C_T3, cm[15]);
    Agree4(L4Cells(k1), L4Cells(k2), cm[12..16]);
  }

  lemma L4Covered(k1: Key, k2: Key, m0: Cells, m: Cells, cm: Cells)
    requires Sized(m0) && |cm| == CFR_CELLS && Covered(k1.cells, k2.cells, m) && k1.populated == k2.populated
    requires WellFormed(k1) && Below(MaskL4(m0, NwProto(k1), cm), m)
    ensures Agree(L4Cells(k1), L4Cells(k2), cm[12..16])
  {
    if TCP in k1.populated || UDP in k1.populated {
      PortsCovered(k1, k2, m0, m, cm);
    } else if ICMP in k1.populated || ICMPV6 in k1.populated {
      IcmpCovered(k1, k2, m0, m, cm);
    } else {
      AgreeSame(L4Cells(k1), cm[12..16]);
    }
  }

  lemma IcmpCovered(k1: Key, k2: Key, m0: Cells, m: Cells, cm: Cells)
    requires Sized(m0) && |cm| == CFR_CELLS && Covered(k1.cells, k2.cells, m) && k1.populated == k2.populated
    requires WellFormed(k1) && Below(MaskL4(m0, NwProto(k1), cm), m)
    requires TCP !in k1.populated && UDP !in k1.populated && (ICMP in k1.populated || ICMPV6 in k1.populated)
    ensures Agree(L4Cells(k1), L4Cells(k2), cm[12..16])
  {
    TypesDiffer();
    var c1, c2 := k1.cells, k2.cells;
    assert Sized(c1) && Sized(c2);
    hide IPPROTO_TCP, IPPROTO_UDP, IPPROTO_ICMP, IPPROTO_ICMPV6, IsPorts, IsIcmp, DlType, NwProto;
    hide CellAgree, Covered, Ones, Width, MaskL4, Below, Under, Exactly;
    IcmpMaskCells(m0, NwProto(k1), cm, m);
    CellSame({}, cm[12]);
    CellAllOrNothing(c1, c2, m, C_T0, cm[13]);
    CellSame({}, cm[14]);
    CellAllOrNothing(c1, c2, m, C_T1, cm[15]);
    Agree4(L4Cells(k1), L4Cells(k2), cm[12..16]);
  }

  lemma AgreeConcat(a1: Cells, b1: Cells, m1: Cells, a2: Cells, b2: Cells, m2: Cells)
    requires Agree(a1, b1, m1) && Agree(a2, b2, m2)
    ensures Agree(a1 + a2, b1 + b2, m1 + m2)
  {
    hide CellAgree;
  }

  /** Agreement on the translated mask gives agreement of the CFRs on the CFR mask. */
  lemma CfrCovered(k1: Key, k2: Key, m0: Cells, m: Cells, cfr: Cells, cm: Cells)
    requires Sized(m0) && |cm| == |cfr| == CFR_CELLS
    requires WellFormed(k1) && WellFormed(k2) && k1.populated == k2.populated
    requires cfr[F_DL_TYPE] == DlType(k1) && cfr[F_NW_PROTO] == NwProto(k1)
    requires Agree(k1.cells, k2.cells, m) && Below(TranslateMask(m0, cfr, cm), m)
    ensures Agree(KeyToCfr(k1), KeyToCfr(k2), cm)
    ensures cm[F_NW_PROTO] != {} ==> NwProto(k1) == NwProto(k2)
  {
    hide MaskL2, MaskL3, MaskL4, DlType, NwProto, L2Cells, L3Cells, L4Cells, Ipv6Cells, CellAgree;
    var a := MaskL2(m0, cm);
    var b := MaskL3(a, DlType(k1), cm);
    L2Covered(k1, k2, m0, m, cm);
    L3Covered(k1, k2, a, m, cm);
    L4Covered(k1, k2, b, m, cm);
    hide Agree;
    AgreeConcat(L2Cells(k1), L2Cells(k2), cm[..5], L3Cells(k1), L3Cells(k2), cm[5..12]);
    AgreeConcat(L2Cells(k1) + L3Cells(k1), L2Cells(k2) + L3Cells(k2), cm[..5] + cm[5..12],
                L4Cells(k1), L4Cells(k2), cm[12..16]);
    AgreeConcat(L2Cells(k1) + L3Cells(k1) + L4Cells(k1), L2Cells(k2) + L3Cells(k2) + L4Cells(k2),
                cm[..5] + cm[5..12] + cm[12..16], Ipv6Cells(k1), Ipv6Cells(k2), cm[16..18]);
    assert cm == cm[..5] + cm[5..12] + cm[12..16] + cm[16..18];
  }

  // ---- rewriting keeps CFRs close ------------------------------------------

  lemma CloseCell(c1: Cells, c2: Cells, d1: Cells, d2: Cells, i: nat, v1: Bits, v2: Bits)
    requires Close(c1, c2, d1, d2) && i < |c1| && Xor(v1, v2) <= Xor(d1[i], d2[i])
    ensures Close(c1[i := v1], c2[i := v2], d1, d2)
  {
    hide Xor;
  }

  lemma CloseConst(c1: Cells, c2: Cells, d1: Cells, d2: Cells, i: nat, v: Bits)
    requires Close(c1, c2, d1, d2) && i < |c1|
    ensures Close(c1[i := v], c2[i := v], d1, d2)
  {
    XorSame(v, d1[i], d2[i]);
    CloseCell(c1, c2, d1, d2, i, v, v);
  }

  lemma CloseConst2(c1: Cells, c2: Cells, d1: Cells, d2: Cells, i: nat, v: Bits, w: Bits)
    requires Close(c1, c2, d1, d2) && i + 1 < |c1|
    ensures Close(c1[i := v][i + 1 := w], c2[i := v][i + 1 := w], d1, d2)
  {
    CloseConst(c1, c2, d1, d2, i, v);
    CloseConst(c1[i := v], c2[i := v], d1, d2, i + 1, w);
  }

  lemma UpdateVlanClose(c1: Cells, c2: Cells, d1: Cells, d2: Cells, v: Bits)
    requires Close(c1, c2, d1, d2) && |c1| == CFR_CELLS
    ensures Close(c1[F_DL_VLAN := WithVid(c1[F_DL_VLAN], v)], c2[F_DL_VLAN := WithVid(c2[F_DL_VLAN], v)], d1, d2)
    ensures Close(c1[F_DL_VLAN := WithPcp(c1[F_DL_VLAN], v)], c2[F_DL_VLAN := WithPcp(c2[F_DL_VLAN], v)], d1, d2)
  {
    var t1, t2 := c1[F_DL_VLAN], c2[F_DL_VLAN];
    hide WithVid, WithPcp, Xor;
    WithVidClose(t1, t2, v, d1[F_DL_VLAN], d2[F_DL_VLAN]);
    hide Close;
    CloseCell(c1, c2, d1, d2, F_DL_VLAN, WithVid(t1, v), WithVid(t2, v));
    CloseCell(c1, c2, d1, d2, F_DL_VLAN, WithPcp(t1, v), WithPcp(t2, v));
  }

  predicate IsPortField(f: Field) {
    f.TcpDst? || f.UdpDst? || f.TpDst? || f.TcpSrc? || f.UdpSrc? || f.TpSrc?
  }

  lemma PortsClose(c1: Cells, c2: Cells, d1: Cells, d2: Cells, a: Action)
    requires Close(c1, c2, d1, d2) && |c1| == CFR_CELLS && a.Set? && IsPortField(a.field)
    ensures Close(UpdateOne(c1, a), UpdateOne(c2, a), d1, d2)
  {
    assert |c2| == |c1|;
    CloseConst2(c1, c2, d1, d2, F_TP_DST, a.field.lo, a.field.hi);
    CloseConst2(c1, c2, d1, d2, F_TP_SRC, a.field.lo, a.field.hi);
    hide Close;
  }

  lemma UpdateOneClose(c1: Cells, c2: Cells, d1: Cells, d2: Cells, a: Action)
    requires Close(c1, c2, d1, d2) && |c1| == CFR_CELLS
    ensures Close(UpdateOne(c1, a), UpdateOne(c2, a), d1, d2)
  {
    assert |c2| == |d1| == |d2| == |c1|;
    if a.Set? && IsPortField(a.field) {
      PortsClose(c1, c2, d1, d2, a);
    } else if a.Set? {
      hide Close, Xor, Swap32, WithVid, WithPcp, DSCP, ECN;
      match a.field {
        case EthDst(v) => CloseConst(c1, c2, d1, d2, F_DL_DST, v);
        case EthSrc(v) => CloseConst(c1, c2, d1, d2, F_DL_SRC, v);
        case Ipv4Dst(v) => CloseConst(c1, c2, d1, d2, F_NW_DST, Swap32(v));
        case Ipv4Src(_, _, _, _) => AddrClose(c1, c2, d1, d2, a);
        case IpDscp(v) => TosClose(c1, c2, d1, d2, DSCP, v);
        case IpEcn(v) => TosClose(c1, c2, d1, d2, ECN, v);
        case Ipv6Dst(v) => CloseConst(c1, c2, d1, d2, F_IPV6_DST, v);
        case Ipv6Src(v) => CloseConst(c1, c2, d1, d2, F_IPV6_SRC, v);
        case VlanVid(v) => UpdateVlanClose(c1, c2, d1, d2, v);
        case VlanPcp(v) => UpdateVlanClose(c1, c2, d1, d2, v);
        case _ =>
      }
    }
  }

  lemma AddrClose(c1: Cells, c2: Cells, d1: Cells, d2: Cells, a: Action)
    requires Close(c1, c2, d1, d2) && |c1| == CFR_CELLS && a.Set? && a.field.Ipv4Src?
    ensures Close(UpdateOne(c1, a), UpdateOne(c2, a), d1, d2)
  {
    var b0, b1, b2, b3 := a.field.b0, a.field.b1, a.field.b2, a.field.b3;
    var e1, e2 := c1[F_NW_SRC := b3][F_NW_SRC + 1 := b2], c2[F_NW_SRC := b3][F_NW_SRC + 1 := b2];
    assert |c2| == CFR_CELLS;
    hide Close;
    CloseConst2(c1, c2, d1, d2, F_NW_SRC, b3, b2);
    CloseConst2(e1, e2, d1, d2, F_NW_SRC + 2, b1, b0);
  }

  lemma UpdateOneTypes(c: Cells, a: Action)
    requires |c| == CFR_CELLS
    ensures UpdateOne(c, a)[F_DL_TYPE] == c[F_DL_TYPE] && UpdateOne(c, a)[F_NW_PROTO] == c[F_NW_PROTO]
  {
    hide Swap32, WithVid, WithPcp, DSCP, ECN;
  }

  lemma TosClose(c1: Cells, c2: Cells, d1: Cells, d2: Cells, clear: Bits, v: Bits)
    requires Close(c1, c2, d1, d2) && |c1| == CFR_CELLS
    ensures Close(c1[F_NW_TOS := (c1[F_NW_TOS] - clear) + v], c2[F_NW_TOS := (c2[F_NW_TOS] - clear) + v], d1, d2)
  {
    XorTrans(c1[F_NW_TOS], c2[F_NW_TOS], clear, v, d1[F_NW_TOS], d2[F_NW_TOS]);
    CloseCell(c1, c2, d1, d2, F_NW_TOS, (c1[F_NW_TOS] - clear) + v, (c2[F_NW_TOS] - clear) + v);
  }

  /** Rewriting by the same actions: close CFRs stay close, and the type fields stay put. */
  lemma {:induction false} UpdateClose(c1: Cells, c2: Cells, d1: Cells, d2: Cells, actions: seq<Action>)
    requires Close(c1, c2, d1, d2) && |c1| == CFR_CELLS
    ensures |c2| == CFR_CELLS && Close(UpdateCfr(c1, actions), UpdateCfr(c2, actions), d1, d2)
    ensures UpdateCfr(c1, actions)[F_DL_TYPE] == c1[F_DL_TYPE] && UpdateCfr(c1, actions)[F_NW_PROTO] == c1[F_NW_PROTO]
    ensures UpdateCfr(c2, actions)[F_DL_TYPE] == c2[F_DL_TYPE] && UpdateCfr(c2, actions)[F_NW_PROTO] == c2[F_NW_PROTO]
    decreases actions
  {
    assert |c2| == CFR_CELLS;
    hide Close, UpdateOne;
    if actions != [] {
      UpdateOneClose(c1, c2, d1, d2, actions[0]);
      UpdateOneTypes(c1, actions[0]);
      UpdateOneTypes(c2, actions[0]);
      UpdateClose(UpdateOne(c1, actions[0]), UpdateOne(c2, actions[0]), d1, d2, actions[1..]);
    }
  }

  /** Close keys agree wherever the originals do. */
  lemma CloseAgree(c1: Cells, c2: Cells, d1: Cells, d2: Cells, m: Cells)
    requires Close(c1, c2, d1, d2) && Agree(d1, d2, m)
    ensures Agree(c1, c2, m)
  {
    forall i | 0 <= i < |m| ensures CellAgree(c1[i], c2[i], m[i]) {
      XorAgree(d1[i], d2[i], m[i]);
      assert CellAgree(d1[i], d2[i], m[i]);
      assert Xor(c1[i], c2[i]) * m[i] <= Xor(d1[i], d2[i]) * m[i];
      XorAgree(c1[i], c2[i], m[i]);
    }
  }
}
