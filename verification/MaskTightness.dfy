/**
 The other half of the mask translation: it adds no more than it has to.  Every cell
 gains exactly the bits that the tables looked at there, whole cells where the kernel takes
 no partial mask, and a bit added to a field that the packet has is one whose change the
 tables would see.
 */
module MaskTightness {
  import opened Cells
  import opened Keys
  import opened Cfr
  import opened CfrSoundness

  /** All of a field, if the tables looked at any of it. */
  function Whole(looked: Bits, w: nat): Bits {
    if looked == {} then {} else Ones(w)
  }

  function L2Gains(cm: Cells, i: nat): Bits
    requires |cm| == CFR_CELLS
  {
    if i == C_IN_PORT then Whole(cm[F_IN_PORT], 32)
    else if i == C_ETH_SRC then cm[F_DL_SRC]
    else if i == C_ETH_DST then cm[F_DL_DST]
    else if i == C_VLAN then cm[F_DL_VLAN]
    else if i == C_ETHERTYPE then Whole(cm[F_DL_TYPE], 16)
    else {}
  }

  function Ipv4Gains(cm: Cells, i: nat): Bits
    requires |cm| == CFR_CELLS
  {
    if C_IP4_SRC <= i < C_IP4_SRC + 4 then cm[F_NW_SRC + (i - C_IP4_SRC)]
    else if i == C_IP4_DST then cm[F_NW_DST]
    else if i == C_IP4_TOS then cm[F_NW_TOS]
    else if i == C_IP4_PROTO then Whole(cm[F_NW_PROTO], 8)
    else {}
  }

  function Ipv6Gains(cm: Cells, i: nat): Bits
    requires |cm| == CFR_CELLS
  {
    if i == C_IP6_SRC then cm[F_IPV6_SRC]
    else if i == C_IP6_DST then cm[F_IPV6_DST]
    else if i == C_IP6_TCLASS then cm[F_NW_TOS]
    else if i == C_IP6_PROTO then Whole(cm[F_NW_PROTO], 8)
    else {}
  }

  function ArpGains(cm: Cells, i: nat): Bits
    requires |cm| == CFR_CELLS
  {
    if C_T0 <= i < C_T0 + 4 then cm[F_NW_SRC + (i - C_T0)]
    else if i == C_ARP_TIP then cm[F_NW_DST]
    else if i == C_ARP_OP then Whole(cm[F_NW_PROTO], 16)
    else {}
  }

  /** By the network header the packet has. */
  function L3Gains(populated: set<Attr>, cm: Cells, i: nat): Bits
    requires |cm| == CFR_CELLS
  {
    if IPV4 in populated then Ipv4Gains(cm, i)
    else if IPV6 in populated then Ipv6Gains(cm, i)
    else if ARP in populated then ArpGains(cm, i)
    else {}
  }

  /** By the protocol number: 6 and 17, 1 and 58. */
  function L4Gains(proto: Bits, cm: Cells, i: nat): Bits
    requires |cm| == CFR_CELLS
  {
    if proto == {1, 2} || proto == {0, 4} then
      if C_T0 <= i < C_T0 + 4 then cm[F_TP_SRC + (i - C_T0)] else {}
    else if proto == {0} || proto == {1, 3, 4, 5} then
      if i == C_T0 then Whole(cm[F_TP_SRC] + cm[F_TP_SRC + 1], 8)
      else if i == C_T1 then Whole(cm[F_TP_DST] + cm[F_TP_DST + 1], 8)
      else {}
    else {}
  }

  lemma BitsAt(m: Cells, j: nat, bits: Bits, i: nat)
    requires Sized(m) && j < CELLS && i < CELLS
    ensures MaskBits(m, j, bits)[i] == m[i] + if i == j then bits else {}
    ensures MaskExact(m, j, bits)[i] == m[i] + if i == j then Whole(bits, Width(j)) else {}
  {
  }

  lemma AddrAt(m: Cells, j: nat, cm: Cells, i: nat)
    requires Sized(m) && j + 3 < CELLS && |cm| == CFR_CELLS && i < CELLS
    ensures MaskAddr(m, j, cm)[i] == m[i] + if j <= i < j + 4 then cm[F_NW_SRC + (i - j)] else {}
  {
    hide Width, Ones;
  }

  lemma L2Exactly(m: Cells, cm: Cells, i: nat)
    requires Sized(m) && |cm| == CFR_CELLS && i < CELLS
    ensures MaskL2(m, cm)[i] == m[i] + L2Gains(cm, i)
  {
    var a := MaskExact(m, C_IN_PORT, cm[F_IN_PORT]);
    var b := MaskBits(a, C_ETH_DST, cm[F_DL_DST]);
    var c := MaskBits(b, C_ETH_SRC, cm[F_DL_SRC]);
    var d := MaskExact(c, C_ETHERTYPE, cm[F_DL_TYPE]);
    assert Width(C_IN_PORT) == 32 && Width(C_ETHERTYPE) == 16;
    hide MaskExact, MaskBits, Width, Whole;
    BitsAt(m, C_IN_PORT, cm[F_IN_PORT], i);
    BitsAt(a, C_ETH_DST, cm[F_DL_DST], i);
    BitsAt(b, C_ETH_SRC, cm[F_DL_SRC], i);
    BitsAt(c, C_ETHERTYPE, cm[F_DL_TYPE], i);
    BitsAt(d, C_VLAN, cm[F_DL_VLAN], i);
  }

  lemma Ipv4Exactly(m: Cells, cm: Cells, i: nat)
    requires Sized(m) && |cm| == CFR_CELLS && i < CELLS
    ensures MaskL3(m, ETH_P_IP, cm)[i] == m[i] + Ipv4Gains(cm, i)
  {
    var a := MaskBits(m, C_IP4_TOS, cm[F_NW_TOS]);
    var b := MaskExact(a, C_IP4_PROTO, cm[F_NW_PROTO]);
    var c := MaskAddr(b, C_IP4_SRC, cm);
    assert Width(C_IP4_PROTO) == 8;
    hide MaskExact, MaskBits, MaskAddr, Width, Whole, ETH_P_IP;
    BitsAt(m, C_IP4_TOS, cm[F_NW_TOS], i);
    BitsAt(a, C_IP4_PROTO, cm[F_NW_PROTO], i);
    AddrAt(b, C_IP4_SRC, cm, i);
    BitsAt(c, C_IP4_DST, cm[F_NW_DST], i);
  }

  lemma Ipv6Exactly(m: Cells, cm: Cells, i: nat)
    requires Sized(m) && |cm| == CFR_CELLS && i < CELLS
    ensures MaskL3(m, ETH_P_IPV6, cm)[i] == m[i] + Ipv6Gains(cm, i)
  {
    TypesDiffer();
    var a := MaskBits(m, C_IP6_TCLASS, cm[F_NW_TOS]);
    var b := MaskExact(a, C_IP6_PROTO, cm[F_NW_PROTO]);
    var c := MaskBits(b, C_IP6_SRC, cm[F_IPV6_SRC]);
    assert Width(C_IP6_PROTO) == 8;
    hide MaskExact, MaskBits, Width, Whole, ETH_P_IP, ETH_P_IPV6;
    BitsAt(m, C_IP6_TCLASS, cm[F_NW_TOS], i);
    BitsAt(a, C_IP6_PROTO, cm[F_NW_PROTO], i);
    BitsAt(b, C_IP6_SRC, cm[F_IPV6_SRC], i);
    BitsAt(c, C_IP6_DST, cm[F_IPV6_DST], i);
  }

  lemma ArpExactly(m: Cells, cm: Cells, i: nat)
    requires Sized(m) && |cm| == CFR_CELLS && i < CELLS
    ensures MaskL3(m, ETH_P_ARP, cm)[i] == m[i] + ArpGains(cm, i)
  {
    TypesDiffer();
    var a := MaskExact(m, C_ARP_OP, cm[F_NW_PROTO]);
    var b := MaskAddr(a, C_T0, cm);
    assert Width(C_ARP_OP) == 16;
    hide MaskExact, MaskBits, MaskAddr, Width, Whole, ETH_P_IP, ETH_P_IPV6, ETH_P_ARP;
    BitsAt(m, C_ARP_OP, cm[F_NW_PROTO], i);
    AddrAt(a, C_T0, cm, i);
    BitsAt(b, C_ARP_TIP, cm[F_NW_DST], i);
  }

  lemma L3Exactly(k: Key, m: Cells, cm: Cells, i: nat)
    requires WellFormed(k) && Sized(m) && |cm| == CFR_CELLS && i < CELLS
    ensures MaskL3(m, DlType(k), cm)[i] == m[i] + L3Gains(k.populated, cm, i)
  {
    TypesDiffer();
    Ipv4Exactly(m, cm, i);
    Ipv6Exactly(m, cm, i);
    ArpExactly(m, cm, i);
    hide DlType, NwProto, ETH_P_IP, ETH_P_IPV6, ETH_P_ARP, InWidth, IsPorts, IsIcmp, Ipv4Gains, Ipv6Gains, ArpGains, MaskBits,
      MaskExact, MaskAddr;
  }

  lemma L4Exactly(proto: Bits, m: Cells, cm: Cells, i: nat)
    requires Sized(m) && |cm| == CFR_CELLS && i < CELLS
    ensures MaskL4(m, proto, cm)[i] == m[i] + L4Gains(proto, cm, i)
  {
    TypesDiffer();
    assert IsPorts(proto) <==> proto == {1, 2} || proto == {0, 4};
    assert IsIcmp(proto) <==> proto == {0} || proto == {1, 3, 4, 5};
    hide IsPorts, IsIcmp;
  }

  function Gains(k: Key, cm: Cells, i: nat): Bits
    requires Sized(k.cells) && |cm| == CFR_CELLS
  {
    L2Gains(cm, i) + L3Gains(k.populated, cm, i) + L4Gains(NwProto(k), cm, i)
  }

  /** Every cell of the translated mask, for fields of any packet rewritten by any actions. */
  lemma TranslatedExactly(k: Key, m: Cells, cfr: Cells, cm: Cells, i: nat)
    requires WellFormed(k) && Sized(k.cells) && Sized(m) && |cfr| == |cm| == CFR_CELLS && i < CELLS
    requires cfr[F_DL_TYPE] == DlType(k) && cfr[F_NW_PROTO] == NwProto(k)
    ensures TranslateMask(m, cfr, cm)[i] == m[i] + Gains(k, cm, i)
  {
    hide WellFormed, DlType, NwProto, MaskL2, MaskL3, MaskL4, L2Gains, L3Gains, L4Gains;
    var a := MaskL2(m, cm);
    var b := MaskL3(a, DlType(k), cm);
    L2Exactly(m, cm, i);
    L3Exactly(k, a, cm, i);
    L4Exactly(NwProto(k), b, cm, i);
  }

  // ---- needed ------------------------------------------------------------------

  /** The field that shows the cell bit by bit, in a packet that has the header. */
  function Place(k: Key, i: nat): Option<nat> {
    if i == C_ETH_SRC then Some(F_DL_SRC)
    else if i == C_ETH_DST then Some(F_DL_DST)
    else if i == C_VLAN && VLAN in k.populated then Some(F_DL_VLAN)
    else if IPV4 in k.populated && C_IP4_SRC <= i <= C_IP4_DST then Some(F_NW_SRC + (i - C_IP4_SRC))
    else if IPV4 in k.populated && i == C_IP4_TOS then Some(F_NW_TOS)
    else if IPV6 in k.populated && i == C_IP6_SRC then Some(F_IPV6_SRC)
    else if IPV6 in k.populated && i == C_IP6_DST then Some(F_IPV6_DST)
    else if IPV6 in k.populated && i == C_IP6_TCLASS then Some(F_NW_TOS)
    else if ARP in k.populated && i == C_ARP_TIP then Some(F_NW_DST)
    else if (TCP in k.populated || UDP in k.populated) && C_T0 <= i < C_T0 + 4 then Some(F_TP_SRC + (i - C_T0))
    else None
  }

  /** What the field holds; a tag is shown with bit 12 set. */
  lemma PlaceShows(k: Key, i: nat)
    requires Sized(k.cells) && i < CELLS && Place(k, i).Some?
    requires !(IPV4 in k.populated && IPV6 in k.populated)
    requires ARP in k.populated ==> IPV4 !in k.populated && IPV6 !in k.populated
    ensures Place(k, i).value < CFR_CELLS
    ensures KeyToCfr(k)[Place(k, i).value] == k.cells[i] + if i == C_VLAN then {12} else {}
  {
    hide IsLength, NOT_ETH_TYPE, PORT_LOCAL, LOW_BYTE, NwProto, DlType;
  }

  function Flip(k: Key, i: nat, b: nat): Key
    requires Sized(k.cells) && i < CELLS
  {
    var v := k.cells[i];
    k.(cells := k.cells[i := if b in v then v - {b} else v + {b}])
  }

  /** Which headers a well-formed key has together. */
  lemma OneHeader(k: Key)
    requires WellFormed(k)
    ensures !(IPV4 in k.populated && IPV6 in k.populated)
    ensures ARP in k.populated ==> IPV4 !in k.populated && IPV6 !in k.populated && TCP !in k.populated && UDP !in k.populated
    ensures TCP in k.populated || UDP in k.populated ==> NwProto(k) == {1, 2} || NwProto(k) == {0, 4}
  {
    TypesDiffer();
    assert IsPorts(NwProto(k)) ==> NwProto(k) == {1, 2} || NwProto(k) == {0, 4};
    hide DlType, NwProto, ETH_P_IP, ETH_P_IPV6, ETH_P_ARP, InWidth, IsPorts, IsIcmp;
  }

  lemma OneLayer(k: Key, cm: Cells, i: nat)
    requires Sized(k.cells) && |cm| == CFR_CELLS
    ensures i < C_T0 || i > C_T3 ==> L4Gains(NwProto(k), cm, i) == {}
    ensures i > C_ETHERTYPE ==> L2Gains(cm, i) == {}
    ensures i <= C_ETHERTYPE || (C_T0 <= i <= C_T3 && ARP !in k.populated) ==> L3Gains(k.populated, cm, i) == {}
  {
    hide NwProto, Whole;
  }

  lemma FrameLooked(k: Key, cm: Cells, i: nat)
    requires |cm| == CFR_CELLS && i <= C_ETHERTYPE && Place(k, i).Some?
    ensures Place(k, i).value < CFR_CELLS && L2Gains(cm, i) == cm[Place(k, i).value]
  {
    hide Whole;
  }

  lemma NetworkLooked(k: Key, cm: Cells, i: nat)
    requires |cm| == CFR_CELLS && C_ETHERTYPE < i < CELLS && (i < C_T0 || i > C_T3) && Place(k, i).Some?
    requires !(IPV4 in k.populated && IPV6 in k.populated)
    requires ARP in k.populated ==> IPV4 !in k.populated && IPV6 !in k.populated
    ensures Place(k, i).value < CFR_CELLS && L3Gains(k.populated, cm, i) == cm[Place(k, i).value]
  {
    hide Whole;
  }

  lemma PortLooked(k: Key, cm: Cells, i: nat)
    requires Sized(k.cells) && |cm| == CFR_CELLS && C_T0 <= i <= C_T3 && Place(k, i).Some?
    requires NwProto(k) == {1, 2} || NwProto(k) == {0, 4}
    ensures Place(k, i).value < CFR_CELLS && L4Gains(NwProto(k), cm, i) == cm[Place(k, i).value]
  {
    hide NwProto, Whole;
  }

  lemma GainIsLookedAt(k: Key, cm: Cells, i: nat)
    requires WellFormed(k) && Sized(k.cells) && |cm| == CFR_CELLS && i < CELLS && Place(k, i).Some?
    ensures Place(k, i).value < CFR_CELLS && Gains(k, cm, i) == cm[Place(k, i).value]
  {
    assert C_T0 <= i <= C_T3 ==> TCP in k.populated || UDP in k.populated;
    hide WellFormed, NwProto, L2Gains, L3Gains, L4Gains, Place;
    OneHeader(k);
    OneLayer(k, cm, i);
    if i <= C_ETHERTYPE {
      FrameLooked(k, cm, i);
    } else if i < C_T0 || i > C_T3 {
      NetworkLooked(k, cm, i);
    } else {
      PortLooked(k, cm, i);
    }
  }

  /**
   A bit added to a cell that the fields show is needed: with that bit changed, the tables
   would see other fields.
   */
  lemma AddedBitIsNeeded(k: Key, m: Cells, cfr: Cells, cm: Cells, i: nat, b: nat)
    requires WellFormed(k) && Sized(k.cells) && Sized(m) && |cfr| == |cm| == CFR_CELLS && i < CELLS
    requires cfr[F_DL_TYPE] == DlType(k) && cfr[F_NW_PROTO] == NwProto(k)
    requires Place(k, i).Some? && !(i == C_VLAN && b == 12)
    requires b in TranslateMask(m, cfr, cm)[i] && b !in m[i]
    ensures !Agree(KeyToCfr(k), KeyToCfr(Flip(k, i, b)), cm)
  {
    OneHeader(k);
    TranslatedExactly(k, m, cfr, cm, i);
    GainIsLookedAt(k, cm, i);
    var p, k' := Place(k, i).value, Flip(k, i, b);
    assert Place(k', i) == Place(k, i);
    hide WellFormed, DlType, NwProto, KeyToCfr, TranslateMask, Gains, Place;
    PlaceShows(k, i);
    PlaceShows(k', i);
    var x, y := KeyToCfr(k)[p], KeyToCfr(k')[p];
    assert b in x * cm[p] <==> b !in y * cm[p];
  }
}
