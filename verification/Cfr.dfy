/**
 The canonical flow representation (struct pipeline_standard_cfr) that the flow
 tables match on: how it is read off a key, how set-field actions rewrite it
 between tables, and how its mask is carried back to a mask of the key.
 */
module Cfr {
  import opened Cells
  import opened Keys
  import opened Actions

  const CFR_CELLS: nat := 18

  const F_IN_PORT := 0
  const F_DL_DST := 1
  const F_DL_SRC := 2
  const F_DL_TYPE := 3
  const F_DL_VLAN := 4
  const F_NW_TOS := 5
  const F_NW_PROTO := 6
  const F_NW_SRC := 7      // four bytes in memory order
  const F_NW_DST := 11
  const F_TP_SRC := 12     // two bytes in memory order
  const F_TP_DST := 14
  const F_IPV6_SRC := 16
  const F_IPV6_DST := 17

  const ETH_P_IP: Bits := {11}                                 // 0x0800
  const ETH_P_IPV6: Bits := {0, 2, 3, 4, 6, 7, 9, 10, 15}      // 0x86dd
  const ETH_P_ARP: Bits := {1, 2, 11}                          // 0x0806
  const NOT_ETH_TYPE: Bits := {0, 1, 2, 3, 4, 5, 6, 7, 8, 10}  // 0x05ff
  const IPPROTO_ICMP: Bits := {0}
  const IPPROTO_TCP: Bits := {1, 2}
  const IPPROTO_UDP: Bits := {0, 4}
  const IPPROTO_ICMPV6: Bits := {1, 3, 4, 5}
  const LOW_BYTE: Bits := {0, 1, 2, 3, 4, 5, 6, 7}

  /** OF_PORT_DEST_LOCAL, 0xfffffffe. */
  const PORT_LOCAL: Bits := Ones(32) - {0}

  /** ntohs(type) <= 0x05ff: a length, not a type. */
  predicate IsLength(t: Bits) {
    t * {11, 12, 13, 14, 15} == {} && !(9 in t && 10 in t)
  }

  // ---- key to CFR ----------------------------------------------------------

  function DlType(k: Key): Bits
    requires Sized(k.cells)
  {
    if ETHERTYPE in k.populated && !IsLength(k.cells[C_ETHERTYPE]) then k.cells[C_ETHERTYPE] else NOT_ETH_TYPE
  }

  function NwProto(k: Key): Bits
    requires Sized(k.cells)
  {
    if IPV4 in k.populated then k.cells[C_IP4_PROTO]
    else if IPV6 in k.populated then k.cells[C_IP6_PROTO]
    else if ARP in k.populated then k.cells[C_ARP_OP] * LOW_BYTE
    else {}
  }

  /** in_port, dl_dst, dl_src, dl_type, dl_vlan */
  function L2Cells(k: Key): (r: Cells)
    requires Sized(k.cells)
    ensures |r| == 5
  {
    [if k.cells[C_IN_PORT] == OVSP_LOCAL then PORT_LOCAL else k.cells[C_IN_PORT],
     k.cells[C_ETH_DST],
     k.cells[C_ETH_SRC],
     DlType(k),
     if VLAN in k.populated then k.cells[C_VLAN] + CFI else {}]
  }

  /** nw_tos, nw_proto, nw_src, nw_dst */
  function L3Cells(k: Key): (r: Cells)
    requires Sized(k.cells)
    ensures |r| == 7
  {
    var c := k.cells;
    if IPV4 in k.populated then
      [c[C_IP4_TOS], NwProto(k), c[C_IP4_SRC], c[C_IP4_SRC + 1], c[C_IP4_SRC + 2], c[C_IP4_SRC + 3], c[C_IP4_DST]]
    else if IPV6 in k.populated then
      [c[C_IP6_TCLASS], NwProto(k), {}, {}, {}, {}, {}]
    else if ARP in k.populated then
      [{}, NwProto(k), c[C_T0], c[C_T1], c[C_T2], c[C_T3], c[C_ARP_TIP]]
    else
      [{}, NwProto(k), {}, {}, {}, {}, {}]
  }

  /** tp_src, tp_dst.  An ICMP type or code lands in the second byte. */
  function L4Cells(k: Key): (r: Cells)
    requires Sized(k.cells)
    ensures |r| == 4
  {
    var c := k.cells;
    if TCP in k.populated || UDP in k.populated then [c[C_T0], c[C_T1], c[C_T2], c[C_T3]]
    else if ICMP in k.populated || ICMPV6 in k.populated then [{}, c[C_T0], {}, c[C_T1]]
    else [{}, {}, {}, {}]
  }

  function Ipv6Cells(k: Key): (r: Cells)
    requires Sized(k.cells)
    ensures |r| == 2
  {
    if IPV4 !in k.populated && IPV6 in k.populated then [k.cells[C_IP6_SRC], k.cells[C_IP6_DST]] else [{}, {}]
  }

  /** pipeline_standard_key_to_cfr. */
  function KeyToCfr(k: Key): (r: Cells)
    requires Sized(k.cells)
    ensures |r| == CFR_CELLS
  {
    L2Cells(k) + L3Cells(k) + L4Cells(k) + Ipv6Cells(k)
  }

  // ---- rewriting between tables --------------------------------------------

  /** The four bytes of a 32-bit number in the other order. */
  function Swap32(v: Bits): Bits {
    set b | 0 <= b < 32 && SwapBit(b) in v
  }

  function SwapBit(b: nat): nat {
    if b < 32 then (3 - b / 8) * 8 + b % 8 else b
  }

  /** One action's effect; addresses and ports are stored without the byte swap the key gets. */
  function UpdateOne(c: Cells, a: Action): (r: Cells)
    requires |c| == CFR_CELLS
    ensures |r| == CFR_CELLS
  {
    if !a.Set? then c
    else
      match a.field
      case EthDst(mac) => c[F_DL_DST := mac]
      case EthSrc(mac) => c[F_DL_SRC := mac]
      case Ipv4Dst(v) => c[F_NW_DST := Swap32(v)]
      case Ipv4Src(b0, b1, b2, b3) => c[F_NW_SRC := b3][F_NW_SRC + 1 := b2][F_NW_SRC + 2 := b1][F_NW_SRC + 3 := b0]
      case IpDscp(v) => c[F_NW_TOS := (c[F_NW_TOS] - DSCP) + v]
      case IpEcn(v) => c[F_NW_TOS := (c[F_NW_TOS] - ECN) + v]
      case TcpDst(hi, lo) => c[F_TP_DST := lo][F_TP_DST + 1 := hi]
      case UdpDst(hi, lo) => c[F_TP_DST := lo][F_TP_DST + 1 := hi]
      case TpDst(hi, lo) => c[F_TP_DST := lo][F_TP_DST + 1 := hi]
      case TcpSrc(hi, lo) => c[F_TP_SRC := lo][F_TP_SRC + 1 := hi]
      case UdpSrc(hi, lo) => c[F_TP_SRC := lo][F_TP_SRC + 1 := hi]
      case TpSrc(hi, lo) => c[F_TP_SRC := lo][F_TP_SRC + 1 := hi]
      case VlanVid(v) => c[F_DL_VLAN := WithVid(c[F_DL_VLAN], v)]
      case VlanPcp(v) => c[F_DL_VLAN := WithPcp(c[F_DL_VLAN], v)]
      case Ipv6Dst(v) => c[F_IPV6_DST := v]
      case Ipv6Src(v) => c[F_IPV6_SRC := v]
      case _ => c
  }

  /** pipeline_standard_update_cfr. */
  function UpdateCfr(c: Cells, actions: seq<Action>): (r: Cells)
    requires |c| == CFR_CELLS
    ensures |r| == CFR_CELLS
    decreases actions
  {
    if actions == [] then c else UpdateCfr(UpdateOne(c, actions[0]), actions[1..])
  }

  // ---- CFR mask to key mask ------------------------------------------------

  function MaskBits(m: Cells, i: nat, bits: Bits): (r: Cells)
    requires Sized(m) && i < CELLS
    ensures Sized(r) && Below(m, r) && bits <= r[i]
  {
    m[i := m[i] + bits]
  }

  /** The kernel takes no partial mask for these fields. */
  function MaskExact(m: Cells, i: nat, bits: Bits): (r: Cells)
    requires Sized(m) && i < CELLS
    ensures Sized(r) && Below(m, r) && (bits != {} ==> Ones(Width(i)) <= r[i])
  {
    if bits != {} then m[i := m[i] + Ones(Width(i))] else m
  }

  function MaskL2(m: Cells, cm: Cells): (r: Cells)
    requires Sized(m) && |cm| == CFR_CELLS
    ensures Sized(r) && Below(m, r)
  {
    var a := MaskExact(m, C_IN_PORT, cm[F_IN_PORT]);
    var b := MaskBits(MaskBits(a, C_ETH_DST, cm[F_DL_DST]), C_ETH_SRC, cm[F_DL_SRC]);
    MaskBits(MaskExact(b, C_ETHERTYPE, cm[F_DL_TYPE]), C_VLAN, cm[F_DL_VLAN])
  }

  function MaskAddr(m: Cells, i: nat, cm: Cells): (r: Cells)
    requires Sized(m) && i + 3 < CELLS && |cm| == CFR_CELLS
    ensures Sized(r) && Below(m, r)
  {
    var a := MaskBits(MaskBits(m, i, cm[F_NW_SRC]), i + 1, cm[F_NW_SRC + 1]);
    MaskBits(MaskBits(a, i + 2, cm[F_NW_SRC + 2]), i + 3, cm[F_NW_SRC + 3])
  }

  function MaskL3(m: Cells, dlType: Bits, cm: Cells): (r: Cells)
    requires Sized(m) && |cm| == CFR_CELLS
    ensures Sized(r) && Below(m, r)
  {
    if dlType == ETH_P_IP then
      var a := MaskExact(MaskBits(m, C_IP4_TOS, cm[F_NW_TOS]), C_IP4_PROTO, cm[F_NW_PROTO]);
      MaskBits(MaskAddr(a, C_IP4_SRC, cm), C_IP4_DST, cm[F_NW_DST])
    else if dlType == ETH_P_IPV6 then
      var a := MaskExact(MaskBits(m, C_IP6_TCLASS, cm[F_NW_TOS]), C_IP6_PROTO, cm[F_NW_PROTO]);
      MaskBits(MaskBits(a, C_IP6_SRC, cm[F_IPV6_SRC]), C_IP6_DST, cm[F_IPV6_DST])
    else if dlType == ETH_P_ARP then
      var a := MaskExact(m, C_ARP_OP, cm[F_NW_PROTO]);
      MaskBits(MaskAddr(a, C_T0, cm), C_ARP_TIP, cm[F_NW_DST])
    else m
  }

  predicate IsPorts(proto: Bits) {
    proto == IPPROTO_TCP || proto == IPPROTO_UDP
  }

  predicate IsIcmp(proto: Bits) {
    proto == IPPROTO_ICMP || proto == IPPROTO_ICMPV6
  }

  function MaskL4(m: Cells, proto: Bits, cm: Cells): (r: Cells)
    requires Sized(m) && |cm| == CFR_CELLS
    ensures Sized(r) && Below(m, r)
  {
    if IsPorts(proto) then
      var a := MaskBits(MaskBits(m, C_T0, cm[F_TP_SRC]), C_T1, cm[F_TP_SRC + 1]);
      MaskBits(MaskBits(a, C_T2, cm[F_TP_DST]), C_T3, cm[F_TP_DST + 1])
    else if IsIcmp(proto) then
      var a := MaskExact(m, C_T0, cm[F_TP_SRC] + cm[F_TP_SRC + 1]);
      MaskExact(a, C_T1, cm[F_TP_DST] + cm[F_TP_DST + 1])
    else m
  }

  /** translate_cfr_mask. */
  function TranslateMask(m: Cells, cfr: Cells, cm: Cells): (r: Cells)
    requires Sized(m) && |cfr| == |cm| == CFR_CELLS
    ensures Sized(r) && Below(m, r)
  {
    MaskL4(MaskL3(MaskL2(m, cm), cfr[F_DL_TYPE], cm), cfr[F_NW_PROTO], cm)
  }
}
