/**
 pipeline_standard_match_to_cfr: an OpenFlow match becomes a key and a mask over
 the canonical fields.  The ports of a match are read only under a protocol from
 version 1.2 on, which is what keeps megaflows right.
 */
module FlowMatch {
  import opened Cells
  import opened Actions
  import opened Cfr
  import opened MegaflowExactness

  /** The match fields the switch supports; addresses and ports by bytes, in network order. */
  datatype Fields = Fields(
    inPort: Bits, ethDst: Bits, ethSrc: Bits, ethType: Bits, vlanVid: Bits, vlanPcp: Bits,
    ipProto: Bits, ipDscp: Bits, ipEcn: Bits, ipv4Src: Quad, ipv4Dst: Bits, ipv6Src: Bits, ipv6Dst: Bits,
    tcp: Ports, udp: Ports, icmp4: Ports, icmp6: Ports, arpOp: Bits, arpSpa: Quad, arpTpa: Bits)

  datatype Quad = Quad(b0: Bits, b1: Bits, b2: Bits, b3: Bits)

  /** Source and destination port, or ICMP type and code. */
  datatype Ports = Ports(srcHi: Bits, srcLo: Bits, dstHi: Bits, dstLo: Bits)

  datatype Version = V10 | V11 | V12 | V13

  datatype Match = Match(version: Version, fields: Fields, masks: Fields)

  const NO_QUAD := Quad({}, {}, {}, {})
  const NO_PORTS := Ports({}, {}, {}, {})
  const NO_FIELDS :=
    Fields({}, {}, {}, {}, {}, {}, {}, {}, {}, NO_QUAD, {}, {}, {}, NO_PORTS, NO_PORTS, NO_PORTS, NO_PORTS, {}, NO_QUAD, {})

  /** vlan_vid of 0xffff: the match wants untagged packets. */
  const UNTAGGED: Bits := {0, 1, 2, 3, 4, 5, 6, 7, 8, 9, 10, 11, 12, 13, 14, 15}

  function Tci(vid: Bits, pcp: Bits): Bits {
    PcpBits(pcp) + vid * VID
  }

  /** dl_vlan of the key and of the mask. */
  function VlanPair(m: Match): (Bits, Bits) {
    match m.version
    case V10 =>
      if m.masks.vlanVid == {} then ({}, {})
      else if m.fields.vlanVid == UNTAGGED then ({}, UNTAGGED)
      else (CFI + Tci(m.fields.vlanVid, m.fields.vlanPcp), CFI + Tci(m.masks.vlanVid, m.masks.vlanPcp))
    case V11 => ({}, {})
    case _ =>
      (PcpBits(m.fields.vlanPcp) + m.fields.vlanVid * (VID + CFI), PcpBits(m.masks.vlanPcp) + m.masks.vlanVid * (VID + CFI))
  }

  predicate Early(v: Version) {
    v.V10? || v.V11?
  }

  predicate IsIp(m: Match) {
    m.fields.ethType == ETH_P_IP || m.fields.ethType == ETH_P_IPV6
  }

  /** nw_tos, nw_proto, nw_src, nw_dst of one side, by what the match says about the packet. */
  function NetworkOf(m: Match, f: Fields): (Bits, Bits, Quad, Bits) {
    if Early(m.version) then (f.ipDscp * DSCP, f.ipProto, f.ipv4Src, f.ipv4Dst)
    else if IsIp(m) then
      var tos := ShiftTos(f.ipDscp) + f.ipEcn * ECN;
      if m.fields.ethType == ETH_P_IP then (tos, f.ipProto, f.ipv4Src, f.ipv4Dst) else (tos, f.ipProto, NO_QUAD, {})
    else if m.fields.ethType == ETH_P_ARP then ({}, f.arpOp * LOW_BYTE, f.arpSpa, f.arpTpa)
    else ({}, {}, NO_QUAD, {})
  }

  /** (dscp & 0x3f) << 2 */
  function ShiftTos(d: Bits): Bits {
    (if 0 in d then {2} else {}) + (if 1 in d then {3} else {}) + (if 2 in d then {4} else {})
    + (if 3 in d then {5} else {}) + (if 4 in d then {6} else {}) + (if 5 in d then {7} else {})
  }

  function PortsOf(m: Match, f: Fields): Ports {
    if Early(m.version) then f.tcp
    else if !IsIp(m) then NO_PORTS
    else if m.fields.ipProto == IPPROTO_TCP then f.tcp
    else if m.fields.ipProto == IPPROTO_UDP then f.udp
    else if m.fields.ipProto == IPPROTO_ICMP then f.icmp4
    else if m.fields.ipProto == IPPROTO_ICMPV6 then f.icmp6
    else NO_PORTS
  }

  function SideOf(m: Match, f: Fields, vlan: Bits): (r: Cells)
    ensures |r| == CFR_CELLS
  {
    var (tos, proto, src, dst) := NetworkOf(m, f);
    var p := PortsOf(m, f);
    var v6 := !Early(m.version) && m.fields.ethType == ETH_P_IPV6;
    [f.inPort, f.ethDst, f.ethSrc, f.ethType, vlan, tos, proto, src.b0, src.b1, src.b2, src.b3, dst,
     p.srcHi, p.srcLo, p.dstHi, p.dstLo, if v6 then f.ipv6Src else {}, if v6 then f.ipv6Dst else {}]
  }

  /** The mask, and the key before it is normalised. */
  function MaskOf(m: Match): (r: Cells)
    ensures |r| == CFR_CELLS
  {
    SideOf(m, m.masks, VlanPair(m).1)
  }

  function KeyOf(m: Match): (r: Cells)
    ensures |r| == CFR_CELLS
  {
    SideOf(m, m.fields, VlanPair(m).0)
  }

  function Normal(key: Cells, mask: Cells): (r: Cells)
    requires |key| == |mask|
    ensures |r| == |key|
  {
    seq(|key|, i requires 0 <= i < |key| => key[i] * mask[i])
  }

  method MatchToCfr(m: Match) returns (key: Cells, mask: Cells)
    ensures mask == MaskOf(m) && key == Normal(KeyOf(m), mask)
  {
    hide SideOf, VlanPair;
    key, mask := KeyOf(m), MaskOf(m);
    for i := 0 to |key|
      invariant |key| == CFR_CELLS
      invariant forall j :: 0 <= j < i ==> key[j] == KeyOf(m)[j] * mask[j]
      invariant forall j :: i <= j < |key| ==> key[j] == KeyOf(m)[j]
    {
      key := key[i := key[i] * mask[i]];
    }
  }

  /** Normalising changes no match, and makes equal matches equal bytes. */
  lemma NormalKeepsMatches(x: Cells, key: Cells, mask: Cells)
    requires |x| == |key| == |mask|
    ensures Agree(x, Normal(key, mask), mask) <==> Agree(x, key, mask)
    ensures Agree(x, key, mask) <==> Normal(x, mask) == Normal(key, mask)
  {
    var n := Normal(key, mask);
    forall i | 0 <= i < |key| ensures CellAgree(x[i], n[i], mask[i]) <==> CellAgree(x[i], key[i], mask[i]) {
      assert n[i] * mask[i] == key[i] * mask[i];
    }
    if Agree(x, key, mask) {
      assert Normal(x, mask) == n;
    }
    if Normal(x, mask) == n {
      forall i | 0 <= i < |key| ensures CellAgree(x[i], key[i], mask[i]) {
        assert Normal(x, mask)[i] == n[i];
      }
    }
  }

  /** A match record holds no bits outside its mask. */
  predicate Consistent(m: Match) {
    m.fields.ipProto <= m.masks.ipProto
  }

  function MaskedPorts(m: Match): Bits {
    var p := PortsOf(m, m.masks);
    p.srcHi + p.srcLo + p.dstHi + p.dstLo
  }

  /** Up to version 1.1 a match is scoped exactly when it leaves the ports alone or names the protocol. */
  lemma EarlyScopedExactly(m: Match)
    requires Early(m.version)
    ensures Scoped(MaskOf(m)) <==> MaskedPorts(m) == {} || m.masks.ipProto != {}
  {
    hide VlanPair;
    assert PortBits(MaskOf(m)) == MaskedPorts(m);
  }

  /** From version 1.2 on every match is scoped. */
  lemma LateScoped(m: Match)
    requires !Early(m.version) && Consistent(m)
    ensures Scoped(MaskOf(m))
  {
    hide VlanPair, ShiftTos;
    var mask := MaskOf(m);
    assert PortBits(mask) == MaskedPorts(m);
    if MaskedPorts(m) != {} {
      assert m.fields.ipProto != {};
      var b :| b in m.fields.ipProto;
      assert b in m.masks.ipProto;
    }
  }
}
