/**
 What an OpenFlow match means for a packet, field by field: a field that is asked for
 must be in the packet and agree.  The entry made from the match accepts every packet
 the match describes, and the others it accepts are named.
 */
module MatchMeaning {
  import opened Cells
  import opened Keys
  import opened Actions
  import opened Cfr
  import opened CfrSoundness
  import opened FlowMatch

  // ---- the fields of a packet ------------------------------------------------

  /** The VLAN id and the bit that says there is a tag. */
  function VidOf(k: Key): Bits
    requires Sized(k.cells)
  {
    if VLAN in k.populated then k.cells[C_VLAN] * VID + CFI else {}
  }

  /** A shift to the right. */
  function Down(v: Bits, n: nat): Bits {
    set b | b in v && b >= n :: b - n
  }

  lemma DownBit(v: Bits, n: nat, b: nat)
    ensures b in Down(v, n) <==> b + n in v
  {
    if b + n in v {
      assert b == (b + n) - n;
    }
  }

  function PcpOf(k: Key): Bits
    requires Sized(k.cells)
  {
    Down(k.cells[C_VLAN], 13)
  }

  predicate HasIp(k: Key) {
    IPV4 in k.populated || IPV6 in k.populated
  }

  function TosOf(k: Key): Bits
    requires Sized(k.cells)
  {
    if IPV4 in k.populated then k.cells[C_IP4_TOS] else k.cells[C_IP6_TCLASS]
  }

  function DscpOf(k: Key): Bits
    requires Sized(k.cells)
  {
    Down(TosOf(k), 2)
  }

  function TransportOf(k: Key): Ports
    requires Sized(k.cells)
  {
    Ports(k.cells[C_T0], k.cells[C_T1], k.cells[C_T2], k.cells[C_T3])
  }

  function IcmpOf(k: Key): Ports
    requires Sized(k.cells)
  {
    Ports({}, k.cells[C_T0], {}, k.cells[C_T1])
  }

  // ---- what a match asks -----------------------------------------------------

  predicate Wants(there: bool, v: Bits, f: Bits, mask: Bits) {
    mask == {} || (there && CellAgree(v, f, mask))
  }

  predicate WantsQuad(there: bool, v: Quad, f: Quad, mask: Quad) {
    Wants(there, v.b0, f.b0, mask.b0) && Wants(there, v.b1, f.b1, mask.b1)
    && Wants(there, v.b2, f.b2, mask.b2) && Wants(there, v.b3, f.b3, mask.b3)
  }

  predicate WantsPorts(there: bool, v: Ports, f: Ports, mask: Ports) {
    Wants(there, v.srcHi, f.srcHi, mask.srcHi) && Wants(there, v.srcLo, f.srcLo, mask.srcLo)
    && Wants(there, v.dstHi, f.dstHi, mask.dstHi) && Wants(there, v.dstLo, f.dstLo, mask.dstLo)
  }

  predicate LinkPart(m: Match, k: Key)
    requires Sized(k.cells)
  {
    && CellAgree(if k.cells[C_IN_PORT] == OVSP_LOCAL then PORT_LOCAL else k.cells[C_IN_PORT], m.fields.inPort, m.masks.inPort)
    && CellAgree(k.cells[C_ETH_DST], m.fields.ethDst, m.masks.ethDst)
    && CellAgree(k.cells[C_ETH_SRC], m.fields.ethSrc, m.masks.ethSrc)
    && CellAgree(DlType(k), m.fields.ethType, m.masks.ethType)
  }

  predicate EthernetPart(m: Match, k: Key)
    requires Sized(k.cells)
  {
    && LinkPart(m, k)
    && CellAgree(VidOf(k), m.fields.vlanVid, m.masks.vlanVid)
    && Wants(VLAN in k.populated, PcpOf(k), m.fields.vlanPcp, m.masks.vlanPcp)
  }

  predicate IpPart(m: Match, k: Key)
    requires Sized(k.cells)
  {
    var c, f, w := k.cells, m.fields, m.masks;
    && Wants(HasIp(k), DscpOf(k), f.ipDscp, w.ipDscp)
    && Wants(HasIp(k), TosOf(k), f.ipEcn, w.ipEcn)
    && Wants(HasIp(k), NwProto(k), f.ipProto, w.ipProto)
    && WantsQuad(IPV4 in k.populated, Quad(c[C_IP4_SRC], c[C_IP4_SRC + 1], c[C_IP4_SRC + 2], c[C_IP4_SRC + 3]),
                 f.ipv4Src, w.ipv4Src)
    && Wants(IPV4 in k.populated, c[C_IP4_DST], f.ipv4Dst, w.ipv4Dst)
    && Wants(IPV6 in k.populated, c[C_IP6_SRC], f.ipv6Src, w.ipv6Src)
    && Wants(IPV6 in k.populated, c[C_IP6_DST], f.ipv6Dst, w.ipv6Dst)
  }

  /** The opcode up to its high byte. */
  predicate ArpPart(m: Match, k: Key)
    requires Sized(k.cells)
  {
    var c, f, w := k.cells, m.fields, m.masks;
    && Wants(ARP in k.populated, c[C_ARP_OP], f.arpOp, w.arpOp * LOW_BYTE)
    && WantsQuad(ARP in k.populated, Quad(c[C_T0], c[C_T1], c[C_T2], c[C_T3]), f.arpSpa, w.arpSpa)
    && Wants(ARP in k.populated, c[C_ARP_TIP], f.arpTpa, w.arpTpa)
  }

  predicate OpcodeHigh(m: Match, k: Key)
    requires Sized(k.cells)
  {
    Wants(ARP in k.populated, k.cells[C_ARP_OP], m.fields.arpOp, m.masks.arpOp - LOW_BYTE)
  }

  predicate TransportPart(m: Match, k: Key)
    requires Sized(k.cells)
  {
    && WantsPorts(TCP in k.populated, TransportOf(k), m.fields.tcp, m.masks.tcp)
    && WantsPorts(UDP in k.populated, TransportOf(k), m.fields.udp, m.masks.udp)
    && WantsPorts(ICMP in k.populated, IcmpOf(k), m.fields.icmp4, m.masks.icmp4)
    && WantsPorts(ICMPV6 in k.populated, IcmpOf(k), m.fields.icmp6, m.masks.icmp6)
  }

  predicate Describes(m: Match, k: Key)
    requires Sized(k.cells)
  {
    EthernetPart(m, k) && IpPart(m, k) && ArpPart(m, k) && OpcodeHigh(m, k) && TransportPart(m, k)
  }

  /** Ports asked for are zero, and the packet, a later fragment, has no ports: the code reads zeroes there. */
  predicate PortZero(m: Match, k: Key) {
    var f, w := PortsOf(m, m.fields), PortsOf(m, m.masks);
    && NoTransport(k) && MaskedPorts(m) != {}
    && f.srcHi * w.srcHi == {} && f.srcLo * w.srcLo == {} && f.dstHi * w.dstHi == {} && f.dstLo * w.dstLo == {}
  }

  predicate NoTransport(k: Key) {
    TCP !in k.populated && UDP !in k.populated && ICMP !in k.populated && ICMPV6 !in k.populated
  }

  // ---- what OpenFlow demands of a match, and the kernel of a key -------------------

  predicate TypeIs(m: Match, t: Bits) {
    m.fields.ethType == t && Ones(16) <= m.masks.ethType
  }

  predicate ProtoIs(m: Match, p: Bits) {
    (TypeIs(m, ETH_P_IP) || TypeIs(m, ETH_P_IPV6)) && m.fields.ipProto == p && Ones(8) <= m.masks.ipProto
  }

  /** The prerequisites of the OpenFlow 1.2 match fields. */
  predicate Prerequisites(m: Match) {
    var w := m.masks;
    && (w.vlanPcp != {} ==> 12 in m.fields.vlanVid && 12 in w.vlanVid)
    && (w.ipDscp != {} || w.ipEcn != {} || w.ipProto != {} ==> TypeIs(m, ETH_P_IP) || TypeIs(m, ETH_P_IPV6))
    && (w.ipv4Src != NO_QUAD || w.ipv4Dst != {} ==> TypeIs(m, ETH_P_IP))
    && (w.ipv6Src != {} || w.ipv6Dst != {} ==> TypeIs(m, ETH_P_IPV6))
    && (w.arpOp != {} || w.arpSpa != NO_QUAD || w.arpTpa != {} ==> TypeIs(m, ETH_P_ARP))
    && (w.tcp != NO_PORTS ==> ProtoIs(m, IPPROTO_TCP))
    && (w.udp != NO_PORTS ==> ProtoIs(m, IPPROTO_UDP))
    && (w.icmp4 != NO_PORTS ==> ProtoIs(m, IPPROTO_ICMP))
    && (w.icmp6 != NO_PORTS ==> ProtoIs(m, IPPROTO_ICMPV6))
  }

  /** And the widths of those that are not whole bytes. */
  predicate Widths(m: Match) {
    m.masks.vlanVid <= Ones(13) && m.masks.vlanPcp <= Ones(3) && m.masks.ipDscp <= Ones(6) && m.masks.ipEcn <= Ones(2)
  }

  /** The transport header is the one the protocol announces, if any. */
  predicate TransportFits(k: Key)
    requires Sized(k.cells)
  {
    && (TCP in k.populated ==> NwProto(k) == IPPROTO_TCP)
    && (UDP in k.populated ==> NwProto(k) == IPPROTO_UDP)
    && (ICMP in k.populated ==> NwProto(k) == IPPROTO_ICMP)
    && (ICMPV6 in k.populated ==> NwProto(k) == IPPROTO_ICMPV6)
  }

  // ---- the entry, part by part -------------------------------------------------

  predicate L2Agrees(m: Match, k: Key)
    requires Sized(k.cells)
  {
    var c, f, w := L2Cells(k), m.fields, m.masks;
    && CellAgree(c[0], f.inPort, w.inPort) && CellAgree(c[1], f.ethDst, w.ethDst) && CellAgree(c[2], f.ethSrc, w.ethSrc)
    && CellAgree(c[3], f.ethType, w.ethType) && CellAgree(c[4], VlanPair(m).0, VlanPair(m).1)
  }

  predicate L3Agrees(m: Match, k: Key)
    requires Sized(k.cells)
  {
    var c := L3Cells(k);
    var (tos, proto, src, dst) := NetworkOf(m, m.fields);
    var (tosMask, protoMask, srcMask, dstMask) := NetworkOf(m, m.masks);
    && CellAgree(c[0], tos, tosMask) && CellAgree(c[1], proto, protoMask)
    && CellAgree(c[2], src.b0, srcMask.b0) && CellAgree(c[3], src.b1, srcMask.b1)
    && CellAgree(c[4], src.b2, srcMask.b2) && CellAgree(c[5], src.b3, srcMask.b3) && CellAgree(c[6], dst, dstMask)
  }

  predicate V6Agrees(m: Match, k: Key)
    requires Sized(k.cells)
  {
    !Early(m.version) && m.fields.ethType == ETH_P_IPV6 ==>
      && CellAgree(Ipv6Cells(k)[0], m.fields.ipv6Src, m.masks.ipv6Src)
      && CellAgree(Ipv6Cells(k)[1], m.fields.ipv6Dst, m.masks.ipv6Dst)
  }

  predicate L4Agrees(m: Match, k: Key)
    requires Sized(k.cells)
  {
    var c, f, w := L4Cells(k), PortsOf(m, m.fields), PortsOf(m, m.masks);
    && CellAgree(c[0], f.srcHi, w.srcHi) && CellAgree(c[1], f.srcLo, w.srcLo)
    && CellAgree(c[2], f.dstHi, w.dstHi) && CellAgree(c[3], f.dstLo, w.dstLo)
  }

  /** The entry in the flow table matches the packet. */
  predicate Stored(m: Match, k: Key)
    requires Sized(k.cells)
  {
    Agree(KeyToCfr(k), Normal(KeyOf(m), MaskOf(m)), MaskOf(m))
  }

  lemma Agree18(x: Cells, y: Cells, m: Cells)
    requires |x| == |y| == |m| == 18
    ensures Agree(x, y, m) <==>
      && CellAgree(x[0], y[0], m[0]) && CellAgree(x[1], y[1], m[1]) && CellAgree(x[2], y[2], m[2])
      && CellAgree(x[3], y[3], m[3]) && CellAgree(x[4], y[4], m[4]) && CellAgree(x[5], y[5], m[5])
      && CellAgree(x[6], y[6], m[6]) && CellAgree(x[7], y[7], m[7]) && CellAgree(x[8], y[8], m[8])
      && CellAgree(x[9], y[9], m[9]) && CellAgree(x[10], y[10], m[10]) && CellAgree(x[11], y[11], m[11])
      && CellAgree(x[12], y[12], m[12]) && CellAgree(x[13], y[13], m[13]) && CellAgree(x[14], y[14], m[14])
      && CellAgree(x[15], y[15], m[15]) && CellAgree(x[16], y[16], m[16]) && CellAgree(x[17], y[17], m[17])
  {
    hide CellAgree;
  }

  lemma L2Part(m: Match, k: Key)
    requires Sized(k.cells)
    ensures var x, y, w := KeyToCfr(k), KeyOf(m), MaskOf(m);
      L2Agrees(m, k) <==>
        && CellAgree(x[0], y[0], w[0]) && CellAgree(x[1], y[1], w[1]) && CellAgree(x[2], y[2], w[2])
        && CellAgree(x[3], y[3], w[3]) && CellAgree(x[4], y[4], w[4])
  {
    hide CellAgree, VlanPair, NetworkOf, PortsOf, L2Cells, L3Cells, L4Cells, Ipv6Cells;
  }

  lemma L3Part(m: Match, k: Key)
    requires Sized(k.cells)
    ensures var x, y, w := KeyToCfr(k), KeyOf(m), MaskOf(m);
      L3Agrees(m, k) <==>
        && CellAgree(x[5], y[5], w[5]) && CellAgree(x[6], y[6], w[6]) && CellAgree(x[7], y[7], w[7])
        && CellAgree(x[8], y[8], w[8]) && CellAgree(x[9], y[9], w[9]) && CellAgree(x[10], y[10], w[10])
        && CellAgree(x[11], y[11], w[11])
  {
    hide CellAgree, VlanPair, NetworkOf, PortsOf, L2Cells, L3Cells, L4Cells, Ipv6Cells;
  }

  lemma L4Part(m: Match, k: Key)
    requires Sized(k.cells)
    ensures var x, y, w := KeyToCfr(k), KeyOf(m), MaskOf(m);
      L4Agrees(m, k) <==>
        && CellAgree(x[12], y[12], w[12]) && CellAgree(x[13], y[13], w[13])
        && CellAgree(x[14], y[14], w[14]) && CellAgree(x[15], y[15], w[15])
  {
    hide CellAgree, VlanPair, NetworkOf, PortsOf, L2Cells, L3Cells, L4Cells, Ipv6Cells;
  }

  lemma V6Part(m: Match, k: Key)
    requires Sized(k.cells)
    ensures var x, y, w := KeyToCfr(k), KeyOf(m), MaskOf(m);
      V6Agrees(m, k) <==> CellAgree(x[16], y[16], w[16]) && CellAgree(x[17], y[17], w[17])
  {
    hide CellAgree, VlanPair, NetworkOf, PortsOf, L2Cells, L3Cells, L4Cells, Ipv6Cells;
    NothingAsked();
  }

  lemma Parts(m: Match, k: Key)
    requires Sized(k.cells)
    ensures Stored(m, k) <==> L2Agrees(m, k) && L3Agrees(m, k) && L4Agrees(m, k) && V6Agrees(m, k)
  {
    hide KeyToCfr, KeyOf, MaskOf, Normal, CellAgree, Agree, L2Agrees, L3Agrees, L4Agrees, V6Agrees;
    var x, y, w := KeyToCfr(k), KeyOf(m), MaskOf(m);
    NormalKeepsMatches(x, y, w);
    Agree18(x, y, w);
    L2Part(m, k);
    L3Part(m, k);
    L4Part(m, k);
    V6Part(m, k);
  }

  /** One cell with two fields in it: 'low' up to bit 'n', and 'high' from there on. */
  ghost predicate Packs(x: Bits, low: Bits, high: Bits, n: nat) {
    forall b: nat :: (b in x <==> if b < n then b in low else b - n in high)
  }

  lemma TwoFields(v: Bits, lowF: Bits, lowW: Bits, highF: Bits, highW: Bits, f: Bits, w: Bits, n: nat)
    requires Packs(f, lowF, highF, n) && Packs(w, lowW, highW, n) && lowW <= Ones(n)
    ensures CellAgree(v, f, w) <==> CellAgree(v, lowF, lowW) && CellAgree(Down(v, n), highF, highW)
  {
    hide Ones, Down;
    if CellAgree(v, f, w) {
      forall b: nat | b in lowW ensures b in v <==> b in lowF {
        assert b in v * w <==> b in f * w;
      }
      forall b: nat | b in highW ensures b in Down(v, n) <==> b in highF {
        DownBit(v, n, b);
        assert (b + n) - n == b;
        assert b + n in v * w <==> b + n in f * w;
      }
    }
    if CellAgree(v, lowF, lowW) && CellAgree(Down(v, n), highF, highW) {
      forall b: nat | b in w ensures b in v <==> b in f {
        if b < n {
          assert b in v * lowW <==> b in lowF * lowW;
        } else {
          DownBit(v, n, b - n);
          assert b - n in Down(v, n) * highW <==> b - n in highF * highW;
        }
      }
    }
  }

  lemma ShiftBit(dscp: Bits, b: nat)
    ensures b in ShiftTos(dscp) <==> 2 <= b < 8 && b - 2 in dscp
  {
  }

  lemma PcpBit(pcp: Bits, b: nat)
    ensures b in PcpBits(pcp) <==> 13 <= b < 16 && b - 13 in pcp
  {
  }

  lemma TosPacks(dscp: Bits, ecn: Bits)
    ensures Packs(ShiftTos(dscp) + ecn * ECN, ecn, dscp * Ones(6), 2)
  {
    hide ShiftTos, Ones;
    forall b: nat ensures b in ShiftTos(dscp) + ecn * ECN <==> if b < 2 then b in ecn else b - 2 in dscp * Ones(6) {
      ShiftBit(dscp, b);
    }
  }

  lemma VlanPacks(pcp: Bits, vid: Bits)
    ensures Packs(PcpBits(pcp) + vid * (VID + CFI), vid, pcp * Ones(3), 13)
  {
    hide PcpBits, Ones;
    forall b: nat
      ensures b in PcpBits(pcp) + vid * (VID + CFI) <==> if b < 13 then b in vid else b - 13 in pcp * Ones(3)
    {
      PcpBit(pcp, b);
    }
  }

  lemma Narrow(v: Bits, f: Bits, w: Bits, n: nat)
    requires w <= Ones(n)
    ensures w * Ones(n) == w && (CellAgree(v, f * Ones(n), w) <==> CellAgree(v, f, w))
  {
    assert (f * Ones(n)) * w == f * w;
  }

  lemma TosMeaning(tos: Bits, f: Fields, w: Fields)
    requires w.ipDscp <= Ones(6) && w.ipEcn <= Ones(2)
    ensures CellAgree(tos, ShiftTos(f.ipDscp) + f.ipEcn * ECN, ShiftTos(w.ipDscp) + w.ipEcn * ECN)
      <==> CellAgree(Down(tos, 2), f.ipDscp, w.ipDscp) && CellAgree(tos, f.ipEcn, w.ipEcn)
  {
    hide Down, ShiftTos, ECN, CellAgree, Packs, Ones;
    TosPacks(f.ipDscp, f.ipEcn);
    TosPacks(w.ipDscp, w.ipEcn);
    Narrow(Down(tos, 2), f.ipDscp, w.ipDscp, 6);
    TwoFields(tos, f.ipEcn, w.ipEcn, f.ipDscp * Ones(6), w.ipDscp,
      ShiftTos(f.ipDscp) + f.ipEcn * ECN, ShiftTos(w.ipDscp) + w.ipEcn * ECN, 2);
  }

  lemma TciMeaning(t: Bits, f: Fields, w: Fields)
    requires w.vlanVid <= Ones(13) && w.vlanPcp <= Ones(3)
    ensures CellAgree(t, PcpBits(f.vlanPcp) + f.vlanVid * (VID + CFI), PcpBits(w.vlanPcp) + w.vlanVid * (VID + CFI))
      <==> CellAgree(t, f.vlanVid, w.vlanVid) && CellAgree(Down(t, 13), f.vlanPcp, w.vlanPcp)
  {
    hide Down, PcpBits, VID, CFI, CellAgree, Packs, Ones;
    VlanPacks(f.vlanPcp, f.vlanVid);
    VlanPacks(w.vlanPcp, w.vlanVid);
    Narrow(Down(t, 13), f.vlanPcp, w.vlanPcp, 3);
    TwoFields(t, f.vlanVid, w.vlanVid, f.vlanPcp * Ones(3), w.vlanPcp,
      PcpBits(f.vlanPcp) + f.vlanVid * (VID + CFI), PcpBits(w.vlanPcp) + w.vlanVid * (VID + CFI), 13);
  }

  lemma TagBits(cell: Bits, f: Bits, w: Bits)
    requires w <= Ones(13)
    ensures CellAgree(cell + CFI, f, w) <==> CellAgree(cell * VID + CFI, f, w)
    ensures Down(cell + CFI, 13) == Down(cell, 13)
  {
    assert Ones(13) == VID + CFI;
    assert (cell + CFI) * w == (cell * VID + CFI) * w;
    forall b: nat ensures b in Down(cell + CFI, 13) <==> b in Down(cell, 13) {
      DownBit(cell + CFI, 13, b);
      DownBit(cell, 13, b);
    }
  }

  /** The bit 12 that says there is a tag is part of the VLAN id's field. */
  lemma VlanMeaning(m: Match, k: Key)
    requires Sized(k.cells) && !Early(m.version) && Prerequisites(m) && Widths(m)
    ensures CellAgree(L2Cells(k)[4], VlanPair(m).0, VlanPair(m).1) <==>
      && CellAgree(VidOf(k), m.fields.vlanVid, m.masks.vlanVid)
      && Wants(VLAN in k.populated, PcpOf(k), m.fields.vlanPcp, m.masks.vlanPcp)
  {
    var t, f, w := L2Cells(k)[4], m.fields, m.masks;
    assert w.vlanPcp != {} ==> 12 in f.vlanVid && 12 in w.vlanVid;
    hide Prerequisites, Down, PcpBits;
    TciMeaning(t, f, w);
    TagBits(k.cells[C_VLAN], f.vlanVid, w.vlanVid);
    if VLAN !in k.populated && w.vlanPcp != {} {
      assert 12 in f.vlanVid * w.vlanVid;
    }
  }

  /** A full mask leaves no choice. */
  lemma FullMask(v: Bits, f: Bits, w: Bits, n: nat)
    requires CellAgree(v, f, w) && Ones(n) <= w && v <= Ones(n) && f <= Ones(n)
    ensures v == f
  {
    assert v == v * w && f == f * w;
  }

  lemma TypeKnown(m: Match, k: Key, t: Bits)
    requires InWidth(k.cells) && TypeIs(m, t) && t <= Ones(16)
    requires CellAgree(DlType(k), m.fields.ethType, m.masks.ethType)
    ensures DlType(k) == t
  {
    assert DlType(k) <= Ones(16);
    FullMask(DlType(k), t, m.masks.ethType, 16);
  }

  lemma KnownTypes()
    ensures ETH_P_IP <= Ones(16) && ETH_P_IPV6 <= Ones(16) && ETH_P_ARP <= Ones(16)
    ensures IPPROTO_TCP <= Ones(8) && IPPROTO_UDP <= Ones(8) && IPPROTO_ICMP <= Ones(8) && IPPROTO_ICMPV6 <= Ones(8)
  {
  }

  lemma NothingAsked()
    ensures forall v, f :: CellAgree(v, f, {})
  {
  }

  predicate NoIp(w: Fields) {
    w.ipDscp == w.ipEcn == w.ipProto == {}
  }

  predicate NoIpv4(w: Fields) {
    w.ipv4Src == NO_QUAD && w.ipv4Dst == {}
  }

  predicate NoIpv6(w: Fields) {
    w.ipv6Src == w.ipv6Dst == {}
  }

  predicate NoArp(w: Fields) {
    w.arpOp == {} && w.arpSpa == NO_QUAD && w.arpTpa == {}
  }

  /** The header a key has by its type, and what a match of that type leaves alone. */
  lemma OnlyItsHeader(m: Match, k: Key)
    requires WellFormed(k) && Prerequisites(m) && m.fields.ethType == DlType(k)
    ensures DlType(k) == ETH_P_IP ==>
      IPV4 in k.populated && IPV6 !in k.populated && ARP !in k.populated && NoIpv6(m.masks) && NoArp(m.masks)
    ensures DlType(k) == ETH_P_IPV6 ==>
      IPV6 in k.populated && IPV4 !in k.populated && ARP !in k.populated && NoIpv4(m.masks) && NoArp(m.masks)
    ensures DlType(k) == ETH_P_ARP ==>
      ARP in k.populated && IPV4 !in k.populated && IPV6 !in k.populated
      && NoIp(m.masks) && NoIpv4(m.masks) && NoIpv6(m.masks)
  {
    TypesDiffer();
    hide ETH_P_IP, ETH_P_IPV6, ETH_P_ARP, Ones, DlType, InWidth, NwProto, IsPorts, IsIcmp, ProtoIs;
  }

  lemma Ipv4Meaning(m: Match, k: Key)
    requires Sized(k.cells) && !Early(m.version) && Widths(m) && m.fields.ethType == ETH_P_IP
    requires IPV4 in k.populated && IPV6 !in k.populated && ARP !in k.populated && NoIpv6(m.masks) && NoArp(m.masks)
    ensures L3Agrees(m, k) && V6Agrees(m, k) <==> IpPart(m, k) && ArpPart(m, k)
  {
    hide ETH_P_IP, ETH_P_IPV6, ETH_P_ARP, ShiftTos, Down, Ones, DlType, ECN, LOW_BYTE, CellAgree, Ipv6Cells;
    TypesDiffer();
    NothingAsked();
    TosMeaning(TosOf(k), m.fields, m.masks);
    assert {} * LOW_BYTE == {};
  }

  lemma Ipv6Meaning(m: Match, k: Key)
    requires Sized(k.cells) && !Early(m.version) && Widths(m) && m.fields.ethType == ETH_P_IPV6
    requires IPV6 in k.populated && IPV4 !in k.populated && ARP !in k.populated && NoIpv4(m.masks) && NoArp(m.masks)
    ensures L3Agrees(m, k) && V6Agrees(m, k) <==> IpPart(m, k) && ArpPart(m, k)
  {
    hide ETH_P_IP, ETH_P_IPV6, ETH_P_ARP, ShiftTos, Down, Ones, DlType, ECN, LOW_BYTE, CellAgree;
    TypesDiffer();
    NothingAsked();
    TosMeaning(TosOf(k), m.fields, m.masks);
    assert {} * LOW_BYTE == {};
  }

  lemma LowByte(v: Bits, f: Bits, w: Bits)
    ensures CellAgree(v * LOW_BYTE, f * LOW_BYTE, w * LOW_BYTE) <==> CellAgree(v, f, w * LOW_BYTE)
  {
    hide LOW_BYTE;
    assert (v * LOW_BYTE) * (w * LOW_BYTE) == v * (w * LOW_BYTE);
    assert (f * LOW_BYTE) * (w * LOW_BYTE) == f * (w * LOW_BYTE);
  }

  lemma ArpMeaning(m: Match, k: Key)
    requires Sized(k.cells) && !Early(m.version) && m.fields.ethType == ETH_P_ARP
    requires ARP in k.populated && IPV4 !in k.populated && IPV6 !in k.populated
    requires NoIp(m.masks) && NoIpv4(m.masks) && NoIpv6(m.masks)
    ensures L3Agrees(m, k) && V6Agrees(m, k) <==> IpPart(m, k) && ArpPart(m, k)
  {
    hide ETH_P_IP, ETH_P_IPV6, ETH_P_ARP, ShiftTos, Down, Ones, DlType, ECN, LOW_BYTE, CellAgree, Ipv6Cells;
    TypesDiffer();
    NothingAsked();
    LowByte(k.cells[C_ARP_OP], m.fields.arpOp, m.masks.arpOp);
    if m.masks.arpOp * LOW_BYTE == {} {
      assert CellAgree(k.cells[C_ARP_OP] * LOW_BYTE, m.fields.arpOp * LOW_BYTE, {});
    }
  }

  /** Nothing asked about the network header. */
  lemma NoNetwork(m: Match, k: Key)
    requires Sized(k.cells) && !Early(m.version)
    requires NoIp(m.masks) && NoIpv4(m.masks) && NoIpv6(m.masks) && NoArp(m.masks)
    ensures L3Agrees(m, k) && V6Agrees(m, k) && IpPart(m, k) && ArpPart(m, k)
  {
    assert ShiftTos({}) + {} * ECN == {} && {} * LOW_BYTE == {};
    hide ETH_P_IP, ETH_P_IPV6, ETH_P_ARP, Down, Ones, DlType, ECN, LOW_BYTE, L3Cells, Ipv6Cells, CellAgree, ShiftTos;
    NothingAsked();
  }

  lemma NetworkMeaning(m: Match, k: Key)
    requires WellFormed(k) && !Early(m.version) && Prerequisites(m) && Widths(m)
    requires CellAgree(DlType(k), m.fields.ethType, m.masks.ethType)
    ensures L3Agrees(m, k) && V6Agrees(m, k) <==> IpPart(m, k) && ArpPart(m, k)
  {
    hide ETH_P_IP, ETH_P_IPV6, ETH_P_ARP, Ones, DlType, Widths, L3Agrees, V6Agrees, IpPart, ArpPart, ProtoIs;
    KnownTypes();
    if TypeIs(m, ETH_P_IP) {
      TypeKnown(m, k, ETH_P_IP);
      OnlyItsHeader(m, k);
      Ipv4Meaning(m, k);
    } else if TypeIs(m, ETH_P_IPV6) {
      TypeKnown(m, k, ETH_P_IPV6);
      OnlyItsHeader(m, k);
      Ipv6Meaning(m, k);
    } else if TypeIs(m, ETH_P_ARP) {
      TypeKnown(m, k, ETH_P_ARP);
      OnlyItsHeader(m, k);
      ArpMeaning(m, k);
    } else {
      NoNetwork(m, k);
    }
  }

  lemma ProtosDiffer()
    ensures IPPROTO_TCP != IPPROTO_UDP && IPPROTO_TCP != IPPROTO_ICMP && IPPROTO_TCP != IPPROTO_ICMPV6
    ensures IPPROTO_UDP != IPPROTO_ICMP && IPPROTO_UDP != IPPROTO_ICMPV6 && IPPROTO_ICMP != IPPROTO_ICMPV6
  {
    assert 2 in IPPROTO_TCP && 2 !in IPPROTO_UDP && 2 !in IPPROTO_ICMP && 2 !in IPPROTO_ICMPV6;
    assert 3 in IPPROTO_ICMPV6 && 3 !in IPPROTO_UDP && 3 !in IPPROTO_ICMP;
    assert 4 in IPPROTO_UDP && 4 !in IPPROTO_ICMP;
  }

  lemma ProtoWidth(k: Key)
    requires InWidth(k.cells) && HasIp(k)
    ensures NwProto(k) <= Ones(8)
  {
    hide Ones;
    assert Width(C_IP4_PROTO) == Width(C_IP6_PROTO) == 8;
  }

  lemma ProtoKnown(m: Match, k: Key, p: Bits)
    requires InWidth(k.cells) && ProtoIs(m, p) && p <= Ones(8) && IpPart(m, k)
    ensures NwProto(k) == p
  {
    assert 0 in m.masks.ipProto;
    hide Ones, DlType, Prerequisites, Down, WantsQuad, NwProto, InWidth, CellAgree, TypeIs;
    ProtoWidth(k);
    FullMask(NwProto(k), p, m.masks.ipProto, 8);
  }

  /** 'v' is what the packet carries if the asked header is there. */
  lemma HeaderMeaning(m: Match, k: Key, there: bool, v: Ports)
    requires Sized(k.cells) && PortsOf(m, m.masks) != NO_PORTS && (NoTransport(k) <==> !there)
    requires L4Cells(k) == if there then [v.srcHi, v.srcLo, v.dstHi, v.dstLo] else [{}, {}, {}, {}]
    ensures L4Agrees(m, k) <==> WantsPorts(there, v, PortsOf(m, m.fields), PortsOf(m, m.masks)) || PortZero(m, k)
  {
    var f, w := PortsOf(m, m.fields), PortsOf(m, m.masks);
    assert MaskedPorts(m) != {} by {
      assert w.srcHi != {} || w.srcLo != {} || w.dstHi != {} || w.dstLo != {};
    }
    NothingAsked();
    NothingThere(f.srcHi, w.srcHi);
    NothingThere(f.srcLo, w.srcLo);
    NothingThere(f.dstHi, w.dstHi);
    NothingThere(f.dstLo, w.dstLo);
    hide CellAgree, PortsOf, L4Cells, NoTransport, MaskedPorts;
  }

  lemma NothingThere(f: Bits, w: Bits)
    ensures CellAgree({}, f, w) <==> f * w == {}
  {
  }

  /** The ports of one side, by kind. */
  function Asked(f: Fields, p: Bits): Ports {
    if p == IPPROTO_TCP then f.tcp else if p == IPPROTO_UDP then f.udp else if p == IPPROTO_ICMP then f.icmp4 else f.icmp6
  }

  function Carried(k: Key, p: Bits): Ports
    requires Sized(k.cells)
  {
    if IsPorts(p) then TransportOf(k) else IcmpOf(k)
  }

  predicate Carries(k: Key, p: Bits) {
    if p == IPPROTO_TCP then TCP in k.populated
    else if p == IPPROTO_UDP then UDP in k.populated
    else if p == IPPROTO_ICMP then ICMP in k.populated
    else ICMPV6 in k.populated
  }

  predicate Known(p: Bits) {
    p == IPPROTO_TCP || p == IPPROTO_UDP || p == IPPROTO_ICMP || p == IPPROTO_ICMPV6
  }

  /** A match asks about one kind of transport header at most. */
  lemma OneKind(m: Match, p: Bits)
    requires !Early(m.version) && Prerequisites(m) && Known(p) && Asked(m.masks, p) != NO_PORTS
    ensures ProtoIs(m, p) && PortsOf(m, m.fields) == Asked(m.fields, p) && PortsOf(m, m.masks) == Asked(m.masks, p)
    ensures forall q :: Known(q) && q != p ==> Asked(m.masks, q) == NO_PORTS
  {
    ProtosDiffer();
    hide ETH_P_IP, ETH_P_IPV6, ETH_P_ARP, IPPROTO_TCP, IPPROTO_UDP, IPPROTO_ICMP, IPPROTO_ICMPV6, Ones, NO_QUAD, NO_PORTS;
  }

  /** A packet has the transport header of its protocol or none. */
  lemma OneHeader(k: Key, p: Bits)
    requires Sized(k.cells) && TransportFits(k) && Known(p) && NwProto(k) == p
    ensures NoTransport(k) <==> !Carries(k, p)
    ensures var v := Carried(k, p); L4Cells(k) == if Carries(k, p) then [v.srcHi, v.srcLo, v.dstHi, v.dstLo] else [{}, {}, {}, {}]
  {
    ProtosDiffer();
    hide IPPROTO_TCP, IPPROTO_UDP, IPPROTO_ICMP, IPPROTO_ICMPV6, NwProto;
  }

  lemma AskedPart(m: Match, k: Key, p: Bits)
    requires Sized(k.cells) && Known(p) && forall q :: Known(q) && q != p ==> Asked(m.masks, q) == NO_PORTS
    ensures TransportPart(m, k) <==> WantsPorts(Carries(k, p), Carried(k, p), Asked(m.fields, p), Asked(m.masks, p))
  {
    ProtosDiffer();
    assert Asked(m.masks, IPPROTO_TCP) == m.masks.tcp && Asked(m.masks, IPPROTO_UDP) == m.masks.udp;
    assert Asked(m.masks, IPPROTO_ICMP) == m.masks.icmp4 && Asked(m.masks, IPPROTO_ICMPV6) == m.masks.icmp6;
    hide IPPROTO_TCP, IPPROTO_UDP, IPPROTO_ICMP, IPPROTO_ICMPV6, CellAgree;
  }

  lemma KindMeaning(m: Match, k: Key, p: Bits)
    requires InWidth(k.cells) && TransportFits(k) && !Early(m.version) && Prerequisites(m) && IpPart(m, k)
    requires Known(p) && p <= Ones(8) && Asked(m.masks, p) != NO_PORTS
    ensures L4Agrees(m, k) <==> TransportPart(m, k) || PortZero(m, k)
  {
    assert Sized(k.cells);
    hide Asked, Carried, Carries, Known, IpPart, InWidth, Ones, PortsOf, L4Cells, L4Agrees, TransportPart, PortZero;
    hide ProtoIs, Prerequisites, TransportFits, NoTransport, WantsPorts, NwProto;
    OneKind(m, p);
    ProtoKnown(m, k, p);
    OneHeader(k, p);
    HeaderMeaning(m, k, Carries(k, p), Carried(k, p));
    AskedPart(m, k, p);
  }

  lemma TransportMeaning(m: Match, k: Key)
    requires Sized(k.cells) && InWidth(k.cells)
    requires TransportFits(k) && !Early(m.version) && Prerequisites(m) && IpPart(m, k)
    ensures L4Agrees(m, k) <==> TransportPart(m, k) || PortZero(m, k)
  {
    hide ETH_P_IP, ETH_P_IPV6, ETH_P_ARP, IPPROTO_TCP, IPPROTO_UDP, IPPROTO_ICMP, IPPROTO_ICMPV6;
    KnownTypes();
    ProtosDiffer();
    hide IpPart, InWidth, Ones, L4Agrees, TransportPart, PortZero, Prerequisites, TransportFits;
    if m.masks.tcp != NO_PORTS {
      KindMeaning(m, k, IPPROTO_TCP);
    } else if m.masks.udp != NO_PORTS {
      KindMeaning(m, k, IPPROTO_UDP);
    } else if m.masks.icmp4 != NO_PORTS {
      KindMeaning(m, k, IPPROTO_ICMP);
    } else if m.masks.icmp6 != NO_PORTS {
      KindMeaning(m, k, IPPROTO_ICMPV6);
    } else {
      NoPorts(m, k);
    }
  }

  lemma NoPorts(m: Match, k: Key)
    requires Sized(k.cells) && !Early(m.version)
    requires m.masks.tcp == m.masks.udp == m.masks.icmp4 == m.masks.icmp6 == NO_PORTS
    ensures L4Agrees(m, k) && TransportPart(m, k)
  {
    hide CellAgree, L4Cells;
    NothingAsked();
  }

  lemma PortsOrNone(m: Match, k: Key)
    requires Sized(k.cells) && !Early(m.version) && PortZero(m, k)
    ensures !TransportPart(m, k)
  {
    hide CellAgree, ETH_P_IP, ETH_P_IPV6, IPPROTO_TCP, IPPROTO_UDP, IPPROTO_ICMP, IPPROTO_ICMPV6;
    var w := PortsOf(m, m.masks);
    assert w.srcHi != {} || w.srcLo != {} || w.dstHi != {} || w.dstLo != {};
  }

  // ---- the meaning of an entry ---------------------------------------------------

  /** Everything but the two places where the code looks less closely. */
  predicate DescribesRoughly(m: Match, k: Key)
    requires Sized(k.cells)
  {
    EthernetPart(m, k) && IpPart(m, k) && ArpPart(m, k)
  }

  /**
   The entry made from a match of version 1.2 or later matches every packet the match
   describes; the others it matches are the ARP packets whose opcode differs in the
   high byte and the fragments without the ports that are asked to be zero.
   */
  lemma EntryMeaning(m: Match, k: Key)
    requires WellFormed(k) && TransportFits(k) && !Early(m.version) && Prerequisites(m) && Widths(m)
    ensures Describes(m, k) ==> Stored(m, k)
    ensures Stored(m, k) && !Describes(m, k) <==>
      DescribesRoughly(m, k) && (PortZero(m, k) || (TransportPart(m, k) && !OpcodeHigh(m, k)))
  {
    assert Sized(k.cells);
    Parts(m, k);
    VlanMeaning(m, k);
    hide Widths, Prerequisites, WellFormed, TransportFits, VlanPair, L3Agrees, V6Agrees, L4Agrees, CellAgree;
    hide IpPart, ArpPart, TransportPart, PortZero, OpcodeHigh, Wants, VidOf, PcpOf, DlType, Stored;
    if CellAgree(DlType(k), m.fields.ethType, m.masks.ethType) {
      NetworkMeaning(m, k);
      if IpPart(m, k) {
        TransportMeaning(m, k);
        if PortZero(m, k) {
          PortsOrNone(m, k);
        }
      }
    }
  }

  // ---- OpenFlow 1.0 ----------------------------------------------------------------

  /** A wildcard, the value for untagged packets, or a tag. */
  predicate VlanPart10(m: Match, k: Key)
    requires Sized(k.cells)
  {
    var f, w := m.fields, m.masks;
    if w.vlanVid == {} then true
    else if f.vlanVid == UNTAGGED then VLAN !in k.populated
    else VLAN in k.populated && CellAgree(k.cells[C_VLAN], f.vlanVid, w.vlanVid * VID) && CellAgree(PcpOf(k), f.vlanPcp, w.vlanPcp)
  }

  predicate EthernetPart10(m: Match, k: Key)
    requires Sized(k.cells)
  {
    LinkPart(m, k) && VlanPart10(m, k)
  }

  /** nw_src: of IPv4, or the sender's in ARP. */
  function SourceOf(k: Key): Quad
    requires Sized(k.cells)
  {
    var i := if IPV4 in k.populated then C_IP4_SRC else C_T0;
    Quad(k.cells[i], k.cells[i + 1], k.cells[i + 2], k.cells[i + 3])
  }

  function DestinationOf(k: Key): Bits
    requires Sized(k.cells)
  {
    if IPV4 in k.populated then k.cells[C_IP4_DST] else k.cells[C_ARP_TIP]
  }

  /** The type of service without its last two bits; nw_proto is the low byte of the opcode in ARP. */
  predicate NetworkPart10(m: Match, k: Key)
    requires Sized(k.cells)
  {
    var f, w, has := m.fields, m.masks, IPV4 in k.populated || ARP in k.populated;
    && Wants(IPV4 in k.populated, TosOf(k), f.ipDscp, w.ipDscp * DSCP)
    && Wants(has, NwProto(k), f.ipProto, w.ipProto)
    && WantsQuad(has, SourceOf(k), f.ipv4Src, w.ipv4Src)
    && Wants(has, DestinationOf(k), f.ipv4Dst, w.ipv4Dst)
  }

  /** Ports, or ICMP type and code. */
  predicate TransportPart10(m: Match, k: Key)
    requires Sized(k.cells)
  {
    var v := if TCP in k.populated || UDP in k.populated then TransportOf(k) else IcmpOf(k);
    WantsPorts(!NoTransport(k), v, m.fields.tcp, m.masks.tcp)
  }

  predicate Prerequisites10(m: Match) {
    var w := m.masks;
    && (w.ipDscp * DSCP != {} ==> TypeIs(m, ETH_P_IP))
    && (w.ipProto != {} || w.ipv4Src != NO_QUAD || w.ipv4Dst != {} ==> TypeIs(m, ETH_P_IP) || TypeIs(m, ETH_P_ARP))
    && w.vlanPcp <= Ones(3)
  }

  lemma TagMeaning10(cell: Bits, f: Bits, w: Bits)
    ensures CellAgree(cell + CFI, f * VID + CFI, w * VID + CFI) <==> CellAgree(cell, f, w * VID)
    ensures !CellAgree({}, f * VID + CFI, w * VID + CFI)
    ensures w * VID + CFI <= Ones(13)
  {
    assert 12 !in VID && 12 in (f * VID + CFI) * (w * VID + CFI);
    assert (cell + CFI) * (w * VID + CFI) == cell * (w * VID) + CFI;
    assert (f * VID + CFI) * (w * VID + CFI) == f * (w * VID) + CFI;
    assert 12 !in cell * (w * VID) && 12 !in f * (w * VID);
  }

  lemma TaggedMeaning10(m: Match, t: Bits)
    requires m.version.V10? && m.masks.vlanVid != {} && m.fields.vlanVid != UNTAGGED && m.masks.vlanPcp <= Ones(3)
    ensures CellAgree(t, VlanPair(m).0, VlanPair(m).1) <==>
      && CellAgree(t, m.fields.vlanVid * VID + CFI, m.masks.vlanVid * VID + CFI)
      && CellAgree(Down(t, 13), m.fields.vlanPcp, m.masks.vlanPcp)
  {
    var f, w := m.fields.(vlanVid := m.fields.vlanVid * VID + CFI), m.masks.(vlanVid := m.masks.vlanVid * VID + CFI);
    TagMeaning10({}, m.fields.vlanVid, m.masks.vlanVid);
    hide VID, CFI, PcpBits, Down, Ones, CellAgree, UNTAGGED;
    TciMeaning(t, f, w);
    assert PcpBits(f.vlanPcp) + f.vlanVid * (VID + CFI) == VlanPair(m).0;
    assert PcpBits(w.vlanPcp) + w.vlanVid * (VID + CFI) == VlanPair(m).1;
  }

  lemma VlanMeaning10(m: Match, k: Key)
    requires Sized(k.cells) && m.version.V10? && m.masks.vlanPcp <= Ones(3)
    ensures CellAgree(L2Cells(k)[4], VlanPair(m).0, VlanPair(m).1) <==> VlanPart10(m, k)
  {
    var t, cell, f, w := L2Cells(k)[4], k.cells[C_VLAN], m.fields.vlanVid, m.masks.vlanVid;
    if w == {} {
      NothingAsked();
    } else if f == UNTAGGED {
      assert 12 in UNTAGGED;
      assert VLAN in k.populated ==> 12 in t * UNTAGGED;
    } else {
      TaggedMeaning10(m, t);
      TagMeaning10(cell, f, w);
      TagBits(cell, {}, {});
      hide VlanPair, CellAgree, Down, VID, CFI, UNTAGGED;
    }
  }

  lemma Dscp10(v: Bits, f: Bits, w: Bits)
    ensures CellAgree(v, f * DSCP, w * DSCP) <==> CellAgree(v, f, w * DSCP)
  {
    assert (f * DSCP) * (w * DSCP) == f * (w * DSCP);
  }

  lemma NetworkCells10(m: Match, k: Key)
    requires Sized(k.cells) && m.version.V10?
    requires IPV4 in k.populated || (ARP in k.populated && IPV6 !in k.populated && m.masks.ipDscp * DSCP == {})
    ensures L3Agrees(m, k) <==> NetworkPart10(m, k)
  {
    hide CellAgree, DSCP, NwProto;
    NothingAsked();
    Dscp10(L3Cells(k)[0], m.fields.ipDscp, m.masks.ipDscp);
  }

  lemma NoNetwork10(m: Match, k: Key)
    requires Sized(k.cells) && m.version.V10?
    requires m.masks.ipDscp * DSCP == m.masks.ipProto == m.masks.ipv4Dst == {} && m.masks.ipv4Src == NO_QUAD
    ensures L3Agrees(m, k) && NetworkPart10(m, k)
  {
    hide CellAgree, DSCP, L3Cells, NwProto;
    NothingAsked();
  }

  lemma NetworkMeaning10(m: Match, k: Key)
    requires WellFormed(k) && m.version.V10? && Prerequisites10(m)
    requires CellAgree(DlType(k), m.fields.ethType, m.masks.ethType)
    ensures L3Agrees(m, k) <==> NetworkPart10(m, k)
  {
    hide ETH_P_IP, ETH_P_IPV6, ETH_P_ARP, Ones, DlType, DSCP, L3Agrees, NetworkPart10;
    KnownTypes();
    TypesDiffer();
    if TypeIs(m, ETH_P_IP) {
      TypeKnown(m, k, ETH_P_IP);
      NetworkCells10(m, k);
    } else if TypeIs(m, ETH_P_ARP) {
      TypeKnown(m, k, ETH_P_ARP);
      NetworkCells10(m, k);
    } else {
      NoNetwork10(m, k);
    }
  }

  lemma TransportMeaning10(m: Match, k: Key)
    requires Sized(k.cells) && m.version.V10?
    ensures L4Agrees(m, k) <==> TransportPart10(m, k) || PortZero(m, k)
    ensures PortZero(m, k) ==> !TransportPart10(m, k)
  {
    hide CellAgree;
    NothingAsked();
    if m.masks.tcp == NO_PORTS {
      assert MaskedPorts(m) == {};
    } else {
      HeaderMeaning(m, k, !NoTransport(k), if TCP in k.populated || UDP in k.populated then TransportOf(k) else IcmpOf(k));
    }
    if PortZero(m, k) {
      var w := m.masks.tcp;
      assert w.srcHi != {} || w.srcLo != {} || w.dstHi != {} || w.dstLo != {};
    }
  }

  predicate Describes10(m: Match, k: Key)
    requires Sized(k.cells)
  {
    EthernetPart10(m, k) && NetworkPart10(m, k) && TransportPart10(m, k)
  }

  /** In version 1.0 the fragments are the only packets matched and not described. */
  lemma EntryMeaning10(m: Match, k: Key)
    requires WellFormed(k) && m.version.V10? && Prerequisites10(m)
    ensures Describes10(m, k) ==> Stored(m, k)
    ensures Stored(m, k) && !Describes10(m, k) <==> EthernetPart10(m, k) && NetworkPart10(m, k) && PortZero(m, k)
  {
    assert Sized(k.cells);
    Parts(m, k);
    VlanMeaning10(m, k);
    TransportMeaning10(m, k);
    hide Prerequisites10, WellFormed, VlanPair, VlanPart10, L3Agrees, L4Agrees, CellAgree;
    hide NetworkPart10, TransportPart10, PortZero, DlType, Stored;
    if CellAgree(DlType(k), m.fields.ethType, m.masks.ethType) {
      NetworkMeaning10(m, k);
    }
  }

  // ---- the packets that are matched and not described ----------------------------

  /** The packet's type, ip_proto=6, tcp_src=0 */
  function AskPortZero(k: Key): Match
    requires Sized(k.cells)
  {
    Match(V13, NO_FIELDS.(ethType := DlType(k), ipProto := IPPROTO_TCP),
      NO_FIELDS.(ethType := Ones(16), ipProto := Ones(8), tcp := Ports(Ones(8), Ones(8), {}, {})))
  }

  lemma AskPortZeroOk(k: Key)
    requires Sized(k.cells) && (DlType(k) == ETH_P_IP || DlType(k) == ETH_P_IPV6)
    ensures Prerequisites(AskPortZero(k)) && Widths(AskPortZero(k))
  {
    hide DlType, ETH_P_IP, ETH_P_IPV6, ETH_P_ARP, IPPROTO_TCP, IPPROTO_UDP, IPPROTO_ICMP, IPPROTO_ICMPV6, Ones;
  }

  lemma AskPortZeroRoughly(k: Key)
    requires Sized(k.cells) && HasIp(k) && NwProto(k) == IPPROTO_TCP
    ensures DescribesRoughly(AskPortZero(k), k)
  {
    hide DlType, NwProto, IPPROTO_TCP, Ones, Down, CellAgree, LOW_BYTE;
    NothingAsked();
    assert {} * LOW_BYTE == {};
    Itself(DlType(k), Ones(16));
    Itself(NwProto(k), Ones(8));
  }

  lemma Itself(v: Bits, w: Bits)
    ensures CellAgree(v, v, w)
  {
  }

  lemma AskPortZeroMissed(k: Key)
    requires Sized(k.cells) && NoTransport(k) && (DlType(k) == ETH_P_IP || DlType(k) == ETH_P_IPV6)
    ensures PortZero(AskPortZero(k), k)
  {
    hide DlType, ETH_P_IP, ETH_P_IPV6, ETH_P_ARP, IPPROTO_TCP, IPPROTO_UDP, IPPROTO_ICMP, IPPROTO_ICMPV6;
    assert 0 in MaskedPorts(AskPortZero(k));
  }

  /** Every fragment of a TCP segment after the first is matched as one from port zero. */
  lemma FragmentLooksLikePortZero(k: Key)
    requires WellFormed(k) && HasIp(k) && NwProto(k) == IPPROTO_TCP && NoTransport(k)
    ensures var m := AskPortZero(k); Prerequisites(m) && Widths(m) && Stored(m, k) && !Describes(m, k)
  {
    assert Sized(k.cells) && TransportFits(k) && !Early(AskPortZero(k).version);
    assert DlType(k) == ETH_P_IP || DlType(k) == ETH_P_IPV6;
    hide AskPortZero, WellFormed, TransportFits, Prerequisites, Widths, Stored, Describes, DescribesRoughly, PortZero;
    hide DlType, NwProto, ETH_P_IP, ETH_P_IPV6, IPPROTO_TCP, NoTransport;
    AskPortZeroOk(k);
    AskPortZeroRoughly(k);
    AskPortZeroMissed(k);
    EntryMeaning(AskPortZero(k), k);
  }

  /** arp_op= the low byte of the packet's opcode */
  function AskOpcode(k: Key): Match
    requires Sized(k.cells)
  {
    Match(V13, NO_FIELDS.(ethType := ETH_P_ARP, arpOp := k.cells[C_ARP_OP] * LOW_BYTE),
      NO_FIELDS.(ethType := Ones(16), arpOp := Ones(16)))
  }

  lemma AskOpcodeParts(k: Key)
    requires Sized(k.cells) && ARP in k.populated && DlType(k) == ETH_P_ARP
    ensures DescribesRoughly(AskOpcode(k), k) && TransportPart(AskOpcode(k), k)
  {
    hide DlType, NwProto, ETH_P_ARP, Ones, Down, CellAgree, LOW_BYTE;
    NothingAsked();
    Itself(DlType(k), Ones(16));
    Itself(k.cells[C_ARP_OP] * LOW_BYTE, Ones(16) * LOW_BYTE);
    LowByte(k.cells[C_ARP_OP], k.cells[C_ARP_OP] * LOW_BYTE, Ones(16));
    assert k.cells[C_ARP_OP] * LOW_BYTE * LOW_BYTE == k.cells[C_ARP_OP] * LOW_BYTE;
  }

  lemma OpcodeDiffers(k: Key)
    requires InWidth(k.cells) && !(k.cells[C_ARP_OP] <= LOW_BYTE)
    ensures !OpcodeHigh(AskOpcode(k), k)
  {
    assert Width(C_ARP_OP) == 16 && k.cells[C_ARP_OP] <= Ones(Width(C_ARP_OP));
    hide Ones, Width, LOW_BYTE;
    var b :| b in k.cells[C_ARP_OP] && b !in LOW_BYTE;
    assert b in k.cells[C_ARP_OP] * (Ones(16) - LOW_BYTE);
  }

  /** Every ARP packet with a large opcode is matched as one with the small opcode of the same low byte. */
  lemma OpcodeIsCut(k: Key)
    requires WellFormed(k) && ARP in k.populated && !(k.cells[C_ARP_OP] <= LOW_BYTE)
    ensures var m := AskOpcode(k); Prerequisites(m) && Widths(m) && Stored(m, k) && !Describes(m, k)
  {
    assert Sized(k.cells) && InWidth(k.cells) && DlType(k) == ETH_P_ARP && TransportFits(k) && !Early(AskOpcode(k).version);
    assert Prerequisites(AskOpcode(k)) && Widths(AskOpcode(k)) by {
      hide DlType, ETH_P_IP, ETH_P_IPV6, ETH_P_ARP, IPPROTO_TCP, IPPROTO_UDP, IPPROTO_ICMP, IPPROTO_ICMPV6;
      hide Ones, WellFormed, LOW_BYTE;
    }
    hide AskOpcode, WellFormed, TransportFits, Prerequisites, Widths, Stored, Describes, DescribesRoughly, PortZero;
    hide DlType, NwProto, ETH_P_ARP, OpcodeHigh, InWidth, LOW_BYTE, TransportPart;
    AskOpcodeParts(k);
    OpcodeDiffers(k);
    EntryMeaning(AskOpcode(k), k);
  }
}
