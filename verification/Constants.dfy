/** The constants of the model as the numbers that the headers define. */
module Constants {
  import opened Cells
  import opened Keys
  import opened Actions
  import opened Cfr
  import opened Decision
  import opened FlowMatch
  import Pipeline
  import EarlyTables

  function Bit(v: Bits, b: nat): nat {
    if b in v then 1 else 0
  }

  lemma Value16(v: Bits)
    ensures Value(v, 0, 16) ==
      Bit(v, 0) + 2 * Bit(v, 1) + 4 * Bit(v, 2) + 8 * Bit(v, 3) + 16 * Bit(v, 4) + 32 * Bit(v, 5) +
      64 * Bit(v, 6) + 128 * Bit(v, 7) + 256 * Bit(v, 8) + 512 * Bit(v, 9) + 1024 * Bit(v, 10) + 2048 * Bit(v, 11) +
      4096 * Bit(v, 12) + 8192 * Bit(v, 13) + 16384 * Bit(v, 14) + 32768 * Bit(v, 15)
  {
    assert Value(v, 15, 16) == Bit(v, 15) + 2 * Value(v, 16, 16);
    assert Value(v, 14, 16) == Bit(v, 14) + 2 * Value(v, 15, 16);
    assert Value(v, 13, 16) == Bit(v, 13) + 2 * Value(v, 14, 16);
    assert Value(v, 12, 16) == Bit(v, 12) + 2 * Value(v, 13, 16);
    assert Value(v, 11, 16) == Bit(v, 11) + 2 * Value(v, 12, 16);
    assert Value(v, 10, 16) == Bit(v, 10) + 2 * Value(v, 11, 16);
    assert Value(v, 9, 16) == Bit(v, 9) + 2 * Value(v, 10, 16);
    assert Value(v, 8, 16) == Bit(v, 8) + 2 * Value(v, 9, 16);
    assert Value(v, 7, 16) == Bit(v, 7) + 2 * Value(v, 8, 16);
    assert Value(v, 6, 16) == Bit(v, 6) + 2 * Value(v, 7, 16);
    assert Value(v, 5, 16) == Bit(v, 5) + 2 * Value(v, 6, 16);
    assert Value(v, 4, 16) == Bit(v, 4) + 2 * Value(v, 5, 16);
    assert Value(v, 3, 16) == Bit(v, 3) + 2 * Value(v, 4, 16);
    assert Value(v, 2, 16) == Bit(v, 2) + 2 * Value(v, 3, 16);
    assert Value(v, 1, 16) == Bit(v, 1) + 2 * Value(v, 2, 16);
    assert Value(v, 0, 16) == Bit(v, 0) + 2 * Value(v, 1, 16);
  }

  /** 802.1Q: twelve bits of id, one, and three of priority. */
  lemma VlanConstants()
    ensures Value(VID, 0, 16) == 0x0fff && Value(CFI, 0, 16) == 0x1000 && Value(PCP, 0, 16) == 0xe000
    ensures Value(UNTAGGED, 0, 16) == 0xffff
  {
    hide Value;
    Value16(VID);
    Value16(CFI);
    Value16(PCP);
    Value16(UNTAGGED);
  }

  lemma TosConstants()
    ensures Value(DSCP, 0, 16) == 0xfc && Value(ECN, 0, 16) == 0x03 && Value(LOW_BYTE, 0, 16) == 0xff
  {
    hide Value;
    Value16(DSCP);
    Value16(ECN);
    Value16(LOW_BYTE);
  }

  lemma TypeConstants()
    ensures Value(ETH_P_IP, 0, 16) == 0x0800 && Value(ETH_P_IPV6, 0, 16) == 0x86dd && Value(ETH_P_ARP, 0, 16) == 0x0806
    ensures Value(NOT_ETH_TYPE, 0, 16) == 0x05ff
  {
    hide Value;
    Value16(ETH_P_IP);
    Value16(ETH_P_IPV6);
    Value16(ETH_P_ARP);
    Value16(NOT_ETH_TYPE);
  }

  lemma ProtocolConstants()
    ensures Value(IPPROTO_ICMP, 0, 16) == 1 && Value(IPPROTO_TCP, 0, 16) == 6
    ensures Value(IPPROTO_UDP, 0, 16) == 17 && Value(IPPROTO_ICMPV6, 0, 16) == 58
  {
    hide Value;
    Value16(IPPROTO_ICMP);
    Value16(IPPROTO_TCP);
    Value16(IPPROTO_UDP);
    Value16(IPPROTO_ICMPV6);
  }

  /** The local port of the datapath, the in-band port, and OpenFlow's 0xfffffffe. */
  lemma PortConstants()
    ensures Value(OVSP_LOCAL, 0, 16) == 0 && Value(INBAND_PORT, 0, 16) == 1000 && Value(EarlyTables.FRAG_LATER, 0, 16) == 2
    ensures forall b: nat :: b in PORT_LOCAL <==> 1 <= b < 32
    ensures Pipeline.NUM_TABLES == 16 && Pipeline.NO_MATCH == 0
  {
    hide Value;
    Value16(OVSP_LOCAL);
    Value16(INBAND_PORT);
    Value16(EarlyTables.FRAG_LATER);
  }

  /** A number above 0x05ff is a type, the others are lengths. */
  lemma LengthIs(t: Bits)
    ensures IsLength(t * Ones(16)) <==> Value(t, 0, 16) <= 0x05ff
  {
    hide Value;
    Value16(t);
    assert t * Ones(16) * {11, 12, 13, 14, 15} == {} <==> 11 !in t && 12 !in t && 13 !in t && 14 !in t && 15 !in t;
  }

  /** So the type that tables match is the packet's, and 0x05ff for every packet without one. */
  lemma TypeField(k: Key)
    requires Sized(k.cells) && k.cells[C_ETHERTYPE] <= Ones(16)
    ensures var t := KeyToCfr(k)[F_DL_TYPE];
      if ETHERTYPE in k.populated && Value(k.cells[C_ETHERTYPE], 0, 16) > 0x05ff then t == k.cells[C_ETHERTYPE]
      else t <= Ones(16) && Value(t, 0, 16) == 0x05ff
  {
    hide Value, IsLength, NOT_ETH_TYPE, Ones, CFI, PORT_LOCAL, L3Cells, L4Cells, Ipv6Cells;
    TypeConstants();
    NotTypeWidth();
    LengthIs(k.cells[C_ETHERTYPE]);
    assert k.cells[C_ETHERTYPE] * Ones(16) == k.cells[C_ETHERTYPE];
    assert KeyToCfr(k)[F_DL_TYPE] == L2Cells(k)[3];
  }

  lemma NotTypeWidth()
    ensures NOT_ETH_TYPE <= Ones(16)
  {
  }
}
