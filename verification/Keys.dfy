/**
 The flow key (struct ind_ovs_parsed_key): a bitmap of populated attributes and
 32 cells.  The transport union is kept as in memory: the TCP, UDP, ICMP and ARP
 headers share cells T0..T3.  An attribute is a range of cells.
 */
module Keys {
  import opened Cells

  datatype Attr =
    | PRIORITY | IN_PORT | ETHERNET | VLAN | ETHERTYPE | IPV4 | IPV6
    | TCP | UDP | ICMP | ICMPV6 | ARP | TCP_FLAGS

  /** OVS_KEY_FIELDS, in order. */
  const FIELDS: seq<Attr> :=
    [PRIORITY, IN_PORT, ETHERNET, VLAN, ETHERTYPE, IPV4, IPV6, TCP, UDP, ICMP, ICMPV6, ARP, TCP_FLAGS]

  const CELLS: nat := 32

  const C_PRIORITY := 0
  const C_IN_PORT := 1
  const C_ETH_SRC := 2
  const C_ETH_DST := 3
  const C_VLAN := 4
  const C_ETHERTYPE := 5
  const C_IP4_SRC := 6     // four bytes, most significant first
  const C_IP4_DST := 10
  const C_IP4_PROTO := 11
  const C_IP4_TOS := 12
  const C_IP4_TTL := 13
  const C_IP4_FRAG := 14
  const C_IP6_SRC := 15
  const C_IP6_DST := 16
  const C_IP6_LABEL := 17
  const C_IP6_PROTO := 18
  const C_IP6_TCLASS := 19
  const C_IP6_HLIMIT := 20
  const C_IP6_FRAG := 21
  const C_T0 := 22         // bytes 0..3 of the transport union
  const C_T1 := 23
  const C_T2 := 24
  const C_T3 := 25
  const C_ARP_TIP := 26
  const C_ARP_OP := 27
  const C_ARP_SHA := 28
  const C_ARP_THA := 29
  const C_TCP_FLAGS := 30
  const C_TUNNEL := 31

  const WIDTHS: seq<nat> :=
    [32, 32, 48, 48, 16, 16, 8, 8, 8, 8, 32, 8, 8, 8, 8, 128, 128, 32, 8, 8, 8, 8,
     8, 8, 8, 8, 32, 16, 48, 48, 16, 160]

  function First(a: Attr): nat {
    match a
    case PRIORITY => 0 case IN_PORT => 1 case ETHERNET => 2 case VLAN => 4 case ETHERTYPE => 5
    case IPV4 => 6 case IPV6 => 15 case TCP => 22 case UDP => 22 case ICMP => 22 case ICMPV6 => 22
    case ARP => 22 case TCP_FLAGS => 30
  }

  /** One past the last cell. */
  function Past(a: Attr): nat {
    match a
    case PRIORITY => 1 case IN_PORT => 2 case ETHERNET => 4 case VLAN => 5 case ETHERTYPE => 6
    case IPV4 => 15 case IPV6 => 22 case TCP => 26 case UDP => 26 case ICMP => 24 case ICMPV6 => 24
    case ARP => 30 case TCP_FLAGS => 31
  }

  lemma AttrRange(a: Attr)
    ensures First(a) < Past(a) <= CELLS
  {
  }

  function Width(i: nat): nat {
    if i < |WIDTHS| then WIDTHS[i] else 0
  }

  /** The bits 0..w-1. */
  function Ones(w: nat): (r: set<nat>)
    ensures forall b: nat :: b in r <==> b < w
  {
    if w == 0 then {} else Ones(w - 1) + {w - 1}
  }

  datatype Key = Key(populated: set<Attr>, cells: Cells)

  predicate Sized(c: Cells) {
    |c| == CELLS
  }

  /** Every cell fits its field. */
  predicate InWidth(c: Cells) {
    |c| == CELLS && forall i :: 0 <= i < CELLS ==> c[i] <= Ones(Width(i))
  }

  /** memset(&mask->field, 0xff, sizeof(mask->field)) for a whole attribute. */
  function WithOnes(m: Cells, a: Attr): (r: Cells)
    requires Sized(m)
    ensures Sized(r) && Below(m, r)
    ensures forall i :: First(a) <= i < Past(a) && i < CELLS ==> Ones(Width(i)) <= r[i]
  {
    seq(CELLS, i requires 0 <= i < CELLS =>
      if First(a) <= i < Past(a) then m[i] + Ones(Width(i)) else m[i])
  }

  function Slice(c: Cells, a: Attr): Cells
    requires Sized(c)
  {
    AttrRange(a); c[First(a)..Past(a)]
  }
}
