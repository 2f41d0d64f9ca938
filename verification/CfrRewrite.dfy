/**
 Rewriting the canonical fields between tables, against the simple form: change the
 packet's key and read the fields off it again.  The two differ where the code skips a
 byte swap, where a VLAN tag comes or goes, and where the packet lacks the header.
 */
module CfrRewrite {
  import opened Cells
  import opened Keys
  import opened Actions
  import opened Cfr
  import opened CfrSoundness

  /** The packet has the header that the action writes to. */
  predicate HasHeader(k: Key, f: Field) {
    match f
    case EthDst(_) => ETHERNET in k.populated
    case EthSrc(_) => ETHERNET in k.populated
    case Ipv4Dst(_) => IPV4 in k.populated
    case Ipv4Src(_, _, _, _) => IPV4 in k.populated
    case IpDscp(_) => IPV4 in k.populated || IPV6 in k.populated
    case IpEcn(_) => IPV4 in k.populated || IPV6 in k.populated
    case Ipv6Dst(_) => IPV6 in k.populated
    case Ipv6Src(_) => IPV6 in k.populated
    case TcpDst(_, _) => TCP in k.populated
    case TcpSrc(_, _) => TCP in k.populated
    case UdpDst(_, _) => UDP in k.populated
    case UdpSrc(_, _) => UDP in k.populated
    case TpDst(_, _) => TCP in k.populated || UDP in k.populated
    case TpSrc(_, _) => TCP in k.populated || UDP in k.populated
    case _ => true
  }

  /** The value reads the same in both byte orders, or the action leaves the tag's presence alone. */
  predicate SwapFree(k: Key, f: Field) {
    match f
    case Ipv4Dst(v) => Swap32(v) == v
    case Ipv4Src(b0, b1, b2, b3) => b0 == b3 && b1 == b2
    case TcpDst(hi, lo) => hi == lo
    case TcpSrc(hi, lo) => hi == lo
    case UdpDst(hi, lo) => hi == lo
    case UdpSrc(hi, lo) => hi == lo
    case TpDst(hi, lo) => hi == lo
    case TpSrc(hi, lo) => hi == lo
    case PopVlan => VLAN !in k.populated
    case PushVlan => VLAN in k.populated
    case _ => true
  }

  /** The fields already hold what the action would write. */
  predicate AlreadyThere(c: Cells, f: Field)
    requires |c| == CFR_CELLS
  {
    match f
    case EthDst(mac) => c[F_DL_DST] == mac
    case EthSrc(mac) => c[F_DL_SRC] == mac
    case Ipv4Dst(v) => c[F_NW_DST] == Swap32(v)
    case Ipv4Src(b0, b1, b2, b3) =>
      c[F_NW_SRC] == b3 && c[F_NW_SRC + 1] == b2 && c[F_NW_SRC + 2] == b1 && c[F_NW_SRC + 3] == b0
    case IpDscp(v) => c[F_NW_TOS] * DSCP == v * DSCP && v - DSCP <= c[F_NW_TOS]
    case IpEcn(v) => c[F_NW_TOS] * ECN == v * ECN && v - ECN <= c[F_NW_TOS]
    case TcpDst(hi, lo) => c[F_TP_DST] == lo && c[F_TP_DST + 1] == hi
    case UdpDst(hi, lo) => c[F_TP_DST] == lo && c[F_TP_DST + 1] == hi
    case TpDst(hi, lo) => c[F_TP_DST] == lo && c[F_TP_DST + 1] == hi
    case TcpSrc(hi, lo) => c[F_TP_SRC] == lo && c[F_TP_SRC + 1] == hi
    case UdpSrc(hi, lo) => c[F_TP_SRC] == lo && c[F_TP_SRC + 1] == hi
    case TpSrc(hi, lo) => c[F_TP_SRC] == lo && c[F_TP_SRC + 1] == hi
    case Ipv6Dst(v) => c[F_IPV6_DST] == v
    case Ipv6Src(v) => c[F_IPV6_SRC] == v
    case _ => true
  }

  /** At most one network header, and no transport header under ARP. */
  predicate Plain(k: Key) {
    && !(IPV4 in k.populated && IPV6 in k.populated)
    && (ARP in k.populated ==> TCP !in k.populated && UDP !in k.populated)
  }

  lemma WellFormedIsPlain(k: Key)
    requires WellFormed(k)
    ensures Plain(k)
  {
    TypesDiffer();
    hide DlType, NwProto;
  }

  function Reparsed(x: Context, f: Field): (r: Cells)
    requires Fits(x)
    ensures |r| == CFR_CELLS
  {
    KeyToCfr(SetField(x, f).key)
  }

  // ---- groups of cells ---------------------------------------------------------

  function Join(a: Cells, b: Cells, c: Cells, d: Cells): Cells {
    a + b + c + d
  }

  predicate Groups(a: Cells, b: Cells, c: Cells, d: Cells) {
    |a| == 5 && |b| == 7 && |c| == 4 && |d| == 2
  }

  lemma JoinSet(a: Cells, b: Cells, c: Cells, d: Cells, i: nat, v: Bits)
    requires Groups(a, b, c, d) && i < CFR_CELLS
    ensures Join(a, b, c, d)[i := v] ==
            if i < 5 then Join(a[i := v], b, c, d)
            else if i < 12 then Join(a, b[i - 5 := v], c, d)
            else if i < 16 then Join(a, b, c[i - 12 := v], d)
            else Join(a, b, c, d[i - 16 := v])
    ensures Join(a, b, c, d)[i] ==
            if i < 5 then a[i] else if i < 12 then b[i - 5] else if i < 16 then c[i - 12] else d[i - 16]
  {
  }

  lemma JoinEqual(a: Cells, b: Cells, c: Cells, d: Cells, a': Cells, b': Cells, c': Cells, d': Cells)
    requires Groups(a, b, c, d) && Groups(a', b', c', d')
    ensures Join(a, b, c, d) == Join(a', b', c', d') <==> a == a' && b == b' && c == c' && d == d'
  {
    var x, y := Join(a, b, c, d), Join(a', b', c', d');
    assert x[..5] == a && x[5..12] == b && x[12..16] == c && x[16..] == d;
    assert y[..5] == a' && y[5..12] == b' && y[12..16] == c' && y[16..] == d';
  }

  lemma CfrIsJoin(k: Key)
    requires Sized(k.cells)
    ensures KeyToCfr(k) == Join(L2Cells(k), L3Cells(k), L4Cells(k), Ipv6Cells(k))
  {
    hide L2Cells, L3Cells, L4Cells, Ipv6Cells;
  }

  /** The keys differ only in cells of 's' and in whether there is a tag. */
  predicate SameBut(k: Key, k': Key, s: set<nat>) {
    && Sized(k.cells) && Sized(k'.cells) && k.populated - {VLAN} == k'.populated - {VLAN}
    && forall i :: 0 <= i < CELLS && i !in s ==> k.cells[i] == k'.cells[i]
  }

  lemma StillPopulated(k: Key, k': Key, a: Attr)
    requires k.populated - {VLAN} == k'.populated - {VLAN} && a != VLAN
    ensures a in k.populated <==> a in k'.populated
  {
    assert a in k.populated - {VLAN} <==> a in k'.populated - {VLAN};
  }

  lemma L2Stable(k: Key, k': Key, s: set<nat>)
    requires SameBut(k, k', s) && k.populated == k'.populated
    requires C_IN_PORT !in s && C_ETH_DST !in s && C_ETH_SRC !in s && C_VLAN !in s && C_ETHERTYPE !in s
    ensures L2Cells(k) == L2Cells(k')
  {
    hide IsLength, NOT_ETH_TYPE;
  }

  lemma L3Stable(k: Key, k': Key, s: set<nat>)
    requires SameBut(k, k', s) && C_IP4_TOS !in s && C_IP6_TCLASS !in s
    requires C_IP4_PROTO !in s && C_IP6_PROTO !in s && C_ARP_OP !in s && C_IP4_DST !in s && C_ARP_TIP !in s
    requires forall i :: C_IP4_SRC <= i < C_IP4_SRC + 4 ==> i !in s
    requires ARP in k.populated ==> forall i :: C_T0 <= i <= C_T3 ==> i !in s
    ensures L3Cells(k) == L3Cells(k')
  {
    StillPopulated(k, k', IPV4);
    StillPopulated(k, k', IPV6);
    StillPopulated(k, k', ARP);
  }

  lemma L4Stable(k: Key, k': Key, s: set<nat>)
    requires SameBut(k, k', s) && forall i :: C_T0 <= i <= C_T3 ==> i !in s
    ensures L4Cells(k) == L4Cells(k')
  {
    StillPopulated(k, k', TCP);
    StillPopulated(k, k', UDP);
    StillPopulated(k, k', ICMP);
    StillPopulated(k, k', ICMPV6);
  }

  lemma Ipv6Stable(k: Key, k': Key, s: set<nat>)
    requires SameBut(k, k', s) && C_IP6_SRC !in s && C_IP6_DST !in s
    ensures Ipv6Cells(k) == Ipv6Cells(k')
  {
    StillPopulated(k, k', IPV4);
    StillPopulated(k, k', IPV6);
  }

  // ---- what an action touches --------------------------------------------------

  lemma SetCellTouches(x: Context, a: Attr, i: nat, v: Bits)
    requires Fits(x) && i < CELLS
    ensures SameBut(x.key, SetCell(x, a, i, v).key, {i}) && SetCell(x, a, i, v).key.populated == x.key.populated
  {
  }

  lemma SameButTrans(k: Key, k': Key, k'': Key, s: set<nat>, t: set<nat>)
    requires SameBut(k, k', s) && SameBut(k', k'', t)
    ensures SameBut(k, k'', s + t)
  {
  }

  lemma TwoTouches(x: Context, a: Attr, i: nat, v: Bits, b: Attr, j: nat, w: Bits)
    requires Fits(x) && i < CELLS && j < CELLS
    ensures var y := SetCell(SetCell(x, a, i, v), b, j, w);
            SameBut(x.key, y.key, {i, j}) && y.key.populated == x.key.populated
  {
    hide SetCell, SameBut;
    SetCellTouches(x, a, i, v);
    SetCellTouches(SetCell(x, a, i, v), b, j, w);
    SameButTrans(x.key, SetCell(x, a, i, v).key, SetCell(SetCell(x, a, i, v), b, j, w).key, {i}, {j});
    assert {i} + {j} == {i, j};
  }

  /** The whole CFR again, from one changed group. */
  lemma Regrouped(k: Key, k': Key, s: set<nat>, g: nat)
    requires SameBut(k, k', s) && g < 4 && (g == 0 || k.populated == k'.populated)
    requires g == 0 || (C_IN_PORT !in s && C_ETH_DST !in s && C_ETH_SRC !in s && C_VLAN !in s && C_ETHERTYPE !in s)
    requires g == 1 || (C_IP4_TOS !in s && C_IP6_TCLASS !in s && C_IP4_PROTO !in s && C_IP6_PROTO !in s && C_ARP_OP !in s
                        && C_IP4_DST !in s && C_ARP_TIP !in s && forall i :: C_IP4_SRC <= i < C_IP4_SRC + 4 ==> i !in s)
    requires g == 1 || (ARP in k.populated ==> forall i :: C_T0 <= i <= C_T3 ==> i !in s)
    requires g == 2 || forall i :: C_T0 <= i <= C_T3 ==> i !in s
    requires g == 3 || (C_IP6_SRC !in s && C_IP6_DST !in s)
    ensures KeyToCfr(k) == Join(L2Cells(k), L3Cells(k), L4Cells(k), Ipv6Cells(k))
    ensures KeyToCfr(k') == Join(if g == 0 then L2Cells(k') else L2Cells(k), if g == 1 then L3Cells(k') else L3Cells(k),
                                 if g == 2 then L4Cells(k') else L4Cells(k), if g == 3 then Ipv6Cells(k') else Ipv6Cells(k))
  {
    CfrIsJoin(k);
    CfrIsJoin(k');
    hide L2Cells, L3Cells, L4Cells, Ipv6Cells, SameBut, Join, KeyToCfr;
    if g != 0 { L2Stable(k, k', s); }
    if g != 1 { L3Stable(k, k', s); }
    if g != 2 { L4Stable(k, k', s); }
    if g != 3 { Ipv6Stable(k, k', s); }
  }

  // ---- without the header ------------------------------------------------------

  predicate NeedsHeader(f: Field) {
    !(f.VlanVid? || f.VlanPcp? || f.PopVlan? || f.PushVlan? || f.NwTtl? || f.Ipv6Flabel? || f.Priority?)
  }

  lemma TosKept(t: Bits, d: Bits, v: Bits)
    ensures (t - d) + v == t <==> t * d == v * d && v - d <= t
  {
    if t * d == v * d && v - d <= t {
      forall b | b in v ensures b in t {
        if b in d {
          assert b in v * d;
        } else {
          assert b in v - d;
        }
      }
      forall b | b in t ensures b in (t - d) + v {
        if b in d {
          assert b in t * d;
        }
      }
    }
  }

  lemma WritesNothing(c: Cells, f: Field)
    requires |c| == CFR_CELLS && NeedsHeader(f)
    ensures UpdateOne(c, Set(f)) == c <==> AlreadyThere(c, f)
  {
    if f.IpDscp? {
      TosKept(c[F_NW_TOS], DSCP, f.dscp);
    } else if f.IpEcn? {
      TosKept(c[F_NW_TOS], ECN, f.ecn);
    }
    hide Swap32, DSCP, ECN;
  }

  lemma MissingHeader(x: Context, f: Field)
    requires Fits(x) && !HasHeader(x.key, f)
    ensures UpdateOne(KeyToCfr(x.key), Set(f)) == Reparsed(x, f) <==> AlreadyThere(KeyToCfr(x.key), f)
  {
    assert SetField(x, f).key == x.key;
    hide UpdateOne, KeyToCfr, AlreadyThere, SetField;
    WritesNothing(KeyToCfr(x.key), f);
  }

  // ---- the actions, group by group -----------------------------------------------

  /** The tag bit does not matter when the rest of a tag is replaced. */
  lemma TagBit(tci: Bits, v: Bits)
    ensures WithVid(tci + CFI, v) == WithVid(tci, v) == WithVid(tci, v) + CFI
    ensures WithPcp(tci + CFI, v) == WithPcp(tci, v) == WithPcp(tci, v) + CFI
    ensures WithVid({}, v) == WithVid(CFI, v) && WithPcp({}, v) == WithPcp(CFI, v)
  {
    hide PcpBits;
    assert (tci + CFI) * PCP == tci * PCP && CFI * PCP == {};
    assert (tci + CFI) * VID == tci * VID && CFI * VID == {};
  }

  lemma EthernetRewrites(x: Context, f: Field)
    requires Fits(x) && (f.EthDst? || f.EthSrc?) && HasHeader(x.key, f)
    ensures UpdateOne(KeyToCfr(x.key), Set(f)) == Reparsed(x, f)
  {
    hide L2Cells, L3Cells, L4Cells, Ipv6Cells, Join, KeyToCfr, SetCell, SameBut;
    var i, j := if f.EthDst? then C_ETH_DST else C_ETH_SRC, if f.EthDst? then F_DL_DST else F_DL_SRC;
    var k, k' := x.key, SetField(x, f).key;
    SetCellTouches(x, ETHERNET, i, f.mac);
    Regrouped(k, k', {i}, 0);
    EthernetCell(x, i, f.mac);
    JoinSet(L2Cells(k), L3Cells(k), L4Cells(k), Ipv6Cells(k), j, f.mac);
  }

  lemma EthernetCell(x: Context, i: nat, v: Bits)
    requires Fits(x) && ETHERNET in x.key.populated && (i == C_ETH_DST || i == C_ETH_SRC)
    ensures L2Cells(SetCell(x, ETHERNET, i, v).key) == L2Cells(x.key)[if i == C_ETH_DST then F_DL_DST else F_DL_SRC := v]
  {
    hide IsLength, NOT_ETH_TYPE, CFI, PORT_LOCAL;
  }

  function NewTci(f: Field, tci: Bits): Bits
    requires f.VlanVid? || f.VlanPcp?
  {
    if f.VlanVid? then WithVid(tci, f.vid) else WithPcp(tci, f.pcp)
  }

  lemma TagTouches(x: Context, f: Field)
    requires Fits(x) && (f.VlanVid? || f.VlanPcp?)
    ensures SameBut(x.key, SetField(x, f).key, {C_VLAN})
  {
    hide WithVid, WithPcp;
  }

  lemma TagCell(x: Context, f: Field)
    requires Fits(x) && (f.VlanVid? || f.VlanPcp?)
    ensures L2Cells(SetField(x, f).key) == L2Cells(x.key)[F_DL_VLAN := NewTci(f, L2Cells(x.key)[F_DL_VLAN])]
  {
    if f.VlanVid? {
      TagBit(x.key.cells[C_VLAN], f.vid);
    } else {
      TagBit(x.key.cells[C_VLAN], f.pcp);
    }
    hide IsLength, NOT_ETH_TYPE, WithVid, WithPcp, CFI, PORT_LOCAL;
  }

  lemma VlanRewrites(x: Context, f: Field)
    requires Fits(x) && (f.VlanVid? || f.VlanPcp?)
    ensures UpdateOne(KeyToCfr(x.key), Set(f)) == Reparsed(x, f)
  {
    hide L2Cells, L3Cells, L4Cells, Ipv6Cells, Join, KeyToCfr, SetField, SameBut, WithVid, WithPcp;
    var k, k' := x.key, SetField(x, f).key;
    TagTouches(x, f);
    Regrouped(k, k', {C_VLAN}, 0);
    TagCell(x, f);
    JoinSet(L2Cells(k), L3Cells(k), L4Cells(k), Ipv6Cells(k), F_DL_VLAN, NewTci(f, L2Cells(k)[F_DL_VLAN]));
  }

  lemma TosCell(x: Context, bits: Bits, v: Bits)
    requires Fits(x) && (IPV4 in x.key.populated || IPV6 in x.key.populated)
    ensures var y := SetBits(SetBits(x, IPV4, C_IP4_TOS, bits, v), IPV6, C_IP6_TCLASS, bits, v);
            L3Cells(y.key) == L3Cells(x.key)[0 := (L3Cells(x.key)[0] - bits) + v]
  {
  }

  lemma TosRewrites(x: Context, f: Field)
    requires Fits(x) && (f.IpDscp? || f.IpEcn?) && HasHeader(x.key, f)
    ensures UpdateOne(KeyToCfr(x.key), Set(f)) == Reparsed(x, f)
  {
    hide DSCP, ECN, L2Cells, L3Cells, L4Cells, Ipv6Cells, Join, KeyToCfr, SetCell, SameBut;
    var k, k' := x.key, SetField(x, f).key;
    var bits, v := if f.IpDscp? then DSCP else ECN, if f.IpDscp? then f.dscp else f.ecn;
    TwoTouches(x, IPV4, C_IP4_TOS, (k.cells[C_IP4_TOS] - bits) + v, IPV6, C_IP6_TCLASS,
               (SetBits(x, IPV4, C_IP4_TOS, bits, v).key.cells[C_IP6_TCLASS] - bits) + v);
    Regrouped(k, k', {C_IP4_TOS, C_IP6_TCLASS}, 1);
    TosCell(x, bits, v);
    JoinSet(L2Cells(k), L3Cells(k), L4Cells(k), Ipv6Cells(k), F_NW_TOS, (L3Cells(k)[0] - bits) + v);
  }

  lemma DstCell(x: Context, v: Bits)
    requires Fits(x) && IPV4 in x.key.populated
    ensures L3Cells(SetCell(x, IPV4, C_IP4_DST, v).key) == L3Cells(x.key)[6 := v]
  {
  }

  lemma DstRewritesExactly(x: Context, v: Bits)
    requires Fits(x) && IPV4 in x.key.populated
    ensures UpdateOne(KeyToCfr(x.key), Set(Ipv4Dst(v))) == Reparsed(x, Ipv4Dst(v)) <==> Swap32(v) == v
    ensures Reparsed(x, Ipv4Dst(v)) == KeyToCfr(x.key)[F_NW_DST := v]
  {
    hide L2Cells, L3Cells, L4Cells, Ipv6Cells, Join, KeyToCfr, SetCell, SameBut, Swap32;
    var k, k' := x.key, SetField(x, Ipv4Dst(v)).key;
    SetCellTouches(x, IPV4, C_IP4_DST, v);
    Regrouped(k, k', {C_IP4_DST}, 1);
    DstCell(x, v);
    var a, l, c, d := L2Cells(k), L3Cells(k), L4Cells(k), Ipv6Cells(k);
    JoinSet(a, l, c, d, F_NW_DST, Swap32(v));
    JoinSet(a, l, c, d, F_NW_DST, v);
    JoinEqual(a, l[6 := Swap32(v)], c, d, a, l[6 := v], c, d);
    assert l[6 := Swap32(v)][6] == Swap32(v) && l[6 := v][6] == v;
  }

  /** Four bytes written in the wrong order come out right exactly when they are a palindrome. */
  lemma Palindrome(l: Cells, b0: Bits, b1: Bits, b2: Bits, b3: Bits)
    requires |l| == 7
    ensures l[2 := b0][3 := b1][4 := b2][5 := b3] == l[2 := b3][3 := b2][4 := b1][5 := b0] <==> b0 == b3 && b1 == b2
  {
    var a, b := l[2 := b0][3 := b1][4 := b2][5 := b3], l[2 := b3][3 := b2][4 := b1][5 := b0];
    assert a[2] == b0 && b[2] == b3 && a[3] == b1 && b[3] == b2 && a[4] == b2 && b[4] == b1 && a[5] == b3 && b[5] == b0;
  }

  lemma SrcCells(x: Context, b0: Bits, b1: Bits, b2: Bits, b3: Bits)
    requires Fits(x) && IPV4 in x.key.populated
    ensures var y := SetField(x, Ipv4Src(b0, b1, b2, b3));
            L3Cells(y.key) == L3Cells(x.key)[2 := b0][3 := b1][4 := b2][5 := b3]
  {
  }

  lemma SrcTouches(x: Context, b0: Bits, b1: Bits, b2: Bits, b3: Bits)
    requires Fits(x)
    ensures var y := SetField(x, Ipv4Src(b0, b1, b2, b3));
            && SameBut(x.key, y.key, {C_IP4_SRC, C_IP4_SRC + 1, C_IP4_SRC + 2, C_IP4_SRC + 3})
            && y.key.populated == x.key.populated
  {
    hide SetCell, SameBut;
    var y := SetPort(x, IPV4, C_IP4_SRC, b0, b1);
    TwoTouches(x, IPV4, C_IP4_SRC, b0, IPV4, C_IP4_SRC + 1, b1);
    TwoTouches(y, IPV4, C_IP4_SRC + 2, b2, IPV4, C_IP4_SRC + 3, b3);
    var s, t := {C_IP4_SRC, C_IP4_SRC + 1}, {C_IP4_SRC + 2, C_IP4_SRC + 3};
    SameButTrans(x.key, y.key, SetPort(y, IPV4, C_IP4_SRC + 2, b2, b3).key, s, t);
    assert s + t == {C_IP4_SRC, C_IP4_SRC + 1, C_IP4_SRC + 2, C_IP4_SRC + 3};
  }

  function Bytes(c: Cells, b0: Bits, b1: Bits, b2: Bits, b3: Bits): Cells
    requires |c| == CFR_CELLS
  {
    c[F_NW_SRC := b0][F_NW_SRC + 1 := b1][F_NW_SRC + 2 := b2][F_NW_SRC + 3 := b3]
  }

  lemma BytesJoin(a: Cells, l: Cells, c: Cells, d: Cells, b0: Bits, b1: Bits, b2: Bits, b3: Bits)
    requires Groups(a, l, c, d)
    ensures Bytes(Join(a, l, c, d), b0, b1, b2, b3) == Join(a, l[2 := b0][3 := b1][4 := b2][5 := b3], c, d)
  {
    hide Join;
    JoinSet(a, l, c, d, F_NW_SRC, b0);
    JoinSet(a, l[2 := b0], c, d, F_NW_SRC + 1, b1);
    JoinSet(a, l[2 := b0][3 := b1], c, d, F_NW_SRC + 2, b2);
    JoinSet(a, l[2 := b0][3 := b1][4 := b2], c, d, F_NW_SRC + 3, b3);
  }

  lemma SrcRewritesExactly(x: Context, b0: Bits, b1: Bits, b2: Bits, b3: Bits)
    requires Fits(x) && IPV4 in x.key.populated
    ensures var f := Ipv4Src(b0, b1, b2, b3);
            && (UpdateOne(KeyToCfr(x.key), Set(f)) == Reparsed(x, f) <==> b0 == b3 && b1 == b2)
            && Reparsed(x, f) == Bytes(KeyToCfr(x.key), b0, b1, b2, b3)
  {
    hide L2Cells, L3Cells, L4Cells, Ipv6Cells, Join, KeyToCfr, SetField, SameBut;
    var k, k' := x.key, SetField(x, Ipv4Src(b0, b1, b2, b3)).key;
    SrcTouches(x, b0, b1, b2, b3);
    Regrouped(k, k', {C_IP4_SRC, C_IP4_SRC + 1, C_IP4_SRC + 2, C_IP4_SRC + 3}, 1);
    SrcCells(x, b0, b1, b2, b3);
    var a, l, c, d := L2Cells(k), L3Cells(k), L4Cells(k), Ipv6Cells(k);
    BytesJoin(a, l, c, d, b3, b2, b1, b0);
    BytesJoin(a, l, c, d, b0, b1, b2, b3);
    JoinEqual(a, l[2 := b3][3 := b2][4 := b1][5 := b0], c, d, a, L3Cells(k'), c, d);
    Palindrome(l, b0, b1, b2, b3);
  }

  function PortCell(f: Field): nat {
    if f.TcpDst? || f.UdpDst? || f.TpDst? then 2 else 0
  }

  lemma PortCells(x: Context, f: Field)
    requires Fits(x) && IsPortField(f) && HasHeader(x.key, f)
    ensures var i := PortCell(f); L4Cells(SetField(x, f).key) == L4Cells(x.key)[i := f.hi][i + 1 := f.lo]
  {
  }

  lemma PortTouches(x: Context, f: Field)
    requires Fits(x) && IsPortField(f)
    ensures var i := C_T0 + PortCell(f);
            SameBut(x.key, SetField(x, f).key, {i, i + 1}) && SetField(x, f).key.populated == x.key.populated
  {
    hide SetCell, SameBut;
    var i := C_T0 + PortCell(f);
    TwoTouches(x, TCP, i, f.hi, TCP, i + 1, f.lo);
    TwoTouches(x, UDP, i, f.hi, UDP, i + 1, f.lo);
    var y := SetPort(x, TCP, i, f.hi, f.lo);
    TwoTouches(y, UDP, i, f.hi, UDP, i + 1, f.lo);
    SameButTrans(x.key, y.key, SetPort(y, UDP, i, f.hi, f.lo).key, {i, i + 1}, {i, i + 1});
    assert {i, i + 1} + {i, i + 1} == {i, i + 1};
  }

  lemma PortRewritesExactly(x: Context, f: Field)
    requires Fits(x) && IsPortField(f) && HasHeader(x.key, f) && Plain(x.key)
    ensures UpdateOne(KeyToCfr(x.key), Set(f)) == Reparsed(x, f) <==> f.hi == f.lo
    ensures var i := F_TP_SRC + PortCell(f); Reparsed(x, f) == KeyToCfr(x.key)[i := f.hi][i + 1 := f.lo]
  {
    hide L2Cells, L3Cells, L4Cells, Ipv6Cells, Join, KeyToCfr, SetField, SameBut;
    var k, k', i := x.key, SetField(x, f).key, PortCell(f);
    PortTouches(x, f);
    Regrouped(k, k', {C_T0 + i, C_T0 + i + 1}, 2);
    PortCells(x, f);
    var a, b, l, d := L2Cells(k), L3Cells(k), L4Cells(k), Ipv6Cells(k);
    JoinSet(a, b, l, d, F_TP_SRC + i, f.lo);
    JoinSet(a, b, l[i := f.lo], d, F_TP_SRC + i + 1, f.hi);
    JoinSet(a, b, l, d, F_TP_SRC + i, f.hi);
    JoinSet(a, b, l[i := f.hi], d, F_TP_SRC + i + 1, f.lo);
    var w, r := l[i := f.lo][i + 1 := f.hi], l[i := f.hi][i + 1 := f.lo];
    JoinEqual(a, b, w, d, a, b, r, d);
    assert w[i] == f.lo && r[i] == f.hi;
  }

  lemma Ipv6Cell(x: Context, i: nat, v: Bits)
    requires Fits(x) && IPV6 in x.key.populated && IPV4 !in x.key.populated && (i == C_IP6_SRC || i == C_IP6_DST)
    ensures Ipv6Cells(SetCell(x, IPV6, i, v).key) == Ipv6Cells(x.key)[i - C_IP6_SRC := v]
  {
  }

  lemma Ipv6Rewrites(x: Context, f: Field)
    requires Fits(x) && (f.Ipv6Src? || f.Ipv6Dst?) && HasHeader(x.key, f) && Plain(x.key)
    ensures UpdateOne(KeyToCfr(x.key), Set(f)) == Reparsed(x, f)
  {
    hide L2Cells, L3Cells, L4Cells, Ipv6Cells, Join, KeyToCfr, SetCell, SameBut;
    var k, k', i := x.key, SetField(x, f).key, if f.Ipv6Src? then C_IP6_SRC else C_IP6_DST;
    SetCellTouches(x, IPV6, i, f.addr6);
    Regrouped(k, k', {i}, 3);
    Ipv6Cell(x, i, f.addr6);
    JoinSet(L2Cells(k), L3Cells(k), L4Cells(k), Ipv6Cells(k), F_IPV6_SRC + (i - C_IP6_SRC), f.addr6);
  }

  /** The tag shows in the fields exactly when there is one. */
  lemma TagShows(k: Key)
    requires Sized(k.cells)
    ensures 12 in L2Cells(k)[4] <==> VLAN in k.populated
  {
    hide IsLength, NOT_ETH_TYPE, PORT_LOCAL;
  }

  /** A tag that comes or goes is not seen by the tables that follow. */
  lemma TagRewritesExactly(x: Context, f: Field)
    requires Fits(x) && (f.PopVlan? || f.PushVlan?)
    ensures UpdateOne(KeyToCfr(x.key), Set(f)) == Reparsed(x, f) <==> SwapFree(x.key, f)
  {
    var k, k' := x.key, SetField(x, f).key;
    assert Sized(k'.cells);
    TagShows(k);
    TagShows(k');
    CfrIsJoin(k);
    CfrIsJoin(k');
    hide L2Cells, L3Cells, L4Cells, Ipv6Cells, Join, KeyToCfr;
    JoinEqual(L2Cells(k), L3Cells(k), L4Cells(k), Ipv6Cells(k), L2Cells(k'), L3Cells(k'), L4Cells(k'), Ipv6Cells(k'));
    assert SwapFree(k, f) ==> k' == k;
  }

  lemma UnseenCells(k: Key, k': Key, s: set<nat>)
    requires SameBut(k, k', s) && k.populated == k'.populated && s <= {C_IP4_TTL, C_IP6_HLIMIT, C_IP6_LABEL, C_PRIORITY}
    ensures KeyToCfr(k) == KeyToCfr(k')
  {
    hide L2Cells, L3Cells, L4Cells, Ipv6Cells, Join, KeyToCfr, SameBut;
    Regrouped(k, k', s, 0);
    L2Stable(k, k', s);
  }

  lemma PriorityTouches(x: Context, v: Bits)
    requires Fits(x)
    ensures SameBut(x.key, SetField(x, Priority(v)).key, {C_PRIORITY})
    ensures SetField(x, Priority(v)).key.populated == x.key.populated
  {
  }

  lemma UnseenRewrites(x: Context, f: Field)
    requires Fits(x) && (f.NwTtl? || f.Ipv6Flabel? || f.Priority?)
    ensures UpdateOne(KeyToCfr(x.key), Set(f)) == Reparsed(x, f)
  {
    hide KeyToCfr, SetCell, SameBut;
    var k, k' := x.key, SetField(x, f).key;
    if f.NwTtl? {
      TwoTouches(x, IPV4, C_IP4_TTL, f.ttl, IPV6, C_IP6_HLIMIT, f.ttl);
      UnseenCells(k, k', {C_IP4_TTL, C_IP6_HLIMIT});
    } else if f.Ipv6Flabel? {
      SetCellTouches(x, IPV6, C_IP6_LABEL, f.flabel);
      UnseenCells(k, k', {C_IP6_LABEL});
    } else {
      PriorityTouches(x, f.priority);
      UnseenCells(k, k', {C_PRIORITY});
    }
  }

  // ---- exactly -----------------------------------------------------------------

  lemma PresentHeader(x: Context, f: Field)
    requires Fits(x) && Plain(x.key) && HasHeader(x.key, f)
    ensures UpdateOne(KeyToCfr(x.key), Set(f)) == Reparsed(x, f) <==> SwapFree(x.key, f)
  {
    hide UpdateOne, KeyToCfr, Reparsed, Swap32;
    match f {
      case Ipv4Dst(v) => DstRewritesExactly(x, v);
      case Ipv4Src(b0, b1, b2, b3) => SrcRewritesExactly(x, b0, b1, b2, b3);
      case IpDscp(_) => TosRewrites(x, f);
      case IpEcn(_) => TosRewrites(x, f);
      case Ipv6Dst(_) => Ipv6Rewrites(x, f);
      case Ipv6Src(_) => Ipv6Rewrites(x, f);
      case PopVlan => TagRewritesExactly(x, f);
      case PushVlan => TagRewritesExactly(x, f);
      case NwTtl(_) => UnseenRewrites(x, f);
      case Ipv6Flabel(_) => UnseenRewrites(x, f);
      case Priority(_) => UnseenRewrites(x, f);
      case EthDst(_) => EthernetRewrites(x, f);
      case EthSrc(_) => EthernetRewrites(x, f);
      case VlanVid(_) => VlanRewrites(x, f);
      case VlanPcp(_) => VlanRewrites(x, f);
      case _ => PortRewritesExactly(x, f);
    }
  }

  /**
   Rewriting equals reading again exactly when, with the header there, no byte swap and no
   change of tag gets in the way, or, without it, the fields already hold the value.
   */
  lemma RewriteIsReparseExactly(x: Context, f: Field)
    requires Fits(x) && Plain(x.key)
    ensures UpdateOne(KeyToCfr(x.key), Set(f)) == Reparsed(x, f) <==>
            if HasHeader(x.key, f) then SwapFree(x.key, f) else AlreadyThere(KeyToCfr(x.key), f)
  {
    hide UpdateOne, KeyToCfr, Reparsed, SwapFree, AlreadyThere, HasHeader;
    if HasHeader(x.key, f) {
      PresentHeader(x, f);
    } else {
      MissingHeader(x, f);
    }
  }

  /** Setting TCP port 80 stores 20480: the next table matches another port. */
  lemma PortEightyIsSwapped(x: Context)
    requires Fits(x) && Plain(x.key) && TCP in x.key.populated
    ensures UpdateOne(KeyToCfr(x.key), Set(TcpDst({}, {4, 6}))) != Reparsed(x, TcpDst({}, {4, 6}))
  {
    hide UpdateOne, KeyToCfr, Reparsed;
    RewriteIsReparseExactly(x, TcpDst({}, {4, 6}));
  }

  /** Setting an IPv4 address on an IPv6 packet: the packet keeps none, the fields get one. */
  lemma MissingHeaderShows(x: Context)
    requires Fits(x) && Plain(x.key) && IPV6 in x.key.populated
    ensures UpdateOne(KeyToCfr(x.key), Set(Ipv4Dst({0, 24}))) != Reparsed(x, Ipv4Dst({0, 24}))
  {
    assert 0 in Swap32({0, 24});
    CfrIsJoin(x.key);
    JoinSet(L2Cells(x.key), L3Cells(x.key), L4Cells(x.key), Ipv6Cells(x.key), F_NW_DST, {});
    assert KeyToCfr(x.key)[F_NW_DST] == {};
    hide UpdateOne, KeyToCfr, Reparsed, L2Cells, L3Cells, L4Cells, Ipv6Cells, Swap32;
    RewriteIsReparseExactly(x, Ipv4Dst({0, 24}));
  }
}
