/**
 What an action list leaves in the canonical fields, bit by bit: the last action that
 writes a bit decides it.
 */
module FieldWrites {
  import opened Cells
  import opened Actions
  import opened Cfr

  /** Bit b of a 32-bit number whose four bytes are in the other order. */
  function Mirror(b: nat): nat
    requires b < 32
  {
    24 - 8 * (b / 8) + b % 8
  }

  function Bit(v: Bits, b: nat): Option<bool> {
    Some(b in v)
  }

  /** A field of a header byte: these bits are written, others can only be set. */
  function Part(v: Bits, b: nat, lo: nat, hi: nat): Option<bool> {
    if lo <= b <= hi then Some(b in v) else if b in v then Some(true) else None
  }

  /** What an action writes to bit b of field i.  Numbers keep the byte order of the host. */
  function Written(a: Action, i: nat, b: nat): Option<bool> {
    if !a.Set? then None
    else
      match a.field
      case EthDst(mac) => if i == F_DL_DST then Bit(mac, b) else None
      case EthSrc(mac) => if i == F_DL_SRC then Bit(mac, b) else None
      case Ipv4Dst(v) => if i == F_NW_DST then Some(b < 32 && Mirror(b) in v) else None
      case Ipv4Src(b0, b1, b2, b3) =>
        if i == F_NW_SRC then Bit(b3, b)
        else if i == F_NW_SRC + 1 then Bit(b2, b)
        else if i == F_NW_SRC + 2 then Bit(b1, b)
        else if i == F_NW_SRC + 3 then Bit(b0, b)
        else None
      case IpDscp(v) => if i == F_NW_TOS then Part(v, b, 2, 7) else None
      case IpEcn(v) => if i == F_NW_TOS then Part(v, b, 0, 1) else None
      case TcpDst(hi, lo) => PortBit(i, F_TP_DST, hi, lo, b)
      case UdpDst(hi, lo) => PortBit(i, F_TP_DST, hi, lo, b)
      case TpDst(hi, lo) => PortBit(i, F_TP_DST, hi, lo, b)
      case TcpSrc(hi, lo) => PortBit(i, F_TP_SRC, hi, lo, b)
      case UdpSrc(hi, lo) => PortBit(i, F_TP_SRC, hi, lo, b)
      case TpSrc(hi, lo) => PortBit(i, F_TP_SRC, hi, lo, b)
      case VlanVid(v) =>
        if i != F_DL_VLAN || 13 <= b < 16 then None else if b < 12 then Bit(v, b) else Some(b == 12)
      case VlanPcp(v) =>
        if i != F_DL_VLAN || b < 12 then None else if 13 <= b < 16 then Bit(v, b - 13) else Some(b == 12)
      case Ipv6Dst(v) => if i == F_IPV6_DST then Bit(v, b) else None
      case Ipv6Src(v) => if i == F_IPV6_SRC then Bit(v, b) else None
      case _ => None
  }

  function PortBit(i: nat, first: nat, hi: Bits, lo: Bits, b: nat): Option<bool> {
    if i == first then Bit(lo, b) else if i == first + 1 then Bit(hi, b) else None
  }

  /** The last write to the bit. */
  function LastWrite(actions: seq<Action>, i: nat, b: nat): Option<bool> {
    if actions == [] then None
    else
      var last := Written(actions[|actions| - 1], i, b);
      if last.Some? then last else LastWrite(actions[..|actions| - 1], i, b)
  }

  predicate BitAfter(c: Cells, actions: seq<Action>, r: Cells, i: nat, b: nat)
    requires |c| == |r| == CFR_CELLS && i < CFR_CELLS
  {
    b in r[i] <==> match LastWrite(actions, i, b) case None => b in c[i] case Some(v) => v
  }

  /** The fields after the actions. */
  ghost predicate Rewritten(c: Cells, actions: seq<Action>, r: Cells) {
    |c| == |r| == CFR_CELLS && forall i: nat, b: nat :: i < CFR_CELLS ==> BitAfter(c, actions, r, i, b)
  }

  /** The same said of positions: a write with no later one to the bit stays, and a bit nobody writes stays. */
  lemma {:induction false} LastWriteIs(actions: seq<Action>, j: nat, i: nat, b: nat)
    requires j <= |actions| && forall l :: j <= l < |actions| ==> Written(actions[l], i, b).None?
    ensures j == 0 ==> LastWrite(actions, i, b).None?
    ensures j > 0 && Written(actions[j - 1], i, b).Some? ==> LastWrite(actions, i, b) == Written(actions[j - 1], i, b)
    decreases |actions|
  {
    hide Written;
    if j < |actions| {
      LastWriteIs(actions[..|actions| - 1], j, i, b);
    }
  }

  // ---- one action ----------------------------------------------------------------

  lemma MirrorIs(b: nat)
    requires b < 32
    ensures SwapBit(b) == Mirror(b)
  {
  }

  lemma SwapWrite(v: Bits, b: nat)
    ensures b in Swap32(v) <==> b < 32 && Mirror(b) in v
  {
    if b < 32 {
      MirrorIs(b);
    }
  }

  lemma VlanWrite(t: Bits, v: Bits, b: nat)
    ensures b in WithVid(t, v) <==> if b < 12 then b in v else if 13 <= b < 16 then b in t else b == 12
    ensures b in WithPcp(t, v) <==> if b < 12 then b in t else if 13 <= b < 16 then b - 13 in v else b == 12
  {
  }

  lemma TosWrite(t: Bits, v: Bits, b: nat)
    ensures b in (t - DSCP) + v <==> b in v || (b in t && !(2 <= b <= 7))
    ensures b in (t - ECN) + v <==> b in v || (b in t && !(0 <= b <= 1))
  {
  }

  lemma OneWrite(c: Cells, a: Action, i: nat, b: nat)
    requires |c| == CFR_CELLS && i < CFR_CELLS
    ensures b in UpdateOne(c, a)[i] <==> match Written(a, i, b) case None => b in c[i] case Some(v) => v
  {
    if a.Set? {
      hide Swap32, WithVid, WithPcp, DSCP, ECN, Mirror;
      match a.field {
        case Ipv4Dst(v) => SwapWrite(v, b);
        case VlanVid(v) => VlanWrite(c[F_DL_VLAN], v, b);
        case VlanPcp(v) => VlanWrite(c[F_DL_VLAN], v, b);
        case IpDscp(v) => TosWrite(c[F_NW_TOS], v, b);
        case IpEcn(v) => TosWrite(c[F_NW_TOS], v, b);
        case _ =>
      }
    }
  }

  // ---- lists -----------------------------------------------------------------------

  lemma {:induction false} UpdateSnoc(c: Cells, actions: seq<Action>, a: Action)
    requires |c| == CFR_CELLS
    ensures UpdateCfr(c, actions + [a]) == UpdateOne(UpdateCfr(c, actions), a)
    decreases actions
  {
    hide UpdateOne;
    var l := actions + [a];
    if actions == [] {
      assert l[1..] == [];
    } else {
      assert l[1..] == actions[1..] + [a];
      UpdateSnoc(UpdateOne(c, actions[0]), actions[1..], a);
    }
  }

  lemma {:induction false} ListWrites(c: Cells, actions: seq<Action>, i: nat, b: nat)
    requires |c| == CFR_CELLS && i < CFR_CELLS
    ensures BitAfter(c, actions, UpdateCfr(c, actions), i, b)
  {
    hide UpdateOne, Written;
    if actions != [] {
      var n := |actions| - 1;
      assert actions == actions[..n] + [actions[n]];
      hide UpdateCfr;
      ListWrites(c, actions[..n], i, b);
      UpdateSnoc(c, actions[..n], actions[n]);
      OneWrite(UpdateCfr(c, actions[..n]), actions[n], i, b);
    }
  }

  /** Every action list leaves in every bit what its last writer wrote, and nothing else changes. */
  lemma UpdateRewrites(c: Cells, actions: seq<Action>)
    requires |c| == CFR_CELLS
    ensures Rewritten(c, actions, UpdateCfr(c, actions))
  {
    hide UpdateCfr, BitAfter;
    forall i: nat, b: nat | i < CFR_CELLS ensures BitAfter(c, actions, UpdateCfr(c, actions), i, b) {
      ListWrites(c, actions, i, b);
    }
  }

  /** So there is only one such result. */
  lemma RewrittenOnce(c: Cells, actions: seq<Action>, r: Cells, s: Cells)
    requires Rewritten(c, actions, r) && Rewritten(c, actions, s)
    ensures r == s
  {
    hide LastWrite;
    forall i | 0 <= i < CFR_CELLS ensures r[i] == s[i] {
      forall b: nat ensures b in r[i] <==> b in s[i] {
        assert BitAfter(c, actions, r, i, b) && BitAfter(c, actions, s, i, b);
      }
    }
  }
}
