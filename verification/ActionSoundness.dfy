/**
 Megaflow soundness of the action translation: two packets that agree on the
 mask one of them produces get the same kernel actions, statistics and mask.

 The invariant over the two runs: wherever the current keys differ, the original
 keys differ in the same bit.
 */
module ActionSoundness {
  import opened Cells
  import opened Keys
  import opened Actions

  /** The bits where c1 and c2 differ are bits where k1 and k2 differ. */
  predicate Close(c1: Cells, c2: Cells, k1: Cells, k2: Cells) {
    |c1| == |c2| == |k1| == |k2| && forall i :: 0 <= i < |k1| ==> Xor(c1[i], c2[i]) <= Xor(k1[i], k2[i])
  }

  /** Two runs in step: same bookkeeping, same output so far, keys still close. */
  predicate Twins(x1: Context, x2: Context, k1: Cells, k2: Cells) {
    && Fits(x1) && Fits(x2) && Sized(k1) && Sized(k2)
    && x1.modified == x2.modified
    && x1.key.populated == x2.key.populated
    && x1.mask == x2.mask
    && x1.msg == x2.msg
    && Close(x1.key.cells, x2.key.cells, k1, k2)
  }

  /** k1 and k2 agree on the (final) mask m. */
  predicate Covered(k1: Cells, k2: Cells, m: Cells) {
    InWidth(k1) && InWidth(k2) && Agree(k1, k2, m)
  }

  // ---- set-field -----------------------------------------------------------

  lemma XorOverwrite(a: Bits, b: Bits, clear: Bits, v: Bits)
    ensures Xor((a - clear) + v, (b - clear) + v) <= Xor(a, b)
  {
  }

  lemma SetBitsTwins(x1: Context, x2: Context, a: Attr, i: nat, clear: Bits, v: Bits, k1: Cells, k2: Cells)
    requires Twins(x1, x2, k1, k2) && i < CELLS
    ensures Twins(SetBits(x1, a, i, clear, v), SetBits(x2, a, i, clear, v), k1, k2)
  {
    hide Xor;
    XorOverwrite(x1.key.cells[i], x2.key.cells[i], clear, v);
    XorTrans(x1.key.cells[i], x2.key.cells[i], clear, v, k1[i], k2[i]);
  }

  lemma XorTrans(a: Bits, b: Bits, clear: Bits, v: Bits, c: Bits, d: Bits)
    requires Xor(a, b) <= Xor(c, d)
    ensures Xor((a - clear) + v, (b - clear) + v) <= Xor(c, d)
  {
    XorOverwrite(a, b, clear, v);
  }

  lemma XorSame(v: Bits, c: Bits, d: Bits)
    ensures Xor(v, v) <= Xor(c, d)
  {
  }

  lemma SetCellTwins(x1: Context, x2: Context, a: Attr, i: nat, v: Bits, k1: Cells, k2: Cells)
    requires Twins(x1, x2, k1, k2) && i < CELLS
    ensures Twins(SetCell(x1, a, i, v), SetCell(x2, a, i, v), k1, k2)
  {
    hide Xor;
    XorSame(v, k1[i], k2[i]);
  }

  lemma SetPortTwins(x1: Context, x2: Context, a: Attr, i: nat, hi: Bits, lo: Bits, k1: Cells, k2: Cells)
    requires Twins(x1, x2, k1, k2) && i + 1 < CELLS
    ensures Twins(SetPort(x1, a, i, hi, lo), SetPort(x2, a, i, hi, lo), k1, k2)
  {
    hide Close, SetCell;
    SetCellTwins(x1, x2, a, i, hi, k1, k2);
    SetCellTwins(SetCell(x1, a, i, hi), SetCell(x2, a, i, hi), a, i + 1, lo, k1, k2);
  }

  lemma SetTciTwins(x1: Context, x2: Context, t1: Bits, t2: Bits, k1: Cells, k2: Cells)
    requires Twins(x1, x2, k1, k2) && Xor(t1, t2) <= Xor(k1[C_VLAN], k2[C_VLAN])
    ensures Twins(SetTci(x1, t1), SetTci(x2, t2), k1, k2)
  {
    hide Xor;
  }

  /** A tag rewritten from close tags stays close. */
  lemma TciClose(t1: Bits, t2: Bits, keep: Bits, v: Bits)
    ensures Xor((t1 * keep) + v, (t2 * keep) + v) <= Xor(t1, t2)
  {
  }

  lemma TagForms(t: Bits, v: Bits)
    ensures WithVid(t, v) == (t * PCP) + ((v * VID) + CFI)
    ensures WithPcp(t, v) == (t * VID) + (PcpBits(v) + CFI)
  {
    hide CFI, VID, PCP, PcpBits;
  }

  lemma WithVidClose(t1: Bits, t2: Bits, v: Bits, c: Bits, d: Bits)
    requires Xor(t1, t2) <= Xor(c, d)
    ensures Xor(WithVid(t1, v), WithVid(t2, v)) <= Xor(c, d)
    ensures Xor(WithPcp(t1, v), WithPcp(t2, v)) <= Xor(c, d)
  {
    hide CFI, VID, PCP, PcpBits, Xor, WithVid, WithPcp;
    TagForms(t1, v);
    TagForms(t2, v);
    TciClose(t1, t2, PCP, (v * VID) + CFI);
    TciClose(t1, t2, VID, PcpBits(v) + CFI);
  }

  lemma CurrentTciClose(x1: Context, x2: Context, k1: Cells, k2: Cells)
    requires Twins(x1, x2, k1, k2)
    ensures Xor(CurrentTci(x1), CurrentTci(x2)) <= Xor(k1[C_VLAN], k2[C_VLAN])
  {
    assert Xor(x1.key.cells[C_VLAN], x2.key.cells[C_VLAN]) <= Xor(k1[C_VLAN], k2[C_VLAN]);
  }

  lemma VlanTwins(x1: Context, x2: Context, f: Field, k1: Cells, k2: Cells)
    requires Twins(x1, x2, k1, k2) && (f.VlanVid? || f.VlanPcp? || f.PopVlan? || f.PushVlan?)
    ensures Twins(SetField(x1, f), SetField(x2, f), k1, k2)
  {
    hide Close, Xor, CFI, VID, PCP, WithVid, WithPcp;
    var t1, t2 := CurrentTci(x1), CurrentTci(x2);
    CurrentTciClose(x1, x2, k1, k2);
    match f {
      case VlanVid(v) =>
        WithVidClose(t1, t2, v, k1[C_VLAN], k2[C_VLAN]);
        SetTciTwins(x1, x2, WithVid(t1, v), WithVid(t2, v), k1, k2);
      case VlanPcp(v) =>
        WithVidClose(t1, t2, v, k1[C_VLAN], k2[C_VLAN]);
        SetTciTwins(x1, x2, WithPcp(t1, v), WithPcp(t2, v), k1, k2);
      case PopVlan =>
      case PushVlan =>
        XorSame(CFI, k1[C_VLAN], k2[C_VLAN]);
        SetTciTwins(x1, x2, CFI, CFI, k1, k2);
    }
  }

  lemma TransportTwins(x1: Context, x2: Context, f: Field, k1: Cells, k2: Cells)
    requires Twins(x1, x2, k1, k2) && (f.TcpDst? || f.TcpSrc? || f.UdpDst? || f.UdpSrc? || f.TpDst? || f.TpSrc?)
    ensures Twins(SetField(x1, f), SetField(x2, f), k1, k2)
  {
    hide Close, SetCell, SetPort;
    match f {
      case TcpDst(hi, lo) => SetPortTwins(x1, x2, TCP, C_T2, hi, lo, k1, k2);
      case TcpSrc(hi, lo) => SetPortTwins(x1, x2, TCP, C_T0, hi, lo, k1, k2);
      case UdpDst(hi, lo) => SetPortTwins(x1, x2, UDP, C_T2, hi, lo, k1, k2);
      case UdpSrc(hi, lo) => SetPortTwins(x1, x2, UDP, C_T0, hi, lo, k1, k2);
      case TpDst(hi, lo) =>
        SetPortTwins(x1, x2, TCP, C_T2, hi, lo, k1, k2);
        SetPortTwins(SetPort(x1, TCP, C_T2, hi, lo), SetPort(x2, TCP, C_T2, hi, lo), UDP, C_T2, hi, lo, k1, k2);
      case TpSrc(hi, lo) =>
        SetPortTwins(x1, x2, TCP, C_T0, hi, lo, k1, k2);
        SetPortTwins(SetPort(x1, TCP, C_T0, hi, lo), SetPort(x2, TCP, C_T0, hi, lo), UDP, C_T0, hi, lo, k1, k2);
    }
  }

  lemma SetFieldTwins(x1: Context, x2: Context, f: Field, k1: Cells, k2: Cells)
    requires Twins(x1, x2, k1, k2)
    ensures Twins(SetField(x1, f), SetField(x2, f), k1, k2)
  {
    hide Close, SetCell, SetBits, SetPort;
    match f {
      case EthDst(v) => SetCellTwins(x1, x2, ETHERNET, C_ETH_DST, v, k1, k2);
      case EthSrc(v) => SetCellTwins(x1, x2, ETHERNET, C_ETH_SRC, v, k1, k2);
      case Ipv4Dst(v) => SetCellTwins(x1, x2, IPV4, C_IP4_DST, v, k1, k2);
      case Ipv4Src(b0, b1, b2, b3) =>
        SetPortTwins(x1, x2, IPV4, C_IP4_SRC, b0, b1, k1, k2);
        SetPortTwins(SetPort(x1, IPV4, C_IP4_SRC, b0, b1), SetPort(x2, IPV4, C_IP4_SRC, b0, b1),
                     IPV4, C_IP4_SRC + 2, b2, b3, k1, k2);
      case IpDscp(v) =>
        SetBitsTwins(x1, x2, IPV4, C_IP4_TOS, DSCP, v, k1, k2);
        SetBitsTwins(SetBits(x1, IPV4, C_IP4_TOS, DSCP, v), SetBits(x2, IPV4, C_IP4_TOS, DSCP, v),
                     IPV6, C_IP6_TCLASS, DSCP, v, k1, k2);
      case IpEcn(v) =>
        SetBitsTwins(x1, x2, IPV4, C_IP4_TOS, ECN, v, k1, k2);
        SetBitsTwins(SetBits(x1, IPV4, C_IP4_TOS, ECN, v), SetBits(x2, IPV4, C_IP4_TOS, ECN, v),
                     IPV6, C_IP6_TCLASS, ECN, v, k1, k2);
      case TcpDst(_, _) => TransportTwins(x1, x2, f, k1, k2);
      case TcpSrc(_, _) => TransportTwins(x1, x2, f, k1, k2);
      case UdpDst(_, _) => TransportTwins(x1, x2, f, k1, k2);
      case UdpSrc(_, _) => TransportTwins(x1, x2, f, k1, k2);
      case TpDst(_, _) => TransportTwins(x1, x2, f, k1, k2);
      case TpSrc(_, _) => TransportTwins(x1, x2, f, k1, k2);
      case NwTtl(v) =>
        SetCellTwins(x1, x2, IPV4, C_IP4_TTL, v, k1, k2);
        SetCellTwins(SetCell(x1, IPV4, C_IP4_TTL, v), SetCell(x2, IPV4, C_IP4_TTL, v), IPV6, C_IP6_HLIMIT, v, k1, k2);
      case Ipv6Dst(v) => SetCellTwins(x1, x2, IPV6, C_IP6_DST, v, k1, k2);
      case Ipv6Src(v) => SetCellTwins(x1, x2, IPV6, C_IP6_SRC, v, k1, k2);
      case Ipv6Flabel(v) => SetCellTwins(x1, x2, IPV6, C_IP6_LABEL, v, k1, k2);
      case Priority(v) => PriorityTwins(x1, x2, v, k1, k2);
      case _ => VlanTwins(x1, x2, f, k1, k2);
    }
  }

  lemma PriorityTwins(x1: Context, x2: Context, v: Bits, k1: Cells, k2: Cells)
    requires Twins(x1, x2, k1, k2)
    ensures Twins(SetField(x1, Priority(v)), SetField(x2, Priority(v)), k1, k2)
  {
    hide Xor;
    XorSame(v, k1[C_PRIORITY], k2[C_PRIORITY]);
  }

  // ---- committing ----------------------------------------------------------

  /** Where the final mask is all ones, close keys are equal. */
  lemma OnesEqual(x1: Context, x2: Context, k1: Cells, k2: Cells, m: Cells, i: nat)
    requires Twins(x1, x2, k1, k2) && Covered(k1, k2, m) && i < CELLS && Ones(Width(i)) <= m[i]
    ensures x1.key.cells[i] == x2.key.cells[i]
  {
    assert CellAgree(k1[i], k2[i], m[i]);
    assert k1[i] * m[i] == k1[i] && k2[i] * m[i] == k2[i];
    assert Xor(x1.key.cells[i], x2.key.cells[i]) <= Xor(k1[i], k2[i]) == {};
    XorEmpty(x1.key.cells[i], x2.key.cells[i]);
  }

  lemma XorEmpty(a: Bits, b: Bits)
    requires Xor(a, b) <= {}
    ensures a == b
  {
    forall x ensures x in a <==> x in b {
      assert x !in Xor(a, b);
    }
  }

  lemma SliceEqual(x1: Context, x2: Context, a: Attr, k1: Cells, k2: Cells, m: Cells)
    requires Twins(x1, x2, k1, k2) && Covered(k1, k2, m) && Below(WithOnes(x1.mask, a), m)
    ensures Slice(x1.key.cells, a) == Slice(x2.key.cells, a)
  {
    AttrRange(a);
    forall i | First(a) <= i < Past(a) ensures x1.key.cells[i] == x2.key.cells[i] {
      assert Ones(Width(i)) <= WithOnes(x1.mask, a)[i] <= m[i];
      OnesEqual(x1, x2, k1, k2, m, i);
    }
    SliceExtends(x1.key.cells, x2.key.cells, a);
  }

  lemma SliceExtends(c1: Cells, c2: Cells, a: Attr)
    requires Sized(c1) && Sized(c2) && Past(a) <= CELLS
    requires forall i :: First(a) <= i < Past(a) ==> c1[i] == c2[i]
    ensures Slice(c1, a) == Slice(c2, a)
  {
    var s1, s2 := Slice(c1, a), Slice(c2, a);
    forall j | 0 <= j < |s1| ensures s1[j] == s2[j] {
      assert s1[j] == c1[First(a) + j] && s2[j] == c2[First(a) + j];
    }
  }

  lemma CommitFieldTwins(x1: Context, x2: Context, a: Attr, k1: Cells, k2: Cells, m: Cells)
    requires Twins(x1, x2, k1, k2) && Covered(k1, k2, m) && Below(CommitField(x1, a).mask, m)
    ensures Twins(CommitField(x1, a), CommitField(x2, a), k1, k2)
  {
    hide Close, Covered, WithOnes, Slice;
    if a in x1.modified {
      SliceEqual(x1, x2, a, k1, k2, m);
    }
  }

  lemma {:induction false} CommitFieldsTwins(x1: Context, x2: Context, n: nat, k1: Cells, k2: Cells, m: Cells)
    requires Twins(x1, x2, k1, k2) && Covered(k1, k2, m)
    requires n <= |FIELDS| && Below(CommitFields(x1, n).mask, m)
    ensures Twins(CommitFields(x1, n), CommitFields(x2, n), k1, k2)
  {
    hide Close, Covered, CommitField;
    if n > 0 {
      CommitFieldsTwins(x1, x2, n - 1, k1, k2, m);
      CommitFieldTwins(CommitFields(x1, n - 1), CommitFields(x2, n - 1), FIELDS[n - 1], k1, k2, m);
    }
  }

  lemma CommitVlanTwins(x1: Context, x2: Context, k1: Cells, k2: Cells, m: Cells)
    requires Twins(x1, x2, k1, k2) && Covered(k1, k2, m) && Below(CommitVlan(x1).mask, m)
    ensures Twins(CommitVlan(x1), CommitVlan(x2), k1, k2)
  {
    hide Close, Covered;
    if VLAN in x1.modified {
      OnesEqual(x1, x2, k1, k2, m, C_VLAN);
    }
  }

  lemma CommitTwins(x1: Context, x2: Context, k1: Cells, k2: Cells, m: Cells)
    requires Twins(x1, x2, k1, k2) && Covered(k1, k2, m) && Below(Commit(x1).mask, m)
    ensures Twins(Commit(x1), Commit(x2), k1, k2)
  {
    hide Close, Covered, CommitVlan, CommitFields;
    if x1.modified != {} {
      CommitVlanTwins(x1, x2, k1, k2, m);
      CommitFieldsTwins(CommitVlan(x1), CommitVlan(x2), |FIELDS|, k1, k2, m);
    }
  }

  lemma ApplyTwins(x1: Context, x2: Context, a: Action, pid: nat, k1: Cells, k2: Cells, m: Cells)
    requires !a.DecNwTtl? && !a.GroupAction?
    requires Twins(x1, x2, k1, k2) && Covered(k1, k2, m) && Below(Apply(x1, a, pid).mask, m)
    ensures Twins(Apply(x1, a, pid), Apply(x2, a, pid), k1, k2)
  {
    hide Close, Covered, Commit, SetField;
    if a.Set? {
      SetFieldTwins(x1, x2, a.field, k1, k2);
    } else {
      CommitTwins(x1, x2, k1, k2, m);
      if a.InPort? {
        OnesEqual(x1, x2, k1, k2, m, C_IN_PORT);
      }
    }
  }

  // ---- decrementing the TTL ------------------------------------------------

  /** The mask says everything about a header's TTL, wherever that header is populated. */
  predicate TtlCovered(populated: set<Attr>, m: Cells) {
    && Sized(m)
    && (IPV4 in populated ==> Ones(Width(C_IP4_TTL)) <= m[C_IP4_TTL])
    && (IPV6 in populated ==> Ones(Width(C_IP6_HLIMIT)) <= m[C_IP6_HLIMIT])
  }

  lemma DecTtlOfTwins(x1: Context, x2: Context, a: Attr, i: nat, k1: Cells, k2: Cells, m: Cells)
    requires Twins(x1, x2, k1, k2) && Covered(k1, k2, m) && i < CELLS
    requires a in x1.key.populated ==> Ones(Width(i)) <= m[i]
    ensures DecTtlOf(x1, a, i).1 == DecTtlOf(x2, a, i).1
    ensures Twins(DecTtlOf(x1, a, i).0, DecTtlOf(x2, a, i).0, k1, k2)
  {
    hide Covered, Xor, Decrement;
    if a in x1.key.populated {
      OnesEqual(x1, x2, k1, k2, m, i);
      XorSame(Decrement(x1.key.cells[i], 8), k1[i], k2[i]);
    }
  }

  lemma DecTtlTwins(x1: Context, x2: Context, k1: Cells, k2: Cells, m: Cells)
    requires Twins(x1, x2, k1, k2) && Covered(k1, k2, m) && TtlCovered(x1.key.populated, m)
    ensures DecTtl(x1).1 == DecTtl(x2).1
    ensures Twins(DecTtl(x1).0, DecTtl(x2).0, k1, k2)
  {
    hide Close, Covered;
    DecTtlOfTwins(x1, x2, IPV4, C_IP4_TTL, k1, k2, m);
    var y1, y2 := DecTtlOf(x1, IPV4, C_IP4_TTL).0, DecTtlOf(x2, IPV4, C_IP4_TTL).0;
    DecTtlOfTwins(y1, y2, IPV6, C_IP6_HLIMIT, k1, k2, m);
  }

  // ---- action lists --------------------------------------------------------

  /** DEC_NW_TTL occurs somewhere in the list or in a bucket of one of its groups. */
  predicate HasDecTtl(actions: seq<Action>)
    decreases actions, 0
  {
    exists i :: 0 <= i < |actions| &&
      match actions[i]
      case DecNwTtl => true
      case GroupAction(_, buckets) => BucketsHaveDecTtl(buckets)
      case _ => false
  }

  predicate BucketsHaveDecTtl(buckets: seq<Bucket>)
    decreases buckets, 1
  {
    exists j :: 0 <= j < |buckets| && HasDecTtl(buckets[j].actions)
  }

  predicate ActionHasDecTtl(a: Action) {
    match a
    case DecNwTtl => true
    case GroupAction(_, buckets) => BucketsHaveDecTtl(buckets)
    case _ => false
  }

  /** What a run needs of the final mask, when it may decrement a TTL. */
  predicate DecOk(has: bool, x: Context, m: Cells) {
    has ==> TtlCovered(x.key.populated, m)
  }

  lemma DecOkStable(has: bool, x: Context, y: Context, m: Cells)
    requires DecOk(has, x, m) && SameHeaders(y, x)
    ensures DecOk(has, y, m)
  {
    assert IPV4 in y.key.populated <==> IPV4 in y.key.populated - {VLAN};
    assert IPV4 in x.key.populated <==> IPV4 in x.key.populated - {VLAN};
    assert IPV6 in y.key.populated <==> IPV6 in y.key.populated - {VLAN};
    assert IPV6 in x.key.populated <==> IPV6 in x.key.populated - {VLAN};
  }

  predicate TwinRuns(r1: Run, r2: Run, k1: Cells, k2: Cells) {
    Twins(r1.ctx, r2.ctx, k1, k2) && r1.stats == r2.stats
  }

  lemma HeadTail(actions: seq<Action>)
    requires actions != []
    ensures ActionHasDecTtl(actions[0]) || HasDecTtl(actions[1..]) ==> HasDecTtl(actions)
  {
    if i :| 0 <= i < |actions[1..]| && ActionHasDecTtl(actions[1..][i]) {
      assert ActionHasDecTtl(actions[i + 1]);
    }
  }

  /** Two runs over the same list stay twins as long as the packets agree on the final mask. */
  lemma {:induction false} TranslateTwins(r1: Run, r2: Run, actions: seq<Action>, env: Env,
                                          k1: Cells, k2: Cells, m: Cells)
    requires TwinRuns(r1, r2, k1, k2) && Covered(k1, k2, m)
    requires Below(Translate(r1, actions, env).ctx.mask, m)
    requires DecOk(HasDecTtl(actions), r1.ctx, m)
    ensures TwinRuns(Translate(r1, actions, env), Translate(r2, actions, env), k1, k2)
    decreases actions, 0
  {
    if actions != [] {
      hide Twins, Covered, Apply, DecTtl, ProcessGroup, HasDecTtl;
      TwinsFit(r1.ctx, r2.ctx, k1, k2);
      HeadTail(actions);
      var a := actions[0];
      if a.DecNwTtl? {
        DecTtlTwins(r1.ctx, r2.ctx, k1, k2, m);
        var (y1, drop) := DecTtl(r1.ctx);
        var y2 := DecTtl(r2.ctx).0;
        if !drop {
          TwinsFit(y1, y2, k1, k2);
          DecOkStable(HasDecTtl(actions[1..]), r1.ctx, y1, m);
          TranslateTwins(r1.(ctx := y1), r2.(ctx := y2), actions[1..], env, k1, k2, m);
        }
      } else if a.GroupAction? {
        var q1, q2 := ProcessGroup(r1, a.gtype, a.buckets, env), ProcessGroup(r2, a.gtype, a.buckets, env);
        GroupTwins(r1, r2, a.gtype, a.buckets, env, k1, k2, m);
        TwinsFit(q1.ctx, q2.ctx, k1, k2);
        DecOkStable(HasDecTtl(actions[1..]), r1.ctx, q1.ctx, m);
        TranslateTwins(q1, q2, actions[1..], env, k1, k2, m);
      } else {
        var y1, y2 := Apply(r1.ctx, a, env.pktinPid), Apply(r2.ctx, a, env.pktinPid);
        ApplyTwins(r1.ctx, r2.ctx, a, env.pktinPid, k1, k2, m);
        TwinsFit(y1, y2, k1, k2);
        DecOkStable(HasDecTtl(actions[1..]), r1.ctx, y1, m);
        TranslateTwins(r1.(ctx := y1), r2.(ctx := y2), actions[1..], env, k1, k2, m);
      }
    }
  }

  lemma TwinsFit(x1: Context, x2: Context, k1: Cells, k2: Cells)
    requires Twins(x1, x2, k1, k2)
    ensures Fits(x1) && Fits(x2)
  {
  }

  lemma {:induction false} BucketTwins(r1: Run, r2: Run, b: Bucket, env: Env, k1: Cells, k2: Cells, m: Cells)
    requires TwinRuns(r1, r2, k1, k2) && Covered(k1, k2, m)
    requires Below(ProcessBucket(r1, b, env).ctx.mask, m)
    requires DecOk(HasDecTtl(b.actions), r1.ctx, m)
    ensures TwinRuns(ProcessBucket(r1, b, env), ProcessBucket(r2, b, env), k1, k2)
    decreases b, 1
  {
    TranslateTwins(r1, r2, b.actions, env, k1, k2, m);
  }

  lemma {:induction false} BucketsTwins(r1: Run, r2: Run, bs: seq<Bucket>, env: Env, k1: Cells, k2: Cells, m: Cells)
    requires TwinRuns(r1, r2, k1, k2) && Covered(k1, k2, m)
    requires Below(ProcessBuckets(r1, bs, env).ctx.mask, m)
    requires DecOk(BucketsHaveDecTtl(bs), r1.ctx, m)
    ensures TwinRuns(ProcessBuckets(r1, bs, env), ProcessBuckets(r2, bs, env), k1, k2)
    decreases bs, 2
  {
    if bs != [] {
      hide Twins, Covered, ProcessBucket, HasDecTtl;
      TwinsFit(r1.ctx, r2.ctx, k1, k2);
      var q1, q2 := ProcessBucket(r1, bs[0], env), ProcessBucket(r2, bs[0], env);
      BucketTwins(r1, r2, bs[0], env, k1, k2, m);
      TwinsFit(q1.ctx, q2.ctx, k1, k2);
      DecOkStable(BucketsHaveDecTtl(bs[1..]), r1.ctx, q1.ctx, m);
      BucketsTwins(q1, q2, bs[1..], env, k1, k2, m);
    }
  }

  lemma {:induction false} GroupTwins(r1: Run, r2: Run, gtype: GroupType, bs: seq<Bucket>, env: Env,
                                      k1: Cells, k2: Cells, m: Cells)
    requires TwinRuns(r1, r2, k1, k2) && Covered(k1, k2, m)
    requires Below(ProcessGroup(r1, gtype, bs, env).ctx.mask, m)
    requires DecOk(BucketsHaveDecTtl(bs), r1.ctx, m)
    ensures TwinRuns(ProcessGroup(r1, gtype, bs, env), ProcessGroup(r2, gtype, bs, env), k1, k2)
    decreases bs, 3
  {
    hide Twins, Covered, ProcessBucket, ProcessBuckets, HasDecTtl;
    TwinsFit(r1.ctx, r2.ctx, k1, k2);
    if bs != [] {
      match gtype {
        case Select => BucketTwins(r1, r2, bs[env.hash % |bs|], env, k1, k2, m);
        case Indirect => BucketTwins(r1, r2, bs[0], env, k1, k2, m);
        case All => BucketsTwins(r1, r2, bs, env, k1, k2, m);
        case FastFailover => BucketTwins(r1, r2, bs[0], env, k1, k2, m);
        case OtherType =>
      }
    }
  }

  // ---- the theorem ---------------------------------------------------------

  function Start(k: Key): Context {
    Context(k, {}, Zeroes(CELLS), [])
  }

  /**
   Emission is determined by the masked bits: if k2 has k1's attributes and agrees
   with it on the mask k1's run produces, both runs emit the same kernel actions, the
   same statistics and the same mask.  A list that may decrement the TTL needs that
   mask to cover the TTL.
   */
  lemma EmissionDeterminedByMask(k1: Key, k2: Key, actions: seq<Action>, env: Env)
    requires InWidth(k1.cells) && InWidth(k2.cells) && k1.populated == k2.populated
    requires var m := Translate(Run(Start(k1), []), actions, env).ctx.mask;
      Agree(k1.cells, k2.cells, m) && (HasDecTtl(actions) ==> TtlCovered(k1.populated, m))
    ensures var r1, r2 := Translate(Run(Start(k1), []), actions, env), Translate(Run(Start(k2), []), actions, env);
      r1.ctx.msg == r2.ctx.msg && r1.ctx.mask == r2.ctx.mask && r1.stats == r2.stats
  {
    TranslateTwins(Run(Start(k1), []), Run(Start(k2), []), actions, env, k1.cells, k2.cells,
                   Translate(Run(Start(k1), []), actions, env).ctx.mask);
  }

  // ---- decrementing the TTL: exactly when it is sound -----------------------

  /** Every packet that agrees with k on the mask of k's run gets the same result. */
  ghost predicate SoundFor(k: Key, actions: seq<Action>, env: Env)
    requires Sized(k.cells)
  {
    var r := Translate(Run(Start(k), []), actions, env);
    forall k2: Key :: InWidth(k2.cells) && k2.populated == k.populated && Agree(k.cells, k2.cells, r.ctx.mask) ==>
      var r2 := Translate(Run(Start(k2), []), actions, env);
      r2.ctx.msg == r.ctx.msg && r2.ctx.mask == r.ctx.mask && r2.stats == r.stats
  }

  function DecThenOutput(port: Bits, rest: seq<Action>): seq<Action> {
    [DecNwTtl, Output(port)] + rest
  }

  lemma DecThenOutputRuns(r: Run, port: Bits, rest: seq<Action>, env: Env)
    requires Fits(r.ctx)
    ensures var (y, drop) := DecTtl(r.ctx);
      Translate(r, DecThenOutput(port, rest), env) ==
      if drop then r.(ctx := y) else Translate(r.(ctx := OutputTo(y, port)), rest, env)
  {
    var a := DecThenOutput(port, rest);
    assert a[1..][0] == Output(port) && a[1..][1..] == rest;
  }

  function FieldIndex(a: Attr): (n: nat)
    requires a == IPV4 || a == IPV6
    ensures n < |FIELDS| && FIELDS[n] == a
  {
    if a == IPV4 then 5 else 6
  }

  /** An output after a modification of an IP header puts the whole header in the mask. */
  lemma OutputMasksHeader(x: Context, port: Bits, a: Attr)
    requires Fits(x) && a in x.modified && (a == IPV4 || a == IPV6)
    ensures Below(WithOnes(x.mask, a), OutputTo(x, port).mask)
  {
    var y, n := CommitVlan(x), FieldIndex(a);
    CommitFieldsKeeps(y, n);
    var z := CommitFields(y, n);
    assert CommitFields(y, n + 1) == CommitField(z, a);
    CommitFieldsMono(y, n + 1, |FIELDS|);
    hide CommitFields, CommitVlan, FIELDS;
    forall i | 0 <= i < CELLS ensures WithOnes(x.mask, a)[i] <= CommitFields(y, |FIELDS|).mask[i] {
      assert WithOnes(x.mask, a)[i] <= WithOnes(z.mask, a)[i];
    }
  }

  lemma {:induction false} CommitFieldsMono(x: Context, n: nat, p: nat)
    requires Fits(x) && n <= p <= |FIELDS|
    ensures Below(CommitFields(x, n).mask, CommitFields(x, p).mask)
    decreases p
  {
    if n < p {
      CommitFieldsMono(x, n, p - 1);
    }
  }

  /** If the packet has the header, the decrement does not use its TTL up. */
  predicate Survives(k: Key, a: Attr, i: nat)
    requires Sized(k.cells) && i < CELLS
  {
    a in k.populated ==> k.cells[i] != {} && Decrement(k.cells[i], 8) != {}
  }

  lemma DecMarks(k: Key)
    requires Sized(k.cells)
    ensures var (y, drop) := DecTtl(Start(k));
      && (drop <==> !(Survives(k, IPV4, C_IP4_TTL) && Survives(k, IPV6, C_IP6_HLIMIT)))
      && (!drop ==> (IPV4 in k.populated ==> IPV4 in y.modified) && (IPV6 in k.populated ==> IPV6 in y.modified))
  {
    hide Decrement;
  }

  lemma HeaderCell(y: Context, a: Attr, i: nat, port: Bits, m: Cells)
    requires Fits(y) && a in y.modified && (a == IPV4 || a == IPV6) && First(a) <= i < Past(a)
    requires Below(OutputTo(y, port).mask, m)
    ensures Sized(m) && Ones(Width(i)) <= m[i]
  {
    hide OutputTo, Ones, Width;
    OutputMasksHeader(y, port, a);
    assert Ones(Width(i)) <= WithOnes(y.mask, a)[i] <= OutputTo(y, port).mask[i] <= m[i];
  }

  lemma LiveTtlIsSound(k: Key, port: Bits, rest: seq<Action>, env: Env)
    requires InWidth(k.cells) && !DecTtl(Start(k)).1
    ensures SoundFor(k, DecThenOutput(port, rest), env)
  {
    hide Translate, DecTtl, OutputTo, HasDecTtl, Ones, Width;
    var y := DecTtl(Start(k)).0;
    DecMarks(k);
    DecThenOutputRuns(Run(Start(k), []), port, rest, env);
    var m := Translate(Run(Start(k), []), DecThenOutput(port, rest), env).ctx.mask;
    if IPV4 in k.populated {
      HeaderCell(y, IPV4, C_IP4_TTL, port, m);
    }
    if IPV6 in k.populated {
      HeaderCell(y, IPV6, C_IP6_HLIMIT, port, m);
    }
    forall k2: Key | InWidth(k2.cells) && k2.populated == k.populated && Agree(k.cells, k2.cells, m)
      ensures var r, r2 := Translate(Run(Start(k), []), DecThenOutput(port, rest), env),
                           Translate(Run(Start(k2), []), DecThenOutput(port, rest), env);
        r2.ctx.msg == r.ctx.msg && r2.ctx.mask == r.ctx.mask && r2.stats == r.stats
    {
      EmissionDeterminedByMask(k, k2, DecThenOutput(port, rest), env);
    }
  }

  /** The same packet with a TTL and a hop limit of 64. */
  function Revived(k: Key): Key
    requires Sized(k.cells)
  {
    k.(cells := k.cells[C_IP4_TTL := {6}][C_IP6_HLIMIT := {6}])
  }

  lemma RevivedLives(k: Key)
    requires InWidth(k.cells)
    ensures InWidth(Revived(k).cells) && !DecTtl(Start(Revived(k))).1
    ensures Agree(k.cells, Revived(k).cells, Zeroes(CELLS))
  {
    assert {6} <= Ones(Width(C_IP4_TTL)) && {6} <= Ones(Width(C_IP6_HLIMIT));
    SixtyFourMinusOne();
    hide DecTtl, Decrement, Ones, Width;
    DecMarks(Revived(k));
  }

  /** A packet whose TTL or hop limit runs out hides every packet with larger ones. */
  lemma ExpiredTtlIsUnsound(k: Key, port: Bits, rest: seq<Action>, env: Env)
    requires InWidth(k.cells) && DecTtl(Start(k)).1
    ensures !SoundFor(k, DecThenOutput(port, rest), env)
  {
    hide Translate, DecTtl, OutputTo, InWidth, Revived, Agree;
    RevivedFits(k);
    var k2 := Revived(k);
    RevivedLives(k);
    DecThenOutputRuns(Run(Start(k), []), port, rest, env);
    DecThenOutputRuns(Run(Start(k2), []), port, rest, env);
    OutputEmits(DecTtl(Start(k2)).0, port);
    assert |Translate(Run(Start(k2), []), DecThenOutput(port, rest), env).ctx.msg| > 0;
  }

  lemma RevivedFits(k: Key)
    requires InWidth(k.cells)
    ensures Sized(k.cells) && Sized(Revived(k).cells) && Revived(k).populated == k.populated
  {
  }

  lemma OutputEmits(x: Context, port: Bits)
    requires Fits(x)
    ensures |OutputTo(x, port).msg| > 0
  {
  }

  lemma SixtyFourMinusOne()
    ensures Decrement({6}, 8) == {0, 1, 2, 3, 4, 5}
  {
    assert DecrementFrom({6} + {0} + {1} + {2} + {3} + {4} + {5}, 6, 8) == {0, 1, 2, 3, 4, 5};
    assert DecrementFrom({6} + {0} + {1} + {2} + {3}, 4, 8) == {0, 1, 2, 3, 4, 5};
    assert DecrementFrom({6} + {0} + {1}, 2, 8) == {0, 1, 2, 3, 4, 5};
  }

  /**
   Decrementing the TTL before an output is sound at a packet exactly when the TTL and
   the hop limit of the headers it has survive: the early return leaves them unmasked.
   */
  lemma DecTtlSoundExactly(k: Key, port: Bits, rest: seq<Action>, env: Env)
    requires InWidth(k.cells)
    ensures SoundFor(k, DecThenOutput(port, rest), env) <==>
            Survives(k, IPV4, C_IP4_TTL) && Survives(k, IPV6, C_IP6_HLIMIT)
  {
    hide Translate, DecTtl, SoundFor, Survives;
    DecMarks(k);
    if DecTtl(Start(k)).1 {
      ExpiredTtlIsUnsound(k, port, rest, env);
    } else {
      LiveTtlIsSound(k, port, rest, env);
    }
  }
}
