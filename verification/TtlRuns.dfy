/**
 What the TTL of a packet can do to its decision.  Two packets that differ in their TTL
 only are translated in step up to the first decrement.  From there on, until a commit puts
 the whole IP header in the mask, nothing is emitted, and the packet with the larger TTL
 does all that the other does and perhaps more.
 */
module TtlRuns {
  import opened Cells
  import opened Keys
  import opened Actions
  import opened ActionSoundness
  import opened Cfr
  import opened Pipeline
  import opened PipelineSoundness

  // ---- counting down ---------------------------------------------------------

  function Down(u: Bits): Bits {
    if u == {} then {} else Decrement(u, 8)
  }

  lemma {:induction false} ValueZero(v: Bits, b: nat, w: nat)
    requires b <= w
    ensures Value(v, b, w) == 0 <==> forall c :: b <= c < w ==> c !in v
    decreases w - b
  {
    if b < w {
      ValueZero(v, b + 1, w);
    }
  }

  lemma {:induction false} DecrementWithin(v: Bits, b: nat, w: nat)
    requires b <= w && v <= Ones(w)
    ensures DecrementFrom(v, b, w) <= Ones(w)
    decreases w - b
  {
    if b < w && b !in v {
      DecrementWithin(v + {b}, b + 1, w);
    }
  }

  /** A TTL of eight bits, as a number. */
  lemma DownCounts(u: Bits)
    requires u <= Ones(8)
    ensures Down(u) <= Ones(8) && Value(Down(u), 0, 8) == if Value(u, 0, 8) == 0 then 0 else Value(u, 0, 8) - 1
    ensures u == {} <==> Value(u, 0, 8) == 0
  {
    ValueZero(u, 0, 8);
    DecrementWithin(u, 0, 8);
    if u != {} {
      var b :| b in u;
      DecrementIsMinusOne(u, 0, 8);
    }
  }

  /** Not more life than 'v'. */
  predicate Le(u: Bits, v: Bits) {
    u == v || u == {} || (u <= Ones(8) && v <= Ones(8) && Value(u, 0, 8) <= Value(v, 0, 8))
  }

  lemma DownLe(u: Bits, v: Bits)
    requires Le(u, v)
    ensures Le(Down(u), Down(v)) && (Down(v) == {} ==> Down(u) == {})
  {
    hide Ones, Value, Down;
    if u <= Ones(8) && v <= Ones(8) {
      DownCounts(u);
      DownCounts(v);
      DownCounts(Down(u));
      DownCounts(Down(v));
    } else if u == {} {
      NoneDown();
    }
  }

  lemma NoneDown()
    ensures Down({}) == {}
  {
  }

  lemma {:induction false} ValueBelow(v: Bits, b: nat, w: nat)
    requires b <= w
    ensures Value(v, b, w) <= Value(Ones(w), b, w)
    decreases w - b
  {
    if b < w {
      ValueBelow(v, b + 1, w);
    }
  }

  lemma Extremes(v: Bits)
    requires v <= Ones(8)
    ensures Le({}, v) && Le(v, Ones(8))
  {
    ValueBelow(v, 0, 8);
  }

  // ---- contexts ----------------------------------------------------------------

  /** The headers with a TTL, and its cell. */
  predicate IsTtl(a: Attr, i: nat) {
    (a == IPV4 && i == C_IP4_TTL) || (a == IPV6 && i == C_IP6_HLIMIT)
  }

  /** The packet's only IP header. */
  predicate OnlyIp(p: set<Attr>, a: Attr) {
    a in p && !(IPV4 in p && IPV6 in p)
  }

  predicate Uncovered(m: Cells, i: nat) {
    Sized(m) && i < CELLS && !(Ones(Width(i)) <= m[i])
  }

  /** The header is modified: a commit will put it in the mask. */
  predicate Frozen(x: Context, a: Attr) {
    Fits(x) && OnlyIp(x.key.populated, a) && a in x.modified
  }

  /** The same but for one cell. */
  predicate Lockstep(x: Context, y: Context, a: Attr, i: nat) {
    && Fits(x) && Fits(y) && OnlyIp(x.key.populated, a)
    && x.key.populated == y.key.populated && x.modified == y.modified
    && forall j :: 0 <= j < CELLS && j != i ==> x.key.cells[j] == y.key.cells[j]
  }

  predicate Behind(x: Context, y: Context, a: Attr, i: nat) {
    && IsTtl(a, i) && x.msg == y.msg && x.mask == y.mask
    && (Lockstep(x, y, a, i) || (Frozen(x, a) && Frozen(y, a)))
    && Le(x.key.cells[i], y.key.cells[i])
  }

  lemma CoveredStays(m: Cells, n: Cells, i: nat)
    requires Below(m, n) && Uncovered(n, i)
    ensures Uncovered(m, i)
  {
  }

  // ---- set-field ---------------------------------------------------------------

  lemma SetFieldCell(x: Context, f: Field, a: Attr, i: nat)
    requires Fits(x) && IsTtl(a, i) && OnlyIp(x.key.populated, a)
    ensures var r := SetField(x, f);
      && r.key.cells[i] == (if f.NwTtl? then f.ttl else x.key.cells[i])
      && x.modified <= r.modified && OnlyIp(r.key.populated, a)
  {
    hide WithVid, WithPcp, PcpBits, CurrentTci;
  }

  lemma SetCellLockstep(x: Context, y: Context, b: Attr, j: nat, v: Bits, a: Attr, i: nat)
    requires Lockstep(x, y, a, i) && j < CELLS
    ensures Lockstep(SetCell(x, b, j, v), SetCell(y, b, j, v), a, i)
  {
  }

  lemma SetPortLockstep(x: Context, y: Context, b: Attr, j: nat, hi: Bits, lo: Bits, a: Attr, i: nat)
    requires Lockstep(x, y, a, i) && j + 1 < CELLS
    ensures Lockstep(SetPort(x, b, j, hi, lo), SetPort(y, b, j, hi, lo), a, i)
  {
    hide SetCell;
    assert Fits(x) && Fits(y);
    SetCellLockstep(x, y, b, j, hi, a, i);
    SetCellLockstep(SetCell(x, b, j, hi), SetCell(y, b, j, hi), b, j + 1, lo, a, i);
  }

  lemma TosLockstep(x: Context, y: Context, clear: Bits, v: Bits, a: Attr, i: nat)
    requires Lockstep(x, y, a, i) && IsTtl(a, i)
    ensures var x4, y4 := SetBits(x, IPV4, C_IP4_TOS, clear, v), SetBits(y, IPV4, C_IP4_TOS, clear, v);
      Lockstep(SetBits(x4, IPV6, C_IP6_TCLASS, clear, v), SetBits(y4, IPV6, C_IP6_TCLASS, clear, v), a, i)
  {
    hide SetCell;
    assert Fits(x) && Fits(y) && x.key.cells[C_IP4_TOS] == y.key.cells[C_IP4_TOS];
    var t := (x.key.cells[C_IP4_TOS] - clear) + v;
    SetCellLockstep(x, y, IPV4, C_IP4_TOS, t, a, i);
    var x4, y4 := SetCell(x, IPV4, C_IP4_TOS, t), SetCell(y, IPV4, C_IP4_TOS, t);
    assert x4.key.cells[C_IP6_TCLASS] == y4.key.cells[C_IP6_TCLASS];
    SetCellLockstep(x4, y4, IPV6, C_IP6_TCLASS, (x4.key.cells[C_IP6_TCLASS] - clear) + v, a, i);
  }

  lemma VlanLockstep(x: Context, y: Context, f: Field, a: Attr, i: nat)
    requires Lockstep(x, y, a, i) && IsTtl(a, i)
    requires f.VlanVid? || f.VlanPcp? || f.PopVlan? || f.PushVlan? || f.Priority?
    ensures Lockstep(SetField(x, f), SetField(y, f), a, i)
  {
    hide WithVid, WithPcp, PcpBits;
  }

  lemma PortsLockstep(x: Context, y: Context, f: Field, a: Attr, i: nat)
    requires Lockstep(x, y, a, i) && IsTtl(a, i)
    requires f.TcpDst? || f.TcpSrc? || f.UdpDst? || f.UdpSrc? || f.TpDst? || f.TpSrc?
    ensures Lockstep(SetField(x, f), SetField(y, f), a, i)
  {
    assert Fits(x) && Fits(y);
    hide SetCell, SetPort, Lockstep, Fits;
    var j := if f.TcpDst? || f.UdpDst? || f.TpDst? then C_T2 else C_T0;
    if f.UdpDst? || f.UdpSrc? {
      SetPortLockstep(x, y, UDP, j, f.hi, f.lo, a, i);
    } else {
      SetPortLockstep(x, y, TCP, j, f.hi, f.lo, a, i);
      SetPortLockstep(SetPort(x, TCP, j, f.hi, f.lo), SetPort(y, TCP, j, f.hi, f.lo), UDP, j, f.hi, f.lo, a, i);
    }
  }

  lemma Ipv4Lockstep(x: Context, y: Context, f: Field, a: Attr, i: nat)
    requires Lockstep(x, y, a, i) && IsTtl(a, i) && (f.Ipv4Src? || f.NwTtl? || f.IpDscp? || f.IpEcn?)
    ensures Lockstep(SetField(x, f), SetField(y, f), a, i)
  {
    assert Fits(x) && Fits(y);
    hide SetCell, SetPort, SetBits, Lockstep, Fits, DSCP, ECN;
    match f {
      case Ipv4Src(b0, b1, b2, b3) =>
        SetPortLockstep(x, y, IPV4, C_IP4_SRC, b0, b1, a, i);
        SetPortLockstep(SetPort(x, IPV4, C_IP4_SRC, b0, b1), SetPort(y, IPV4, C_IP4_SRC, b0, b1), IPV4, C_IP4_SRC + 2, b2, b3, a, i);
      case NwTtl(v) =>
        SetCellLockstep(x, y, IPV4, C_IP4_TTL, v, a, i);
        SetCellLockstep(SetCell(x, IPV4, C_IP4_TTL, v), SetCell(y, IPV4, C_IP4_TTL, v), IPV6, C_IP6_HLIMIT, v, a, i);
      case IpDscp(v) => TosLockstep(x, y, DSCP, v, a, i);
      case IpEcn(v) => TosLockstep(x, y, ECN, v, a, i);
    }
  }

  lemma CellsLockstep(x: Context, y: Context, f: Field, a: Attr, i: nat)
    requires Lockstep(x, y, a, i) && IsTtl(a, i)
    requires f.EthDst? || f.EthSrc? || f.Ipv4Dst? || f.Ipv6Dst? || f.Ipv6Src? || f.Ipv6Flabel?
    ensures Lockstep(SetField(x, f), SetField(y, f), a, i)
  {
    assert Fits(x) && Fits(y);
    hide SetCell, Lockstep, Fits;
    match f {
      case EthDst(v) => SetCellLockstep(x, y, ETHERNET, C_ETH_DST, v, a, i);
      case EthSrc(v) => SetCellLockstep(x, y, ETHERNET, C_ETH_SRC, v, a, i);
      case Ipv4Dst(v) => SetCellLockstep(x, y, IPV4, C_IP4_DST, v, a, i);
      case Ipv6Dst(v) => SetCellLockstep(x, y, IPV6, C_IP6_DST, v, a, i);
      case Ipv6Src(v) => SetCellLockstep(x, y, IPV6, C_IP6_SRC, v, a, i);
      case Ipv6Flabel(v) => SetCellLockstep(x, y, IPV6, C_IP6_LABEL, v, a, i);
    }
  }

  lemma SetFieldLockstep(x: Context, y: Context, f: Field, a: Attr, i: nat)
    requires Lockstep(x, y, a, i) && IsTtl(a, i)
    ensures Fits(x) && Fits(y) && Lockstep(SetField(x, f), SetField(y, f), a, i)
  {
    assert Fits(x) && Fits(y);
    hide SetField, Lockstep, Fits;
    if f.EthDst? || f.EthSrc? || f.Ipv4Dst? || f.Ipv6Dst? || f.Ipv6Src? || f.Ipv6Flabel? {
      CellsLockstep(x, y, f, a, i);
    } else if f.Ipv4Src? || f.NwTtl? || f.IpDscp? || f.IpEcn? {
      Ipv4Lockstep(x, y, f, a, i);
    } else if f.TcpDst? || f.TcpSrc? || f.UdpDst? || f.UdpSrc? || f.TpDst? || f.TpSrc? {
      PortsLockstep(x, y, f, a, i);
    } else {
      VlanLockstep(x, y, f, a, i);
    }
  }

  lemma SetFieldBehind(x: Context, y: Context, f: Field, a: Attr, i: nat)
    requires Behind(x, y, a, i)
    ensures Behind(SetField(x, f), SetField(y, f), a, i)
  {
    hide SetField, Le;
    BehindFits(x, y, a, i);
    SetFieldCell(x, f, a, i);
    SetFieldCell(y, f, a, i);
    LeSelf(if f.NwTtl? then f.ttl else {});
    if Lockstep(x, y, a, i) {
      SetFieldLockstep(x, y, f, a, i);
    }
  }

  lemma LeSelf(v: Bits)
    ensures Le(v, v)
  {
  }

  lemma BehindFits(x: Context, y: Context, a: Attr, i: nat)
    requires Behind(x, y, a, i)
    ensures Fits(x) && Fits(y) && OnlyIp(x.key.populated, a) && OnlyIp(y.key.populated, a) && IsTtl(a, i)
  {
  }

  // ---- commits -----------------------------------------------------------------

  /** A commit of a modified IP header covers its TTL. */
  lemma CommitCovers(x: Context, a: Attr, i: nat)
    requires Frozen(x, a) && IsTtl(a, i)
    ensures !Uncovered(Commit(x).mask, i)
  {
    hide Commit, Ones, Width;
    TtlCells(a, a, i);
    BelowSelf(Commit(x).mask);
    HeaderCell(x, a, i, {}, Commit(x).mask);
  }

  /** The TTL is in no other attribute's cells. */
  lemma TtlCells(b: Attr, a: Attr, i: nat)
    requires IsTtl(a, i)
    ensures First(b) <= i < Past(b) <==> b == a
  {
    match b {
      case PRIORITY => case IN_PORT => case ETHERNET => case VLAN => case ETHERTYPE => case IPV4 => case IPV6 =>
      case TCP => case UDP => case ICMP => case ICMPV6 => case ARP => case TCP_FLAGS =>
    }
  }

  lemma SliceLockstep(x: Context, y: Context, b: Attr, a: Attr, i: nat)
    requires Lockstep(x, y, a, i) && IsTtl(a, i) && b != a
    ensures Slice(x.key.cells, b) == Slice(y.key.cells, b)
  {
    hide First, Past;
    AttrRange(b);
    TtlCells(b, a, i);
    var s, t := Slice(x.key.cells, b), Slice(y.key.cells, b);
    assert forall j :: 0 <= j < |s| ==> s[j] == x.key.cells[First(b) + j] && t[j] == y.key.cells[First(b) + j];
  }

  predicate SameOut(x: Context, y: Context) {
    x.msg == y.msg && x.mask == y.mask
  }

  lemma {:induction false} CommitFieldsLockstep(x: Context, y: Context, n: nat, a: Attr, i: nat)
    requires Lockstep(x, y, a, i) && IsTtl(a, i) && SameOut(x, y) && a !in x.modified && n <= |FIELDS|
    ensures var p, q := CommitFields(x, n), CommitFields(y, n);
      Lockstep(p, q, a, i) && SameOut(p, q) && p.modified == x.modified
  {
    hide WithOnes, Slice, FIELDS;
    if n > 0 {
      CommitFieldsLockstep(x, y, n - 1, a, i);
      var p, q := CommitFields(x, n - 1), CommitFields(y, n - 1);
      if FIELDS[n - 1] in p.modified {
        SliceLockstep(p, q, FIELDS[n - 1], a, i);
      }
    }
  }

  lemma CommitLockstep(x: Context, y: Context, a: Attr, i: nat)
    requires Lockstep(x, y, a, i) && IsTtl(a, i) && SameOut(x, y) && a !in x.modified
    ensures Lockstep(Commit(x), Commit(y), a, i) && SameOut(Commit(x), Commit(y))
  {
    hide WithOnes, CommitFields;
    CommitFieldsLockstep(CommitVlan(x), CommitVlan(y), |FIELDS|, a, i);
  }

  /** An action other than DEC_NW_TTL and GROUP, if it leaves the TTL uncovered. */
  lemma ApplyBehind(x: Context, y: Context, act: Action, pid: nat, a: Attr, i: nat)
    requires Behind(x, y, a, i) && !act.DecNwTtl? && !act.GroupAction?
    requires Fits(y) && Uncovered(Apply(y, act, pid).mask, i)
    ensures Fits(x) && Behind(Apply(x, act, pid), Apply(y, act, pid), a, i)
  {
    BehindFits(x, y, a, i);
    if act.Set? {
      SetFieldBehind(x, y, act.field, a, i);
    } else {
      OutputsCommit(y, act, pid);
      CoveredStays(Commit(y).mask, Apply(y, act, pid).mask, i);
      if Frozen(y, a) {
        CommitCovers(y, a, i);
      } else {
        CommitLockstep(x, y, a, i);
        hide Commit, Le, WithOnes;
        assert Commit(x).key.cells[C_IN_PORT] == Commit(y).key.cells[C_IN_PORT];
      }
    }
  }

  lemma OutputsCommit(y: Context, act: Action, pid: nat)
    requires Fits(y) && !act.DecNwTtl? && !act.GroupAction? && !act.Set?
    ensures Below(Commit(y).mask, Apply(y, act, pid).mask)
  {
    hide Commit;
  }

  // ---- decrements ----------------------------------------------------------------

  lemma DecIs(x: Context, a: Attr, i: nat)
    requires Fits(x) && IsTtl(a, i) && OnlyIp(x.key.populated, a)
    ensures var (y, drop) := DecTtl(x);
      && y.key.cells[i] == Down(x.key.cells[i]) && (drop <==> Down(x.key.cells[i]) == {})
      && Frozen(y, a) && y.msg == x.msg && y.mask == x.mask
  {
    hide Decrement;
  }

  lemma DecBehind(x: Context, y: Context, a: Attr, i: nat)
    requires Behind(x, y, a, i)
    ensures Fits(x) && Fits(y) && Behind(DecTtl(x).0, DecTtl(y).0, a, i) && (DecTtl(y).1 ==> DecTtl(x).1)
    ensures DecTtl(x).1 ==> DecTtl(x).0.key.cells[i] == {}
  {
    BehindFits(x, y, a, i);
    DecIs(x, a, i);
    DecIs(y, a, i);
    hide DecTtl, Down, Le, Lockstep;
    DownLe(x.key.cells[i], y.key.cells[i]);
  }

  // ---- a run on its own ------------------------------------------------------------

  /** Since 'r' nothing was emitted and nothing masked. */
  predicate Silent(r: Run, q: Run, a: Attr) {
    SameOut(r.ctx, q.ctx) && Frozen(q.ctx, a) && r.stats <= q.stats
  }

  lemma ApplySilent(r: Run, act: Action, pid: nat, a: Attr, i: nat)
    requires Frozen(r.ctx, a) && IsTtl(a, i) && !act.DecNwTtl? && !act.GroupAction?
    requires Uncovered(Apply(r.ctx, act, pid).mask, i)
    ensures Silent(r, r.(ctx := Apply(r.ctx, act, pid)), a)
  {
    if act.Set? {
      SetFieldCell(r.ctx, act.field, a, i);
    } else {
      OutputsCommit(r.ctx, act, pid);
      CoveredStays(Commit(r.ctx).mask, Apply(r.ctx, act, pid).mask, i);
      CommitCovers(r.ctx, a, i);
    }
  }

  lemma SilentTrans(r: Run, q: Run, p: Run, a: Attr)
    requires Silent(r, q, a) && Silent(q, p, a)
    ensures Silent(r, p, a)
  {
  }

  lemma {:induction false} TranslateSilent(r: Run, actions: seq<Action>, env: Env, a: Attr, i: nat)
    requires Frozen(r.ctx, a) && IsTtl(a, i) && Uncovered(Translate(r, actions, env).ctx.mask, i)
    ensures Silent(r, Translate(r, actions, env), a)
    decreases actions, 0
  {
    if actions != [] {
      hide Apply, DecTtl, ProcessGroup, Uncovered;
      var act, end := actions[0], Translate(r, actions, env);
      if act.DecNwTtl? {
        DecIs(r.ctx, a, i);
        var (y, drop) := DecTtl(r.ctx);
        if !drop {
          TranslateSilent(r.(ctx := y), actions[1..], env, a, i);
        }
      } else if act.GroupAction? {
        var q := ProcessGroup(r, act.gtype, act.buckets, env);
        CoveredStays(q.ctx.mask, end.ctx.mask, i);
        GroupSilent(r, act.gtype, act.buckets, env, a, i);
        TranslateSilent(q, actions[1..], env, a, i);
        SilentTrans(r, q, end, a);
      } else {
        var q := r.(ctx := Apply(r.ctx, act, env.pktinPid));
        CoveredStays(q.ctx.mask, end.ctx.mask, i);
        ApplySilent(r, act, env.pktinPid, a, i);
        TranslateSilent(q, actions[1..], env, a, i);
        SilentTrans(r, q, end, a);
      }
    }
  }

  lemma {:induction false} BucketSilent(r: Run, b: Bucket, env: Env, a: Attr, i: nat)
    requires Frozen(r.ctx, a) && IsTtl(a, i) && Uncovered(ProcessBucket(r, b, env).ctx.mask, i)
    ensures Silent(r, ProcessBucket(r, b, env), a)
    decreases b, 1
  {
    hide Translate;
    TranslateSilent(r, b.actions, env, a, i);
  }

  lemma {:induction false} BucketsSilent(r: Run, bs: seq<Bucket>, env: Env, a: Attr, i: nat)
    requires Frozen(r.ctx, a) && IsTtl(a, i) && Uncovered(ProcessBuckets(r, bs, env).ctx.mask, i)
    ensures Silent(r, ProcessBuckets(r, bs, env), a)
    decreases bs, 2
  {
    if bs != [] {
      hide ProcessBucket, Uncovered;
      var q, end := ProcessBucket(r, bs[0], env), ProcessBuckets(r, bs, env);
      CoveredStays(q.ctx.mask, end.ctx.mask, i);
      BucketSilent(r, bs[0], env, a, i);
      BucketsSilent(q, bs[1..], env, a, i);
      SilentTrans(r, q, end, a);
    }
  }

  lemma {:induction false} GroupSilent(r: Run, gtype: GroupType, bs: seq<Bucket>, env: Env, a: Attr, i: nat)
    requires Frozen(r.ctx, a) && IsTtl(a, i) && Uncovered(ProcessGroup(r, gtype, bs, env).ctx.mask, i)
    ensures Silent(r, ProcessGroup(r, gtype, bs, env), a)
    decreases bs, 3
  {
    hide ProcessBucket, ProcessBuckets, Uncovered;
    if bs != [] {
      match gtype {
        case Select => BucketSilent(r, bs[env.hash % |bs|], env, a, i);
        case Indirect => BucketSilent(r, bs[0], env, a, i);
        case All => BucketsSilent(r, bs, env, a, i);
        case FastFailover => BucketSilent(r, bs[0], env, a, i);
        case OtherType =>
      }
    }
  }

  // ---- two runs --------------------------------------------------------------------

  /** The handles of the first are among those of the second; as many are the same. */
  predicate Fewer(s: seq<nat>, t: seq<nat>) {
    |s| <= |t| && (|s| == |t| ==> s == t)
  }

  predicate BehindRun(r: Run, q: Run, a: Attr, i: nat) {
    Behind(r.ctx, q.ctx, a, i) && Fewer(r.stats, q.stats)
  }

  /** The packet with the larger TTL goes on alone. */
  lemma BehindSilent(r: Run, q: Run, p: Run, a: Attr, i: nat)
    requires BehindRun(r, q, a, i) && Frozen(r.ctx, a) && r.ctx.key.cells[i] == {} && Silent(q, p, a)
    ensures BehindRun(r, p, a, i)
  {
    hide Lockstep, Ones;
  }

  lemma {:induction false} TranslateBehind(r: Run, q: Run, actions: seq<Action>, env: Env, a: Attr, i: nat)
    requires BehindRun(r, q, a, i) && Fits(r.ctx) && Fits(q.ctx) && Uncovered(Translate(q, actions, env).ctx.mask, i)
    ensures BehindRun(Translate(r, actions, env), Translate(q, actions, env), a, i)
    decreases actions, 0
  {
    if actions != [] {
      hide Apply, DecTtl, ProcessGroup, Uncovered, Behind, Frozen, Silent, Fewer;
      var act, end := actions[0], Translate(q, actions, env);
      if act.DecNwTtl? {
        DecBehind(r.ctx, q.ctx, a, i);
        DecFrozen(r.ctx, q.ctx, a, i);
        var (x, dropx) := DecTtl(r.ctx);
        var (y, dropy) := DecTtl(q.ctx);
        if !dropx {
          TranslateBehind(r.(ctx := x), q.(ctx := y), actions[1..], env, a, i);
        } else if !dropy {
          TranslateSilent(q.(ctx := y), actions[1..], env, a, i);
          BehindSilent(r.(ctx := x), q.(ctx := y), end, a, i);
        }
      } else if act.GroupAction? {
        var r1, q1 := ProcessGroup(r, act.gtype, act.buckets, env), ProcessGroup(q, act.gtype, act.buckets, env);
        CoveredStays(q1.ctx.mask, end.ctx.mask, i);
        GroupBehind(r, q, act.gtype, act.buckets, env, a, i);
        TranslateBehind(r1, q1, actions[1..], env, a, i);
      } else {
        var x, y := Apply(r.ctx, act, env.pktinPid), Apply(q.ctx, act, env.pktinPid);
        CoveredStays(y.mask, end.ctx.mask, i);
        ApplyBehind(r.ctx, q.ctx, act, env.pktinPid, a, i);
        TranslateBehind(r.(ctx := x), q.(ctx := y), actions[1..], env, a, i);
      }
    }
  }

  lemma DecFrozen(x: Context, y: Context, a: Attr, i: nat)
    requires Behind(x, y, a, i)
    ensures Fits(x) && Fits(y) && Frozen(DecTtl(x).0, a) && Frozen(DecTtl(y).0, a) && IsTtl(a, i)
  {
    BehindFits(x, y, a, i);
    DecIs(x, a, i);
    DecIs(y, a, i);
  }

  lemma {:induction false} BucketBehind(r: Run, q: Run, b: Bucket, env: Env, a: Attr, i: nat)
    requires BehindRun(r, q, a, i) && Fits(r.ctx) && Fits(q.ctx) && Uncovered(ProcessBucket(q, b, env).ctx.mask, i)
    ensures BehindRun(ProcessBucket(r, b, env), ProcessBucket(q, b, env), a, i)
    decreases b, 1
  {
    hide Translate, Behind;
    TranslateBehind(r, q, b.actions, env, a, i);
  }

  lemma {:induction false} BucketsBehind(r: Run, q: Run, bs: seq<Bucket>, env: Env, a: Attr, i: nat)
    requires BehindRun(r, q, a, i) && Fits(r.ctx) && Fits(q.ctx) && Uncovered(ProcessBuckets(q, bs, env).ctx.mask, i)
    ensures BehindRun(ProcessBuckets(r, bs, env), ProcessBuckets(q, bs, env), a, i)
    decreases bs, 2
  {
    if bs != [] {
      hide ProcessBucket, Uncovered, BehindRun;
      var r1, q1 := ProcessBucket(r, bs[0], env), ProcessBucket(q, bs[0], env);
      CoveredStays(q1.ctx.mask, ProcessBuckets(q, bs, env).ctx.mask, i);
      BucketBehind(r, q, bs[0], env, a, i);
      BucketsBehind(r1, q1, bs[1..], env, a, i);
    }
  }

  lemma {:induction false} GroupBehind(r: Run, q: Run, gtype: GroupType, bs: seq<Bucket>, env: Env, a: Attr, i: nat)
    requires BehindRun(r, q, a, i) && Fits(r.ctx) && Fits(q.ctx) && Uncovered(ProcessGroup(q, gtype, bs, env).ctx.mask, i)
    ensures BehindRun(ProcessGroup(r, gtype, bs, env), ProcessGroup(q, gtype, bs, env), a, i)
    decreases bs, 3
  {
    hide ProcessBucket, ProcessBuckets, Uncovered, BehindRun;
    if bs != [] {
      match gtype {
        case Select => BucketBehind(r, q, bs[env.hash % |bs|], env, a, i);
        case Indirect => BucketBehind(r, q, bs[0], env, a, i);
        case All => BucketsBehind(r, q, bs, env, a, i);
        case FastFailover => BucketBehind(r, q, bs[0], env, a, i);
        case OtherType =>
      }
    }
  }

  // ---- two walks -------------------------------------------------------------------

  /** The tables see no TTL. */
  predicate BehindWalk(w: Walk, v: Walk, a: Attr, i: nat) {
    WalkFits(w) && WalkFits(v) && w.cfr == v.cfr && w.cfrMask == v.cfrMask && BehindRun(w.run, v.run, a, i)
  }

  lemma MissBehind(c: Config, table: FlowTable, r: Run, q: Run, a: Attr, i: nat)
    requires BehindRun(r, q, a, i) && Fits(r.ctx) && Fits(q.ctx) && Uncovered(Miss(c, table, q).ctx.mask, i)
    ensures BehindRun(Miss(c, table, r), Miss(c, table, q), a, i)
  {
    hide Behind, Uncovered;
    if !c.version13 {
      ApplyBehind(r.ctx, q.ctx, Controller(NO_MATCH), c.pktinPid, a, i);
    }
  }

  lemma HitBehind(table: FlowTable, flow: Flow, r: Run, q: Run, env: Env, a: Attr, i: nat)
    requires BehindRun(r, q, a, i) && Fits(r.ctx) && Fits(q.ctx) && Uncovered(Hit(table, flow, q, env).ctx.mask, i)
    ensures BehindRun(Hit(table, flow, r, env), Hit(table, flow, q, env), a, i)
  {
    hide Behind, Uncovered, Translate;
    var h := [if flow.tableMiss then table.missed else table.matched, flow.handle];
    TranslateBehind(AddStats(r, h), AddStats(q, h), flow.actions, env, a, i);
  }

  function After(c: Config, t: nat, w: Walk, m: Cells, flow: Flow, env: Env): Walk
    requires t < |c.tables| && WalkFits(w) && |m| == CFR_CELLS
  {
    Walk(UpdateCfr(w.cfr, flow.actions), m, Hit(c.tables[t], flow, w.run, env))
  }

  lemma AfterBehind(c: Config, t: nat, w: Walk, v: Walk, m: Cells, flow: Flow, env: Env, a: Attr, i: nat)
    requires t < |c.tables| && |m| == CFR_CELLS && BehindWalk(w, v, a, i) && Uncovered(After(c, t, v, m, flow, env).run.ctx.mask, i)
    ensures BehindWalk(After(c, t, w, m, flow, env), After(c, t, v, m, flow, env), a, i)
  {
    hide Hit, UpdateCfr, Uncovered, BehindRun;
    HitBehind(c.tables[t], flow, w.run, v.run, env, a, i);
  }

  lemma {:induction false} WalkBehind(c: Config, t: nat, w: Walk, v: Walk, env: Env, a: Attr, i: nat)
    requires ConfigOk(c) && t < NUM_TABLES && BehindWalk(w, v, a, i)
    requires Uncovered(WalkFrom(c, t, v, env).run.ctx.mask, i)
    ensures BehindWalk(WalkFrom(c, t, w, env), WalkFrom(c, t, v, env), a, i)
    decreases NUM_TABLES - t
  {
    assert |c.tables| == NUM_TABLES;
    hide ConfigOk, Lookup, TableMask, Miss, Hit, UpdateCfr, Uncovered, BehindRun;
    var m, end := TableMask(c, t, v.cfrMask), WalkFrom(c, t, v, env);
    match Lookup(c, t, v.cfr) {
      case None =>
        MissBehind(c, c.tables[t], w.run, v.run, a, i);
      case Some(flow) =>
        CoveredStays(After(c, t, v, m, flow, env).run.ctx.mask, end.run.ctx.mask, i);
        AfterBehind(c, t, w, v, m, flow, env, a, i);
        if flow.next.Some? {
          WalkBehind(c, flow.next.value, After(c, t, w, m, flow, env), After(c, t, v, m, flow, env), env, a, i);
        }
    }
  }
}
