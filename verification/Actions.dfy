/**
 Translating IVS actions to kernel actions (struct action_context): set-field
 actions only change 'current_key' and remember the attribute; an output first
 commits the remembered attributes to the kernel action list.

 These functions say what the ActionContext class computes.
 */
module Actions {
  import opened Cells
  import opened Keys

  const CFI: Bits := {12}
  const VID: Bits := {0, 1, 2, 3, 4, 5, 6, 7, 8, 9, 10, 11}
  const PCP: Bits := {13, 14, 15}
  const DSCP: Bits := {2, 3, 4, 5, 6, 7}
  const ECN: Bits := {0, 1}
  const OVSP_LOCAL: Bits := {}

  /** IND_OVS_ACTION_*.  Groups are unfolded to their buckets. */
  datatype Action =
    | Controller(userdata: nat)
    | Output(port: Bits)
    | Local
    | InPort
    | Set(field: Field)
    | DecNwTtl
    | GroupAction(gtype: GroupType, buckets: seq<Bucket>)

  /** The actions that only touch the key. */
  datatype Field =
    | EthDst(mac: Bits)
    | EthSrc(mac: Bits)
    | Ipv4Dst(addr: Bits)
    | Ipv4Src(b0: Bits, b1: Bits, b2: Bits, b3: Bits)
    | IpDscp(dscp: Bits)
    | IpEcn(ecn: Bits)
    | TcpDst(hi: Bits, lo: Bits)
    | TcpSrc(hi: Bits, lo: Bits)
    | UdpDst(hi: Bits, lo: Bits)
    | UdpSrc(hi: Bits, lo: Bits)
    | TpDst(hi: Bits, lo: Bits)
    | TpSrc(hi: Bits, lo: Bits)
    | VlanVid(vid: Bits)
    | VlanPcp(pcp: Bits)
    | PopVlan
    | PushVlan
    | NwTtl(ttl: Bits)
    | Ipv6Dst(addr6: Bits)
    | Ipv6Src(addr6: Bits)
    | Ipv6Flabel(flabel: Bits)
    | Priority(priority: Bits)

  datatype GroupType = Select | Indirect | All | FastFailover | OtherType

  datatype Bucket = Bucket(actions: seq<Action>, handle: nat)

  /** OVS_ACTION_ATTR_*. */
  datatype KernelAction =
    | KOutput(port: Bits)
    | KUserspace(pid: nat, userdata: nat)
    | KSet(attr: Attr, value: Cells)
    | KPushVlan(tci: Bits)
    | KPopVlan

  datatype Context = Context(key: Key, modified: set<Attr>, mask: Cells, msg: seq<KernelAction>)

  /** What processing a packet produces: kernel actions, the mask and the statistics handles. */
  datatype Verdict = Verdict(actions: seq<KernelAction>, populated: set<Attr>, mask: Cells, stats: seq<nat>)

  predicate Fits(x: Context) {
    Sized(x.key.cells) && Sized(x.mask)
  }

  /** No action adds or removes a header other than the VLAN tag. */
  predicate SameHeaders(r: Context, x: Context) {
    r.key.populated - {VLAN} == x.key.populated - {VLAN}
  }

  // ---- set-field actions ---------------------------------------------------

  /** If the attribute is populated, mark it modified and overwrite one cell. */
  function SetCell(x: Context, a: Attr, i: nat, v: Bits): (r: Context)
    requires Fits(x) && i < CELLS
    ensures Fits(r) && r.mask == x.mask && r.msg == x.msg && SameHeaders(r, x)
  {
    if a in x.key.populated
    then x.(modified := x.modified + {a}, key := x.key.(cells := x.key.cells[i := v]))
    else x
  }

  /** Overwrite some bits of one cell. */
  function SetBits(x: Context, a: Attr, i: nat, clear: Bits, v: Bits): (r: Context)
    requires Fits(x) && i < CELLS
    ensures Fits(r) && r.mask == x.mask && r.msg == x.msg && SameHeaders(r, x)
  {
    SetCell(x, a, i, (x.key.cells[i] - clear) + v)
  }

  /** Two bytes of the transport header, in network order. */
  function SetPort(x: Context, a: Attr, i: nat, hi: Bits, lo: Bits): (r: Context)
    requires Fits(x) && i + 1 < CELLS
    ensures Fits(r) && r.mask == x.mask && r.msg == x.msg && SameHeaders(r, x)
  {
    SetCell(SetCell(x, a, i, hi), a, i + 1, lo)
  }

  function CurrentTci(x: Context): Bits
    requires Fits(x)
  {
    if VLAN in x.key.populated then x.key.cells[C_VLAN] else CFI
  }

  /** The tag becomes 'tci', present or not before. */
  function SetTci(x: Context, tci: Bits): (r: Context)
    requires Fits(x)
    ensures Fits(r) && r.mask == x.mask && r.msg == x.msg && SameHeaders(r, x)
  {
    x.(modified := x.modified + {VLAN},
       key := Key(x.key.populated + {VLAN}, x.key.cells[C_VLAN := tci]))
  }

  /** VLAN_TCI's shift of the low three bits to bit 13. */
  function PcpBits(p: Bits): Bits {
    (if 0 in p then {13} else {}) + (if 1 in p then {14} else {}) + (if 2 in p then {15} else {})
  }

  function WithVid(tci: Bits, vid: Bits): Bits {
    (tci * PCP) + (vid * VID) + CFI
  }

  function WithPcp(tci: Bits, pcp: Bits): Bits {
    (tci * VID) + PcpBits(pcp) + CFI
  }

  function SetField(x: Context, f: Field): (r: Context)
    requires Fits(x)
    ensures Fits(r) && r.mask == x.mask && r.msg == x.msg && SameHeaders(r, x)
  {
    match f
    case EthDst(mac) => SetCell(x, ETHERNET, C_ETH_DST, mac)
    case EthSrc(mac) => SetCell(x, ETHERNET, C_ETH_SRC, mac)
    case Ipv4Dst(v) => SetCell(x, IPV4, C_IP4_DST, v)
    case Ipv4Src(b0, b1, b2, b3) =>
      SetPort(SetPort(x, IPV4, C_IP4_SRC, b0, b1), IPV4, C_IP4_SRC + 2, b2, b3)
    case IpDscp(v) => SetBits(SetBits(x, IPV4, C_IP4_TOS, DSCP, v), IPV6, C_IP6_TCLASS, DSCP, v)
    case IpEcn(v) => SetBits(SetBits(x, IPV4, C_IP4_TOS, ECN, v), IPV6, C_IP6_TCLASS, ECN, v)
    case TcpDst(hi, lo) => SetPort(x, TCP, C_T2, hi, lo)
    case TcpSrc(hi, lo) => SetPort(x, TCP, C_T0, hi, lo)
    case UdpDst(hi, lo) => SetPort(x, UDP, C_T2, hi, lo)
    case UdpSrc(hi, lo) => SetPort(x, UDP, C_T0, hi, lo)
    case TpDst(hi, lo) => SetPort(SetPort(x, TCP, C_T2, hi, lo), UDP, C_T2, hi, lo)
    case TpSrc(hi, lo) => SetPort(SetPort(x, TCP, C_T0, hi, lo), UDP, C_T0, hi, lo)
    case VlanVid(v) => SetTci(x, WithVid(CurrentTci(x), v))
    case VlanPcp(v) => SetTci(x, WithPcp(CurrentTci(x), v))
    case PopVlan =>
      if VLAN in x.key.populated
      then x.(modified := x.modified + {VLAN}, key := x.key.(populated := x.key.populated - {VLAN}))
      else x
    case PushVlan => if VLAN in x.key.populated then x else SetTci(x, CFI)
    case NwTtl(v) => SetCell(SetCell(x, IPV4, C_IP4_TTL, v), IPV6, C_IP6_HLIMIT, v)
    case Ipv6Dst(v) => SetCell(x, IPV6, C_IP6_DST, v)
    case Ipv6Src(v) => SetCell(x, IPV6, C_IP6_SRC, v)
    case Ipv6Flabel(v) => SetCell(x, IPV6, C_IP6_LABEL, v)
    case Priority(v) =>
      x.(modified := x.modified + {PRIORITY}, key := x.key.(cells := x.key.cells[C_PRIORITY := v]))
  }

  // ---- committing ----------------------------------------------------------

  function Emit(x: Context, k: KernelAction): (r: Context)
    ensures Fits(x) ==> Fits(r)
  {
    x.(msg := x.msg + [k])
  }

  function Mask(x: Context, a: Attr): (r: Context)
    requires Fits(x)
    ensures Fits(r) && Below(x.mask, r.mask) && r.key == x.key && x.msg <= r.msg
  {
    x.(mask := WithOnes(x.mask, a))
  }

  /** The VLAN part: pop, push again if a tag is wanted, and do not SET it below. */
  function CommitVlan(x: Context): (r: Context)
    requires Fits(x)
    ensures Fits(r) && Below(x.mask, r.mask) && r.key == x.key && x.msg <= r.msg
  {
    if VLAN !in x.modified then x
    else
      var y := Emit(x, KPopVlan);
      var z := if VLAN in x.key.populated then Emit(y, KPushVlan(x.key.cells[C_VLAN])) else y;
      Mask(z.(modified := z.modified - {VLAN}), VLAN)
  }

  function CommitField(x: Context, a: Attr): (r: Context)
    requires Fits(x)
    ensures Fits(r) && Below(x.mask, r.mask) && r.key == x.key && x.msg <= r.msg
  {
    if a in x.modified then Mask(Emit(x, KSet(a, Slice(x.key.cells, a))), a) else x
  }

  /** The first n of OVS_KEY_FIELDS. */
  function CommitFields(x: Context, n: nat): (r: Context)
    requires Fits(x) && n <= |FIELDS|
    ensures Fits(r) && Below(x.mask, r.mask) && r.key == x.key && x.msg <= r.msg
  {
    if n == 0 then x else CommitField(CommitFields(x, n - 1), FIELDS[n - 1])
  }

  lemma {:induction false} CommitFieldsKeeps(x: Context, n: nat)
    requires Fits(x) && n <= |FIELDS|
    ensures CommitFields(x, n).modified == x.modified
  {
    hide FIELDS, WithOnes, Slice;
    if n > 0 {
      CommitFieldsKeeps(x, n - 1);
    }
  }

  function Commit(x: Context): (r: Context)
    requires Fits(x)
    ensures Fits(r) && Below(x.mask, r.mask) && r.key == x.key && x.msg <= r.msg
  {
    if x.modified == {} then x
    else CommitFields(CommitVlan(x), |FIELDS|).(modified := {})
  }

  function OutputTo(x: Context, port: Bits): (r: Context)
    requires Fits(x)
    ensures Fits(r) && Below(x.mask, r.mask) && r.key == x.key && x.msg <= r.msg
  {
    Emit(Commit(x), KOutput(port))
  }

  function Userspace(x: Context, pid: nat, userdata: nat): (r: Context)
    requires Fits(x)
    ensures Fits(r) && Below(x.mask, r.mask) && r.key == x.key && x.msg <= r.msg
  {
    Mask(Emit(Commit(x), KUserspace(pid, userdata)), IN_PORT)
  }

  function OutputInPort(x: Context): (r: Context)
    requires Fits(x)
    ensures Fits(r) && Below(x.mask, r.mask) && r.key == x.key && x.msg <= r.msg
  {
    Mask(OutputTo(x, x.key.cells[C_IN_PORT]), IN_PORT)
  }

  // ---- decrementing the TTL ------------------------------------------------

  /** The cell minus one, on bits: clear the lowest one and set those below it. */
  function Decrement(v: Bits, w: nat): Bits
    decreases w
  {
    DecrementFrom(v, 0, w)
  }

  function DecrementFrom(v: Bits, b: nat, w: nat): Bits
    requires b <= w
    decreases w - b
  {
    if b == w then v
    else if b in v then v - {b}
    else DecrementFrom(v + {b}, b + 1, w)
  }

  /** The number a cell holds, from bit b up to bit w. */
  function Value(v: Bits, b: nat, w: nat): nat
    requires b <= w
    decreases w - b
  {
    if b == w then 0 else (if b in v then 1 else 0) + 2 * Value(v, b + 1, w)
  }

  lemma {:induction false} ValueAbove(u: Bits, v: Bits, b: nat, w: nat)
    requires b <= w && forall c :: b <= c ==> (c in u <==> c in v)
    ensures Value(u, b, w) == Value(v, b, w)
    decreases w - b
  {
    if b < w {
      ValueAbove(u, v, b + 1, w);
    }
  }

  /** On a nonzero cell the bit trick is subtraction of one. */
  lemma {:induction false} DecrementIsMinusOne(v: Bits, b: nat, w: nat)
    requires b <= w && Value(v, b, w) > 0
    ensures Value(DecrementFrom(v, b, w), b, w) == Value(v, b, w) - 1
    ensures forall c :: c < b ==> (c in DecrementFrom(v, b, w) <==> c in v)
    decreases w - b
  {
    if b in v {
      ValueAbove(v - {b}, v, b + 1, w);
    } else {
      ValueAbove(v + {b}, v, b + 1, w);
      DecrementIsMinusOne(v + {b}, b + 1, w);
    }
  }

  /** Mark the header modified and count its TTL down; true when the packet must be dropped. */
  function DecTtlOf(x: Context, a: Attr, i: nat): (r: (Context, bool))
    requires Fits(x) && i < CELLS
    ensures Fits(r.0) && r.0.mask == x.mask && r.0.msg == x.msg && r.0.key.populated == x.key.populated
  {
    if a !in x.key.populated then (x, false)
    else
      var y := x.(modified := x.modified + {a});
      if x.key.cells[i] == {} then (y, true)
      else
        var v := Decrement(x.key.cells[i], 8);
        (y.(key := y.key.(cells := y.key.cells[i := v])), v == {})
  }

  function DecTtl(x: Context): (r: (Context, bool))
    requires Fits(x)
    ensures Fits(r.0) && r.0.mask == x.mask && r.0.msg == x.msg && r.0.key.populated == x.key.populated
  {
    var (y, drop) := DecTtlOf(x, IPV4, C_IP4_TTL);
    if drop then (y, true) else DecTtlOf(y, IPV6, C_IP6_HLIMIT)
  }

  // ---- action lists --------------------------------------------------------

  datatype Run = Run(ctx: Context, stats: seq<nat>)

  /** What the translation reads besides the packet. */
  datatype Env = Env(hash: nat, pktinPid: nat)

  /** One action other than DEC_NW_TTL and GROUP. */
  function Apply(x: Context, a: Action, pid: nat): (r: Context)
    requires Fits(x) && !a.DecNwTtl? && !a.GroupAction?
    ensures Fits(r) && Below(x.mask, r.mask) && SameHeaders(r, x) && x.msg <= r.msg
  {
    match a
    case Controller(userdata) => Userspace(x, pid, userdata)
    case Output(port) => OutputTo(x, port)
    case Local => OutputTo(x, OVSP_LOCAL)
    case InPort => OutputInPort(x)
    case Set(f) => SetField(x, f)
  }

  /** pipeline_standard_translate_actions. */
  function Translate(r0: Run, actions: seq<Action>, env: Env): (r: Run)
    requires Fits(r0.ctx)
    ensures Fits(r.ctx) && Below(r0.ctx.mask, r.ctx.mask) && SameHeaders(r.ctx, r0.ctx) && r0.ctx.msg <= r.ctx.msg
    decreases actions, 0
  {
    if actions == [] then r0
    else
      match actions[0]
      case DecNwTtl =>
        var (y, drop) := DecTtl(r0.ctx);
        if drop then r0.(ctx := y) else Translate(r0.(ctx := y), actions[1..], env)
      case GroupAction(gtype, buckets) =>
        Translate(ProcessGroup(r0, gtype, buckets, env), actions[1..], env)
      case a =>
        Translate(r0.(ctx := Apply(r0.ctx, a, env.pktinPid)), actions[1..], env)
  }

  function ProcessBucket(r0: Run, b: Bucket, env: Env): (r: Run)
    requires Fits(r0.ctx)
    ensures Fits(r.ctx) && Below(r0.ctx.mask, r.ctx.mask) && SameHeaders(r.ctx, r0.ctx) && r0.ctx.msg <= r.ctx.msg
    decreases b, 1
  {
    var r := Translate(r0, b.actions, env);
    r.(stats := r.stats + [b.handle])
  }

  function ProcessBuckets(r0: Run, buckets: seq<Bucket>, env: Env): (r: Run)
    requires Fits(r0.ctx)
    ensures Fits(r.ctx) && Below(r0.ctx.mask, r.ctx.mask) && SameHeaders(r.ctx, r0.ctx) && r0.ctx.msg <= r.ctx.msg
    decreases buckets, 2
  {
    if buckets == [] then r0
    else ProcessBuckets(ProcessBucket(r0, buckets[0], env), buckets[1..], env)
  }

  function ProcessGroup(r0: Run, gtype: GroupType, buckets: seq<Bucket>, env: Env): (r: Run)
    requires Fits(r0.ctx)
    ensures Fits(r.ctx) && Below(r0.ctx.mask, r.ctx.mask) && SameHeaders(r.ctx, r0.ctx) && r0.ctx.msg <= r.ctx.msg
    decreases buckets, 3
  {
    if |buckets| == 0 then r0
    else
      match gtype
      case Select => ProcessBucket(r0, buckets[env.hash % |buckets|], env)
      case Indirect => ProcessBucket(r0, buckets[0], env)
      case All => ProcessBuckets(r0, buckets, env)
      case FastFailover => ProcessBucket(r0, buckets[0], env)
      case OtherType => r0
  }
}
