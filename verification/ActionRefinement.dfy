/**
 Lazy, coalesced commits preserve meaning: the kernel, executing the emitted
 actions on the original packet, sends what an eager interpreter sends that
 applies every set-field action to the packet at once.
 */
module ActionRefinement {
  import opened Cells
  import opened Keys
  import opened Actions

  /** A packet in the datapath: its headers, its 802.1Q tags (outermost first) and its fields. */
  datatype Packet = Packet(headers: set<Attr>, tags: seq<Bits>, cells: Cells)

  datatype Dest = Port(port: Bits) | Upcall(pid: nat, userdata: nat)

  datatype Sent = Sent(dest: Dest, packet: Packet)

  datatype Wire = Wire(packet: Packet, sent: seq<Sent>)

  /** A packet under way: what it is now, what was sent, and the statistics handles that were charged. */
  datatype Trip = Trip(wire: Wire, handles: seq<nat>)

  predicate PacketOk(p: Packet) {
    Sized(p.cells) && VLAN !in p.headers && p.cells[C_VLAN] == {}
  }

  /** The key the kernel reports for a packet: only the outermost tag is in it. */
  function KeyOf(p: Packet): Key
    requires PacketOk(p)
  {
    if p.tags == [] then Key(p.headers, p.cells)
    else Key(p.headers + {VLAN}, p.cells[C_VLAN := p.tags[0]])
  }

  // ---- the kernel ----------------------------------------------------------

  function SetHeader(c: Cells, a: Attr, value: Cells): (r: Cells)
    requires Sized(c)
    ensures Sized(r)
  {
    seq(CELLS, i requires 0 <= i < CELLS =>
      if First(a) <= i < Past(a) && i - First(a) < |value| then value[i - First(a)] else c[i])
  }

  function Execute(w: Wire, k: KernelAction): (r: Wire)
    requires Sized(w.packet.cells)
    ensures Sized(r.packet.cells)
  {
    match k
    case KOutput(port) => w.(sent := w.sent + [Sent(Port(port), w.packet)])
    case KUserspace(pid, userdata) => w.(sent := w.sent + [Sent(Upcall(pid, userdata), w.packet)])
    case KSet(a, value) => w.(packet := w.packet.(cells := SetHeader(w.packet.cells, a, value)))
    case KPushVlan(tci) => w.(packet := w.packet.(tags := [tci] + w.packet.tags))
    case KPopVlan => w.(packet := w.packet.(tags := if w.packet.tags == [] then [] else w.packet.tags[1..]))
  }

  function ExecuteAll(p: Packet, msg: seq<KernelAction>): (r: Wire)
    requires Sized(p.cells)
    ensures Sized(r.packet.cells)
  {
    if msg == [] then Wire(p, [])
    else Execute(ExecuteAll(p, msg[..|msg| - 1]), msg[|msg| - 1])
  }

  lemma ExecuteAppend(p: Packet, msg: seq<KernelAction>, k: KernelAction)
    requires Sized(p.cells)
    ensures ExecuteAll(p, msg + [k]) == Execute(ExecuteAll(p, msg), k)
  {
    assert (msg + [k])[..|msg|] == msg;
  }

  // ---- the eager interpreter -----------------------------------------------

  function Put(p: Packet, a: Attr, i: nat, v: Bits): (r: Packet)
    requires PacketOk(p) && i < CELLS && i != C_VLAN
    ensures PacketOk(r)
  {
    if a in p.headers then p.(cells := p.cells[i := v]) else p
  }

  function Put2(p: Packet, a: Attr, i: nat, hi: Bits, lo: Bits): (r: Packet)
    requires PacketOk(p) && C_VLAN < i && i + 1 < CELLS
    ensures PacketOk(r)
  {
    if a in p.headers then p.(cells := p.cells[i := hi][i + 1 := lo]) else p
  }

  function Retag(p: Packet, tci: Bits): Packet {
    p.(tags := [tci] + if p.tags == [] then [] else p.tags[1..])
  }

  /** A tag of these twelve and three bits; the bit between them says that it is one. */
  function Tag(id: Bits, priority: Bits): Bits {
    (set b | b in id && b < 12) + {12} + (set b | b in priority && b < 3 :: b + 13)
  }

  function IdOf(tag: Bits): Bits {
    set b | b in tag && b < 12
  }

  function PriorityOf(tag: Bits): Bits {
    set b | b in tag && 13 <= b < 16 :: b - 13
  }

  /** The outermost tag, or nothing. */
  function Outer(p: Packet): Bits {
    if p.tags == [] then {} else p.tags[0]
  }

  /** Bits 'lo' to 'hi' from 'v', the others from 'was' or from 'v'. */
  function Merged(was: Bits, v: Bits, lo: nat, hi: nat): Bits {
    set b | b in was + v && (b in v || !(lo <= b <= hi))
  }

  function Change(p: Packet, f: Field): (r: Packet)
    requires PacketOk(p)
    ensures PacketOk(r) && r.headers == p.headers
  {
    match f
    case EthDst(mac) => Put(p, ETHERNET, C_ETH_DST, mac)
    case EthSrc(mac) => Put(p, ETHERNET, C_ETH_SRC, mac)
    case Ipv4Dst(v) => Put(p, IPV4, C_IP4_DST, v)
    case Ipv4Src(b0, b1, b2, b3) => Put2(Put2(p, IPV4, C_IP4_SRC, b0, b1), IPV4, C_IP4_SRC + 2, b2, b3)
    case IpDscp(v) =>
      var q := Put(p, IPV4, C_IP4_TOS, Merged(p.cells[C_IP4_TOS], v, 2, 7));
      Put(q, IPV6, C_IP6_TCLASS, Merged(p.cells[C_IP6_TCLASS], v, 2, 7))
    case IpEcn(v) =>
      var q := Put(p, IPV4, C_IP4_TOS, Merged(p.cells[C_IP4_TOS], v, 0, 1));
      Put(q, IPV6, C_IP6_TCLASS, Merged(p.cells[C_IP6_TCLASS], v, 0, 1))
    case TcpDst(hi, lo) => Put2(p, TCP, C_T2, hi, lo)
    case TcpSrc(hi, lo) => Put2(p, TCP, C_T0, hi, lo)
    case UdpDst(hi, lo) => Put2(p, UDP, C_T2, hi, lo)
    case UdpSrc(hi, lo) => Put2(p, UDP, C_T0, hi, lo)
    case TpDst(hi, lo) => if TCP in p.headers then Put2(p, TCP, C_T2, hi, lo) else Put2(p, UDP, C_T2, hi, lo)
    case TpSrc(hi, lo) => if TCP in p.headers then Put2(p, TCP, C_T0, hi, lo) else Put2(p, UDP, C_T0, hi, lo)
    case VlanVid(v) => Retag(p, Tag(v, PriorityOf(Outer(p))))
    case VlanPcp(v) => Retag(p, Tag(IdOf(Outer(p)), v))
    case PopVlan => p.(tags := if p.tags == [] then [] else p.tags[1..])
    case PushVlan => if p.tags == [] then p.(tags := [Tag({}, {})]) else p
    case NwTtl(v) => Put(Put(p, IPV4, C_IP4_TTL, v), IPV6, C_IP6_HLIMIT, v)
    case Ipv6Dst(v) => Put(p, IPV6, C_IP6_DST, v)
    case Ipv6Src(v) => Put(p, IPV6, C_IP6_SRC, v)
    case Ipv6Flabel(v) => Put(p, IPV6, C_IP6_LABEL, v)
    case Priority(v) => p.(cells := p.cells[C_PRIORITY := v])
  }

  function CountDown(p: Packet, a: Attr, i: nat): (r: (Packet, bool))
    requires PacketOk(p) && i < CELLS && i != C_VLAN
    ensures PacketOk(r.0)
  {
    if a !in p.headers then (p, false)
    else if p.cells[i] == {} then (p, true)
    else (p.(cells := p.cells[i := Decrement(p.cells[i], 8)]), Decrement(p.cells[i], 8) == {})
  }

  function Send(w: Wire, d: Dest): (r: Wire)
    ensures r.packet == w.packet
  {
    w.(sent := w.sent + [Sent(d, w.packet)])
  }

  function EagerOne(w: Wire, a: Action, pid: nat): (r: Wire)
    requires PacketOk(w.packet) && !a.DecNwTtl? && !a.GroupAction?
    ensures PacketOk(r.packet)
  {
    match a
    case Controller(userdata) => Send(w, Upcall(pid, userdata))
    case Output(port) => Send(w, Port(port))
    case Local => Send(w, Port({}))
    case InPort => Send(w, Port(w.packet.cells[C_IN_PORT]))
    case Set(f) => w.(packet := Change(w.packet, f))
  }

  function Eager(t: Trip, actions: seq<Action>, env: Env): (r: Trip)
    requires PacketOk(t.wire.packet)
    ensures PacketOk(r.wire.packet)
    decreases actions, 0
  {
    if actions == [] then t
    else
      match actions[0]
      case DecNwTtl =>
        var (p, drop4) := CountDown(t.wire.packet, IPV4, C_IP4_TTL);
        if drop4 then t.(wire := t.wire.(packet := p))
        else
          var (q, drop6) := CountDown(p, IPV6, C_IP6_HLIMIT);
          var u := t.(wire := t.wire.(packet := q));
          if drop6 then u else Eager(u, actions[1..], env)
      case GroupAction(gtype, buckets) =>
        Eager(EagerGroup(t, gtype, buckets, env), actions[1..], env)
      case a =>
        Eager(t.(wire := EagerOne(t.wire, a, env.pktinPid)), actions[1..], env)
  }

  /** A bucket is charged after its actions. */
  function EagerBucket(t: Trip, b: Bucket, env: Env): (r: Trip)
    requires PacketOk(t.wire.packet)
    ensures PacketOk(r.wire.packet)
    decreases b, 1
  {
    var r := Eager(t, b.actions, env);
    r.(handles := r.handles + [b.handle])
  }

  function EagerBuckets(t: Trip, buckets: seq<Bucket>, env: Env): (r: Trip)
    requires PacketOk(t.wire.packet)
    ensures PacketOk(r.wire.packet)
    decreases buckets, 2
  {
    if buckets == [] then t
    else EagerBuckets(EagerBucket(t, buckets[0], env), buckets[1..], env)
  }

  function EagerGroup(t: Trip, gtype: GroupType, buckets: seq<Bucket>, env: Env): (r: Trip)
    requires PacketOk(t.wire.packet)
    ensures PacketOk(r.wire.packet)
    decreases buckets, 3
  {
    if buckets == [] then t
    else
      match gtype
      case Select => EagerBucket(t, buckets[env.hash % |buckets|], env)
      case All => EagerBuckets(t, buckets, env)
      case OtherType => t
      case _ => EagerBucket(t, buckets[0], env)
  }

  // ---- the invariant -------------------------------------------------------

  /** The context's key is the eager packet's key. */
  predicate Tracks(x: Context, e: Packet) {
    && Fits(x) && PacketOk(e) && |e.tags| <= 1
    && x.key.populated - {VLAN} == e.headers
    && (VLAN in x.key.populated <==> e.tags != [])
    && (e.tags != [] ==> x.key.cells[C_VLAN] == e.tags[0])
    && forall i :: 0 <= i < CELLS && i != C_VLAN ==> x.key.cells[i] == e.cells[i]
  }

  predicate Dirty(modified: set<Attr>, i: nat) {
    exists a :: a in modified && a != VLAN && First(a) <= i < Past(a)
  }

  /** The kernel's packet differs from the eager one only on modified attributes. */
  predicate Pending(q: Packet, e: Packet, modified: set<Attr>) {
    && Sized(q.cells) && Sized(e.cells)
    && q.headers == e.headers && |q.tags| <= 1
    && (VLAN !in modified ==> q.tags == e.tags)
    && forall i :: 0 <= i < CELLS && !Dirty(modified, i) ==> q.cells[i] == e.cells[i]
  }

  predicate InStep(p0: Packet, x: Context, e: Wire) {
    && Sized(p0.cells)
    && Tracks(x, e.packet)
    && var q := ExecuteAll(p0, x.msg);
       q.sent == e.sent && Pending(q.packet, e.packet, x.modified)
  }

  lemma DirtyGrows(modified: set<Attr>, a: Attr, q: Packet, e: Packet)
    requires Pending(q, e, modified)
    ensures Pending(q, e, modified + {a})
  {
    forall i | 0 <= i < CELLS && !Dirty(modified + {a}, i) ensures !Dirty(modified, i) {
    }
  }

  // ---- set-field actions keep it -------------------------------------------

  lemma PutStep(p0: Packet, x: Context, e: Wire, a: Attr, i: nat, v: Bits)
    requires InStep(p0, x, e) && a != VLAN && First(a) <= i < Past(a) && i < CELLS && i != C_VLAN
    ensures InStep(p0, SetCell(x, a, i, v), e.(packet := Put(e.packet, a, i, v)))
  {
    hide ExecuteAll;
    assert a in x.key.populated <==> a in x.key.populated - {VLAN};
    if a in x.key.populated {
      var q := ExecuteAll(p0, x.msg).packet;
      DirtyGrows(x.modified, a, q, e.packet);
      assert Dirty(x.modified + {a}, i);
    }
  }

  lemma Put2Step(p0: Packet, x: Context, e: Wire, a: Attr, i: nat, hi: Bits, lo: Bits)
    requires InStep(p0, x, e) && a != VLAN && First(a) <= i && i + 1 < Past(a) <= CELLS && C_VLAN < i
    ensures InStep(p0, SetPort(x, a, i, hi, lo), e.(packet := Put2(e.packet, a, i, hi, lo)))
  {
    hide ExecuteAll, Pending;
    PutStep(p0, x, e, a, i, hi);
    PutStep(p0, SetCell(x, a, i, hi), e.(packet := Put(e.packet, a, i, hi)), a, i + 1, lo);
  }

  lemma TosBits(t: Bits, v: Bits)
    ensures (t - DSCP) + v == Merged(t, v, 2, 7)
    ensures (t - ECN) + v == Merged(t, v, 0, 1)
  {
  }

  lemma VidForm(tci: Bits, v: Bits)
    ensures WithVid(tci, v) == Tag(v, PriorityOf(tci))
  {
    var t, q := Tag(v, PriorityOf(tci)), PriorityOf(tci);
    assert forall b :: b in tci && 13 <= b < 16 ==> b - 13 in q && (b - 13) + 13 == b;
    assert forall b :: b in WithVid(tci, v) ==> b in t;
    assert forall b :: b in t ==> b in WithVid(tci, v);
  }

  lemma PcpForm(tci: Bits, v: Bits)
    ensures WithPcp(tci, v) == Tag(IdOf(tci), v)
  {
    var t := Tag(IdOf(tci), v);
    assert forall b :: b in WithPcp(tci, v) ==> b in t;
    assert forall b :: b in t ==> b in WithPcp(tci, v);
  }

  /** The bit arithmetic of the set-VLAN actions. */
  lemma TagForms(tci: Bits, v: Bits)
    ensures WithVid(tci, v) == Tag(v, PriorityOf(tci)) && WithPcp(tci, v) == Tag(IdOf(tci), v)
    ensures CFI == Tag({}, {}) && PriorityOf(CFI) == PriorityOf({}) && IdOf(CFI) == IdOf({})
  {
    VidForm(tci, v);
    PcpForm(tci, v);
  }

  /** Setting the VLAN id, bit by bit: the id, the bit that says there is a tag, and the old priority. */
  lemma SetVidBits(x: Context, v: Bits, b: nat)
    requires Fits(x)
    ensures var k := SetField(x, VlanVid(v)).key;
      && VLAN in k.populated
      && (b in k.cells[C_VLAN] <==>
            if b < 12 then b in v else b == 12 || (b < 16 && VLAN in x.key.populated && b in x.key.cells[C_VLAN]))
  {
  }

  /** And setting the priority. */
  lemma SetPcpBits(x: Context, v: Bits, b: nat)
    requires Fits(x)
    ensures var k := SetField(x, VlanPcp(v)).key;
      && VLAN in k.populated
      && (b in k.cells[C_VLAN] <==>
            if b < 12 then VLAN in x.key.populated && b in x.key.cells[C_VLAN] else b == 12 || (b < 16 && b - 13 in v))
  {
  }

  lemma TagStep(p0: Packet, x: Context, e: Wire, tci: Bits)
    requires InStep(p0, x, e)
    ensures InStep(p0, SetTci(x, tci), e.(packet := Retag(e.packet, tci)))
    ensures CurrentTci(x) == if e.packet.tags == [] then CFI else Outer(e.packet)
  {
    hide ExecuteAll;
    DirtyGrows(x.modified, VLAN, ExecuteAll(p0, x.msg).packet, e.packet);
  }

  lemma VlanStep(p0: Packet, x: Context, e: Wire, f: Field)
    requires InStep(p0, x, e) && (f.VlanVid? || f.VlanPcp? || f.PopVlan? || f.PushVlan?)
    ensures InStep(p0, SetField(x, f), e.(packet := Change(e.packet, f)))
  {
    hide ExecuteAll, WithVid, WithPcp, Tag, IdOf, PriorityOf, CFI;
    match f {
      case VlanVid(v) =>
        TagForms(CurrentTci(x), v);
        TagStep(p0, x, e, WithVid(CurrentTci(x), v));
      case VlanPcp(v) =>
        TagForms(CurrentTci(x), v);
        TagStep(p0, x, e, WithPcp(CurrentTci(x), v));
      case PushVlan =>
        TagForms({}, {});
        TagStep(p0, x, e, CFI);
      case PopVlan => DirtyGrows(x.modified, VLAN, ExecuteAll(p0, x.msg).packet, e.packet);
    }
  }

  lemma BitsStep(p0: Packet, x: Context, e: Wire, a: Attr, i: nat, clear: Bits, v: Bits)
    requires InStep(p0, x, e) && a != VLAN && First(a) <= i < Past(a) && i < CELLS && i != C_VLAN
    ensures InStep(p0, SetBits(x, a, i, clear, v),
                   e.(packet := Put(e.packet, a, i, (e.packet.cells[i] - clear) + v)))
  {
    PutStep(p0, x, e, a, i, (x.key.cells[i] - clear) + v);
  }

  lemma PriorityStep(p0: Packet, x: Context, e: Wire, v: Bits)
    requires InStep(p0, x, e)
    ensures InStep(p0, SetField(x, Priority(v)), e.(packet := Change(e.packet, Priority(v))))
  {
    hide ExecuteAll;
    DirtyGrows(x.modified, PRIORITY, ExecuteAll(p0, x.msg).packet, e.packet);
    assert Dirty(x.modified + {PRIORITY}, C_PRIORITY);
  }

  lemma TosStep(p0: Packet, x: Context, e: Wire, clear: Bits, v: Bits)
    requires InStep(p0, x, e)
    ensures var y := Put(e.packet, IPV4, C_IP4_TOS, (e.packet.cells[C_IP4_TOS] - clear) + v);
      var z := Put(y, IPV6, C_IP6_TCLASS, (e.packet.cells[C_IP6_TCLASS] - clear) + v);
      InStep(p0, SetBits(SetBits(x, IPV4, C_IP4_TOS, clear, v), IPV6, C_IP6_TCLASS, clear, v), e.(packet := z))
  {
    BitsStep(p0, x, e, IPV4, C_IP4_TOS, clear, v);
    var y := Put(e.packet, IPV4, C_IP4_TOS, (e.packet.cells[C_IP4_TOS] - clear) + v);
    BitsStep(p0, SetBits(x, IPV4, C_IP4_TOS, clear, v), e.(packet := y), IPV6, C_IP6_TCLASS, clear, v);
  }

  /** Both transport setters, one after the other; they share their cells. */
  lemma TransportStep(p0: Packet, x: Context, e: Wire, i: nat, hi: Bits, lo: Bits)
    requires InStep(p0, x, e) && (i == C_T0 || i == C_T2)
    ensures var y := if TCP in e.packet.headers then Put2(e.packet, TCP, i, hi, lo) else Put2(e.packet, UDP, i, hi, lo);
      InStep(p0, SetPort(SetPort(x, TCP, i, hi, lo), UDP, i, hi, lo), e.(packet := y))
  {
    StepOk(p0, x, e);
    hide InStep, SetPort, PacketOk;
    Put2Step(p0, x, e, TCP, i, hi, lo);
    var y := Put2(e.packet, TCP, i, hi, lo);
    Put2Step(p0, SetPort(x, TCP, i, hi, lo), e.(packet := y), UDP, i, hi, lo);
    if TCP in e.packet.headers {
      assert y.cells[i := hi][i + 1 := lo] == y.cells;
      assert Put2(y, UDP, i, hi, lo) == y;
    } else {
      assert y == e.packet;
    }
  }

  lemma PortStep(p0: Packet, x: Context, e: Wire, f: Field)
    requires InStep(p0, x, e) && (f.TcpDst? || f.TcpSrc? || f.UdpDst? || f.UdpSrc? || f.TpDst? || f.TpSrc?)
    ensures InStep(p0, SetField(x, f), e.(packet := Change(e.packet, f)))
  {
    StepOk(p0, x, e);
    hide InStep, Tracks, SetPort, Put2;
    match f {
      case TcpDst(hi, lo) => Put2Step(p0, x, e, TCP, C_T2, hi, lo);
      case TcpSrc(hi, lo) => Put2Step(p0, x, e, TCP, C_T0, hi, lo);
      case UdpDst(hi, lo) => Put2Step(p0, x, e, UDP, C_T2, hi, lo);
      case UdpSrc(hi, lo) => Put2Step(p0, x, e, UDP, C_T0, hi, lo);
      case TpDst(hi, lo) => TransportStep(p0, x, e, C_T2, hi, lo);
      case TpSrc(hi, lo) => TransportStep(p0, x, e, C_T0, hi, lo);
    }
  }

  lemma SetStep(p0: Packet, x: Context, e: Wire, f: Field)
    requires InStep(p0, x, e)
    ensures InStep(p0, SetField(x, f), e.(packet := Change(e.packet, f)))
  {
    StepOk(p0, x, e);
    hide InStep, Tracks, SetCell, SetBits, SetPort, Put, Put2;
    match f {
      case EthDst(v) => PutStep(p0, x, e, ETHERNET, C_ETH_DST, v);
      case EthSrc(v) => PutStep(p0, x, e, ETHERNET, C_ETH_SRC, v);
      case Ipv4Dst(v) => PutStep(p0, x, e, IPV4, C_IP4_DST, v);
      case Ipv4Src(b0, b1, b2, b3) =>
        Put2Step(p0, x, e, IPV4, C_IP4_SRC, b0, b1);
        Put2Step(p0, SetPort(x, IPV4, C_IP4_SRC, b0, b1), e.(packet := Put2(e.packet, IPV4, C_IP4_SRC, b0, b1)),
                 IPV4, C_IP4_SRC + 2, b2, b3);
      case IpDscp(v) =>
        TosBits(e.packet.cells[C_IP4_TOS], v);
        TosBits(e.packet.cells[C_IP6_TCLASS], v);
        TosStep(p0, x, e, DSCP, v);
      case IpEcn(v) =>
        TosBits(e.packet.cells[C_IP4_TOS], v);
        TosBits(e.packet.cells[C_IP6_TCLASS], v);
        TosStep(p0, x, e, ECN, v);
      case TcpDst(_, _) => PortStep(p0, x, e, f);
      case TcpSrc(_, _) => PortStep(p0, x, e, f);
      case UdpDst(_, _) => PortStep(p0, x, e, f);
      case UdpSrc(_, _) => PortStep(p0, x, e, f);
      case TpDst(_, _) => PortStep(p0, x, e, f);
      case TpSrc(_, _) => PortStep(p0, x, e, f);
      case NwTtl(v) =>
        PutStep(p0, x, e, IPV4, C_IP4_TTL, v);
        PutStep(p0, SetCell(x, IPV4, C_IP4_TTL, v), e.(packet := Put(e.packet, IPV4, C_IP4_TTL, v)), IPV6, C_IP6_HLIMIT, v);
      case Ipv6Dst(v) => PutStep(p0, x, e, IPV6, C_IP6_DST, v);
      case Ipv6Src(v) => PutStep(p0, x, e, IPV6, C_IP6_SRC, v);
      case Ipv6Flabel(v) => PutStep(p0, x, e, IPV6, C_IP6_LABEL, v);
      case Priority(v) => PriorityStep(p0, x, e, v);
      case _ => VlanStep(p0, x, e, f);
    }
  }

  lemma StepOk(p0: Packet, x: Context, e: Wire)
    requires InStep(p0, x, e)
    ensures Fits(x) && PacketOk(e.packet)
  {
  }

  // ---- a commit makes the kernel catch up ----------------------------------

  /** The modified attributes that the first n fields do not flush. */
  function Unflushed(modified: set<Attr>, n: nat): set<Attr>
    requires n <= |FIELDS|
  {
    set a | a in modified && a !in FIELDS[..n]
  }

  lemma AllFields(a: Attr)
    ensures a in FIELDS
  {
    match a {
      case PRIORITY => assert FIELDS[0] == a;
      case IN_PORT => assert FIELDS[1] == a;
      case ETHERNET => assert FIELDS[2] == a;
      case VLAN => assert FIELDS[3] == a;
      case ETHERTYPE => assert FIELDS[4] == a;
      case IPV4 => assert FIELDS[5] == a;
      case IPV6 => assert FIELDS[6] == a;
      case TCP => assert FIELDS[7] == a;
      case UDP => assert FIELDS[8] == a;
      case ICMP => assert FIELDS[9] == a;
      case ICMPV6 => assert FIELDS[10] == a;
      case ARP => assert FIELDS[11] == a;
      case TCP_FLAGS => assert FIELDS[12] == a;
    }
  }

  /** What the kernel makes of the VLAN part of a commit. */
  lemma VlanExecuted(p0: Packet, x: Context)
    requires Sized(p0.cells) && Fits(x) && VLAN in x.modified
    ensures var q := ExecuteAll(p0, x.msg);
      ExecuteAll(p0, CommitVlan(x).msg) == q.(packet := q.packet.(tags :=
        (if VLAN in x.key.populated then [x.key.cells[C_VLAN]] else [])
        + (if q.packet.tags == [] then [] else q.packet.tags[1..])))
  {
    hide ExecuteAll, WithOnes;
    ExecuteAppend(p0, x.msg, KPopVlan);
    var y := Emit(x, KPopVlan);
    if VLAN in x.key.populated {
      ExecuteAppend(p0, y.msg, KPushVlan(x.key.cells[C_VLAN]));
    }
  }

  lemma CommitVlanStep(p0: Packet, x: Context, e: Wire)
    requires InStep(p0, x, e)
    ensures InStep(p0, CommitVlan(x), e) && VLAN !in CommitVlan(x).modified
  {
    if VLAN in x.modified {
      VlanExecuted(p0, x);
      DirtyIgnoresVlan(x.modified);
      var y := CommitVlan(x);
      assert y.key == x.key && y.modified == x.modified - {VLAN};
      hide ExecuteAll, WithOnes, Dirty, CommitVlan;
      assert Tracks(y, e.packet);
    }
  }

  lemma DirtyIgnoresVlan(modified: set<Attr>)
    ensures forall i: nat :: Dirty(modified - {VLAN}, i) <==> Dirty(modified, i)
  {
    forall i: nat ensures Dirty(modified - {VLAN}, i) <==> Dirty(modified, i) {
      if a :| a in modified && a != VLAN && First(a) <= i < Past(a) {
        assert a in modified - {VLAN};
      }
    }
  }

  lemma SetHeaderStep(q: Cells, c: Cells, e: Cells, a: Attr, before: set<Attr>, after: set<Attr>)
    requires Sized(q) && Sized(c) && Sized(e) && a != VLAN && before <= after + {a}
    requires forall i :: 0 <= i < CELLS && i != C_VLAN ==> c[i] == e[i]
    requires forall i :: 0 <= i < CELLS && !Dirty(before, i) ==> q[i] == e[i]
    ensures forall i :: 0 <= i < CELLS && !Dirty(after, i) ==> SetHeader(q, a, Slice(c, a))[i] == e[i]
  {
    AttrRange(a);
    forall i | 0 <= i < CELLS && !Dirty(after, i) ensures SetHeader(q, a, Slice(c, a))[i] == e[i] {
      if First(a) <= i < Past(a) {
        OnlyVlanCell(a, i);
        assert Slice(c, a)[i - First(a)] == c[i];
      } else {
        DirtyElsewhere(a, before, after, i);
      }
    }
  }

  lemma OnlyVlanCell(a: Attr, i: nat)
    requires a != VLAN && First(a) <= i < Past(a)
    ensures i != C_VLAN
  {
  }

  lemma DirtyElsewhere(a: Attr, before: set<Attr>, after: set<Attr>, i: nat)
    requires before <= after + {a} && !(First(a) <= i < Past(a)) && !Dirty(after, i)
    ensures !Dirty(before, i)
  {
    hide First, Past;
    forall b | b in before && b != a ensures b in after {
      assert b in after + {a};
    }
  }

  lemma CommitFieldStep(p0: Packet, y: Context, e: Wire, a: Attr, before: set<Attr>, after: set<Attr>)
    requires Sized(p0.cells) && Tracks(y, e.packet) && a != VLAN && a in y.modified && before <= after + {a}
    requires var q := ExecuteAll(p0, y.msg); q.sent == e.sent && Pending(q.packet, e.packet, before)
    requires VLAN !in before
    ensures var q := ExecuteAll(p0, CommitField(y, a).msg);
      q.sent == e.sent && Pending(q.packet, e.packet, after)
  {
    hide ExecuteAll, SetHeader, Dirty, WithOnes, Slice;
    var q := ExecuteAll(p0, y.msg).packet;
    ExecuteAppend(p0, y.msg, KSet(a, Slice(y.key.cells, a)));
    SetHeaderStep(q.cells, y.key.cells, e.packet.cells, a, before, after);
  }

  lemma UnflushedNext(modified: set<Attr>, n: nat)
    requires 0 < n <= |FIELDS| && VLAN !in modified
    ensures var a, before, after := FIELDS[n - 1], Unflushed(modified, n - 1), Unflushed(modified, n);
      && before <= after + {a} && VLAN !in before
      && (a in modified ==> a != VLAN) && (a !in modified ==> before == after)
  {
    hide FIELDS;
    assert FIELDS[..n] == FIELDS[..n - 1] + [FIELDS[n - 1]];
  }

  lemma {:induction false} CommitFieldsStep(p0: Packet, x: Context, e: Wire, n: nat)
    requires InStep(p0, x, e) && VLAN !in x.modified && n <= |FIELDS|
    ensures var y := CommitFields(x, n); var q := ExecuteAll(p0, y.msg);
      && Tracks(y, e.packet) && y.modified == x.modified
      && q.sent == e.sent && Pending(q.packet, e.packet, Unflushed(x.modified, n))
  {
    CommitFieldsKeeps(x, n);
    if n == 0 {
      hide ExecuteAll, FIELDS, Pending;
      assert Unflushed(x.modified, 0) == x.modified;
    } else {
      hide ExecuteAll, WithOnes, FIELDS, CommitFields, Pending, Unflushed;
      CommitFieldsStep(p0, x, e, n - 1);
      CommitFieldsUnfold(x, n);
      var y, a := CommitFields(x, n - 1), FIELDS[n - 1];
      UnflushedNext(x.modified, n);
      if a in x.modified {
        CommitFieldStep(p0, y, e, a, Unflushed(x.modified, n - 1), Unflushed(x.modified, n));
      }
    }
  }

  lemma CommitFieldsUnfold(x: Context, n: nat)
    requires Fits(x) && 0 < n <= |FIELDS|
    ensures CommitFields(x, n) == CommitField(CommitFields(x, n - 1), FIELDS[n - 1])
  {
  }

  /** After a commit the kernel's packet is exactly the eager one. */
  lemma CommitStep(p0: Packet, x: Context, e: Wire)
    requires InStep(p0, x, e)
    ensures InStep(p0, Commit(x), e) && Commit(x).modified == {}
    ensures ExecuteAll(p0, Commit(x).msg) == e
  {
    var y := CommitVlan(x);
    CommitVlanStep(p0, x, e);
    CommitFieldsStep(p0, y, e, |FIELDS|);
    hide ExecuteAll, CommitFields, CommitVlan;
    forall a: Attr ensures a in FIELDS[..|FIELDS|] {
      AllFields(a);
    }
    assert Unflushed(y.modified, |FIELDS|) == {};
    hide FIELDS;
    var z := Commit(x);
    var q := ExecuteAll(p0, z.msg);
    assert Pending(q.packet, e.packet, {});
    assert q.packet.cells == e.packet.cells;
  }

  lemma ApplyStep(p0: Packet, x: Context, e: Wire, a: Action, pid: nat)
    requires InStep(p0, x, e) && !a.DecNwTtl? && !a.GroupAction?
    ensures InStep(p0, Apply(x, a, pid), EagerOne(e, a, pid))
  {
    if a.Set? {
      SetStep(p0, x, e, a.field);
    } else {
      CommitStep(p0, x, e);
      hide ExecuteAll, Commit, WithOnes;
      var y := Commit(x);
      match a {
        case Controller(u) => ExecuteAppend(p0, y.msg, KUserspace(pid, u));
        case Output(port) => ExecuteAppend(p0, y.msg, KOutput(port));
        case Local => ExecuteAppend(p0, y.msg, KOutput(OVSP_LOCAL));
        case InPort => ExecuteAppend(p0, y.msg, KOutput(x.key.cells[C_IN_PORT]));
      }
    }
  }

  lemma CountDownStep(p0: Packet, x: Context, e: Wire, a: Attr, i: nat)
    requires InStep(p0, x, e) && a != VLAN && First(a) <= i < Past(a) && i < CELLS && i != C_VLAN
    ensures DecTtlOf(x, a, i).1 == CountDown(e.packet, a, i).1
    ensures InStep(p0, DecTtlOf(x, a, i).0, e.(packet := CountDown(e.packet, a, i).0))
  {
    hide ExecuteAll, Decrement;
    assert a in x.key.populated <==> a in x.key.populated - {VLAN};
    if a in x.key.populated {
      DirtyGrows(x.modified, a, ExecuteAll(p0, x.msg).packet, e.packet);
      PutStep(p0, x, e, a, i, Decrement(x.key.cells[i], 8));
    }
  }

  /** Run and trip are in step: packets as above, and the same handles. */
  predicate OnTrip(p0: Packet, r: Run, t: Trip) {
    InStep(p0, r.ctx, t.wire) && r.stats == t.handles
  }

  lemma {:induction false} TranslateStep(p0: Packet, r: Run, t: Trip, actions: seq<Action>, env: Env)
    requires OnTrip(p0, r, t)
    ensures Fits(r.ctx) && PacketOk(t.wire.packet) && OnTrip(p0, Translate(r, actions, env), Eager(t, actions, env))
    decreases actions, 0
  {
    StepOk(p0, r.ctx, t.wire);
    if actions != [] {
      hide InStep, Apply, EagerOne, ProcessGroup, EagerGroup, DecTtlOf, CountDown;
      var a, e := actions[0], t.wire;
      if a.DecNwTtl? {
        CountDownStep(p0, r.ctx, e, IPV4, C_IP4_TTL);
        var y, f := DecTtlOf(r.ctx, IPV4, C_IP4_TTL), CountDown(e.packet, IPV4, C_IP4_TTL);
        if !y.1 {
          CountDownStep(p0, y.0, e.(packet := f.0), IPV6, C_IP6_HLIMIT);
          var z, g := DecTtlOf(y.0, IPV6, C_IP6_HLIMIT), CountDown(f.0, IPV6, C_IP6_HLIMIT);
          if !z.1 {
            TranslateStep(p0, r.(ctx := z.0), t.(wire := e.(packet := g.0)), actions[1..], env);
          }
        }
      } else if a.GroupAction? {
        GroupStep(p0, r, t, a.gtype, a.buckets, env);
        TranslateStep(p0, ProcessGroup(r, a.gtype, a.buckets, env), EagerGroup(t, a.gtype, a.buckets, env), actions[1..], env);
      } else {
        ApplyStep(p0, r.ctx, e, a, env.pktinPid);
        TranslateStep(p0, r.(ctx := Apply(r.ctx, a, env.pktinPid)), t.(wire := EagerOne(e, a, env.pktinPid)), actions[1..], env);
      }
    }
  }

  lemma {:induction false} BucketStep(p0: Packet, r: Run, t: Trip, b: Bucket, env: Env)
    requires OnTrip(p0, r, t)
    ensures Fits(r.ctx) && PacketOk(t.wire.packet) && OnTrip(p0, ProcessBucket(r, b, env), EagerBucket(t, b, env))
    decreases b, 1
  {
    hide InStep, Translate, Eager;
    TranslateStep(p0, r, t, b.actions, env);
  }

  lemma {:induction false} BucketsStep(p0: Packet, r: Run, t: Trip, bs: seq<Bucket>, env: Env)
    requires OnTrip(p0, r, t)
    ensures Fits(r.ctx) && PacketOk(t.wire.packet) && OnTrip(p0, ProcessBuckets(r, bs, env), EagerBuckets(t, bs, env))
    decreases bs, 2
  {
    StepOk(p0, r.ctx, t.wire);
    if bs != [] {
      hide OnTrip, ProcessBucket, EagerBucket;
      BucketStep(p0, r, t, bs[0], env);
      BucketsStep(p0, ProcessBucket(r, bs[0], env), EagerBucket(t, bs[0], env), bs[1..], env);
    }
  }

  lemma {:induction false} GroupStep(p0: Packet, r: Run, t: Trip, gtype: GroupType, bs: seq<Bucket>, env: Env)
    requires OnTrip(p0, r, t)
    ensures Fits(r.ctx) && PacketOk(t.wire.packet)
    ensures OnTrip(p0, ProcessGroup(r, gtype, bs, env), EagerGroup(t, gtype, bs, env))
    decreases bs, 3
  {
    StepOk(p0, r.ctx, t.wire);
    hide OnTrip, ProcessBucket, EagerBucket;
    if bs != [] {
      match gtype {
        case Select => BucketStep(p0, r, t, bs[env.hash % |bs|], env);
        case All => BucketsStep(p0, r, t, bs, env);
        case OtherType =>
        case _ => BucketStep(p0, r, t, bs[0], env);
      }
    }
  }

  // ---- the theorem ---------------------------------------------------------

  /** What the kernel sends when it runs the actions translated for a packet. */
  function KernelSends(p: Packet, actions: seq<Action>, env: Env): seq<Sent>
    requires PacketOk(p)
  {
    ExecuteAll(p, Translate(Run(Context(KeyOf(p), {}, Zeroes(CELLS), []), []), actions, env).ctx.msg).sent
  }

  function EagerSends(p: Packet, actions: seq<Action>, env: Env): seq<Sent>
    requires PacketOk(p)
  {
    Eager(Trip(Wire(p, []), []), actions, env).wire.sent
  }

  /** With at most one tag, every action list means to the kernel what it means eagerly. */
  lemma LazyCommitsPreserveMeaning(p: Packet, actions: seq<Action>, env: Env)
    requires PacketOk(p) && |p.tags| <= 1
    ensures KernelSends(p, actions, env) == EagerSends(p, actions, env)
    ensures Translate(Run(Context(KeyOf(p), {}, Zeroes(CELLS), []), []), actions, env).stats ==
            Eager(Trip(Wire(p, []), []), actions, env).handles
  {
    FreshStep(p, Zeroes(CELLS));
    TranslateStep(p, Run(Context(KeyOf(p), {}, Zeroes(CELLS), []), []), Trip(Wire(p, []), []), actions, env);
  }

  /** A new context is in step with its packet. */
  lemma FreshStep(p: Packet, mask: Cells)
    requires PacketOk(p) && |p.tags| <= 1 && Sized(mask)
    ensures OnTrip(p, Run(Context(KeyOf(p), {}, mask, []), []), Trip(Wire(p, []), []))
  {
  }

  lemma {:induction false} CommitNothing(x: Context, n: nat)
    requires Fits(x) && x.modified == {} && n <= |FIELDS|
    ensures CommitFields(x, n) == x
  {
    if n > 0 {
      CommitNothing(x, n - 1);
    }
  }

  const POP_TWICE: seq<Action> := [Set(PopVlan), Local, Set(PopVlan), Local]

  /** With two tags, popping twice goes wrong: the second pop is lost. */
  lemma SecondPopIsLost(p: Packet, env: Env)
    requires PacketOk(p) && |p.tags| >= 2
    ensures EagerSends(p, POP_TWICE, env) ==
            [Sent(Port(OVSP_LOCAL), p.(tags := p.tags[1..])), Sent(Port(OVSP_LOCAL), p.(tags := p.tags[2..]))]
    ensures KernelSends(p, POP_TWICE, env) ==
            [Sent(Port(OVSP_LOCAL), p.(tags := p.tags[1..])), Sent(Port(OVSP_LOCAL), p.(tags := p.tags[1..]))]
  {
    EagerPops(p, env);
    KernelPops(p, env);
  }

  lemma EagerPops(p: Packet, env: Env)
    requires PacketOk(p) && |p.tags| >= 2
    ensures EagerSends(p, POP_TWICE, env) ==
            [Sent(Port(OVSP_LOCAL), p.(tags := p.tags[1..])), Sent(Port(OVSP_LOCAL), p.(tags := p.tags[2..]))]
  {
    var a := POP_TWICE;
    var w1 := Wire(p.(tags := p.tags[1..]), []);
    var w2 := Send(w1, Port(OVSP_LOCAL));
    var w3 := w2.(packet := p.(tags := p.tags[2..]));
    calc {
      Eager(Trip(Wire(p, []), []), a, env);
      { assert a[1..] == [Local, Set(PopVlan), Local]; }
      Eager(Trip(w1, []), [Local, Set(PopVlan), Local], env);
      { assert [Local, Set(PopVlan), Local][1..] == [Set(PopVlan), Local]; }
      Eager(Trip(w2, []), [Set(PopVlan), Local], env);
      { assert p.tags[1..][1..] == p.tags[2..]; assert [Set(PopVlan), Local][1..] == [Local]; }
      Eager(Trip(w3, []), [Local], env);
      { assert [Local][1..] == []; }
      Trip(Send(w3, Port(OVSP_LOCAL)), []);
    }
  }

  lemma KernelPops(p: Packet, env: Env)
    requires PacketOk(p) && |p.tags| >= 2
    ensures KernelSends(p, POP_TWICE, env) ==
            [Sent(Port(OVSP_LOCAL), p.(tags := p.tags[1..])), Sent(Port(OVSP_LOCAL), p.(tags := p.tags[1..]))]
  {
    var x := Context(KeyOf(p), {}, Zeroes(CELLS), []);
    var x1 := SetField(x, PopVlan);
    var x2 := OutputTo(x1, OVSP_LOCAL);
    var x3 := OutputTo(x2, OVSP_LOCAL);
    hide ExecuteAll;
    CommitNothing(CommitVlan(x1), |FIELDS|);
    assert x2.msg == [KPopVlan, KOutput(OVSP_LOCAL)];
    calc {
      Translate(Run(x, []), POP_TWICE, env);
      { assert POP_TWICE[1..] == [Local, Set(PopVlan), Local]; }
      Translate(Run(x1, []), [Local, Set(PopVlan), Local], env);
      { assert [Local, Set(PopVlan), Local][1..] == [Set(PopVlan), Local]; }
      Translate(Run(x2, []), [Set(PopVlan), Local], env);
      { assert [Set(PopVlan), Local][1..] == [Local]; }
      Translate(Run(x2, []), [Local], env);
      { assert [Local][1..] == []; }
      Run(x3, []);
    }
    assert x3.msg == [KPopVlan, KOutput(OVSP_LOCAL), KOutput(OVSP_LOCAL)];
    KernelRuns(p);
  }

  lemma KernelRuns(p: Packet)
    requires PacketOk(p) && |p.tags| >= 2
    ensures ExecuteAll(p, [KPopVlan, KOutput(OVSP_LOCAL), KOutput(OVSP_LOCAL)]).sent ==
            [Sent(Port(OVSP_LOCAL), p.(tags := p.tags[1..])), Sent(Port(OVSP_LOCAL), p.(tags := p.tags[1..]))]
  {
    ExecuteAppend(p, [], KPopVlan);
    ExecuteAppend(p, [KPopVlan], KOutput(OVSP_LOCAL));
    ExecuteAppend(p, [KPopVlan, KOutput(OVSP_LOCAL)], KOutput(OVSP_LOCAL));
    assert [] + [KPopVlan] == [KPopVlan];
    assert [KPopVlan, KOutput(OVSP_LOCAL)] + [KOutput(OVSP_LOCAL)] == [KPopVlan, KOutput(OVSP_LOCAL), KOutput(OVSP_LOCAL)];
  }

  /** Meaning is preserved for every action list exactly when the packet has at most one tag. */
  lemma OneTagIsExact(p: Packet, env: Env)
    requires PacketOk(p)
    ensures (forall actions :: KernelSends(p, actions, env) == EagerSends(p, actions, env)) <==> |p.tags| <= 1
  {
    if |p.tags| <= 1 {
      forall actions ensures KernelSends(p, actions, env) == EagerSends(p, actions, env) {
        LazyCommitsPreserveMeaning(p, actions, env);
      }
    } else {
      SecondPopIsLost(p, env);
      assert KernelSends(p, POP_TWICE, env)[1].packet.tags != EagerSends(p, POP_TWICE, env)[1].packet.tags;
    }
  }
}
