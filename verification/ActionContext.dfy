/**
 The action_context object and the code that drives it: action.c and the
 action translation of the standard pipeline.  Each method is proved against the
 function of the same name in Actions.
 */
module ActionContext {
  import opened Cells
  import opened Keys
  import opened Actions

  class Emitter {
    var populated: set<Attr>
    var cells: Cells
    var modified: set<Attr>
    var mask: Cells
    var msg: seq<KernelAction>

    ghost function State(): Context
      reads this
    {
      Context(Key(populated, cells), modified, mask, msg)
    }

    /** action_context_init */
    constructor (key: Key, mask: Cells)
      ensures State() == Context(key, {}, mask, [])
    {
      populated, cells := key.populated, key.cells;
      modified := {};
      this.mask := mask;
      msg := [];
    }

    // ---- set-field -----------------------------------------------------------

    method SetCell(a: Attr, i: nat, v: Bits)
      requires Fits(State()) && i < CELLS
      modifies this`cells, this`modified
      ensures State() == Actions.SetCell(old(State()), a, i, v)
    {
      if a in populated {
        modified := modified + {a};
        cells := cells[i := v];
      }
    }

    method SetBits(a: Attr, i: nat, clear: Bits, v: Bits)
      requires Fits(State()) && i < CELLS
      modifies this`cells, this`modified
      ensures State() == Actions.SetBits(old(State()), a, i, clear, v)
    {
      if a in populated {
        modified := modified + {a};
        cells := cells[i := cells[i] - clear];
        cells := cells[i := cells[i] + v];
      }
    }

    method SetPort(a: Attr, i: nat, hi: Bits, lo: Bits)
      requires Fits(State()) && i + 1 < CELLS
      modifies this`cells, this`modified
      ensures State() == Actions.SetPort(old(State()), a, i, hi, lo)
    {
      SetCell(a, i, hi);
      SetCell(a, i + 1, lo);
    }

    /** The current tag, or that of a packet about to get one. */
    method TakeTci() returns (tci: Bits)
      requires Fits(State())
      modifies this`populated, this`modified
      ensures tci == CurrentTci(old(State()))
      ensures populated == old(populated) + {VLAN} && modified == old(modified) + {VLAN}
    {
      modified := modified + {VLAN};
      if VLAN in populated {
        tci := cells[C_VLAN];
      } else {
        tci := CFI;
        populated := populated + {VLAN};
      }
    }

    method SetVlanVid(v: Bits)
      requires Fits(State())
      modifies this`populated, this`cells, this`modified
      ensures State() == Actions.SetField(old(State()), VlanVid(v))
    {
      hide WithVid, CurrentTci;
      var tci := TakeTci();
      cells := cells[C_VLAN := WithVid(tci, v)];
    }

    method SetVlanPcp(v: Bits)
      requires Fits(State())
      modifies this`populated, this`cells, this`modified
      ensures State() == Actions.SetField(old(State()), VlanPcp(v))
    {
      hide WithPcp, CurrentTci;
      var tci := TakeTci();
      cells := cells[C_VLAN := WithPcp(tci, v)];
    }

    method PopVlan()
      requires Fits(State())
      modifies this`populated, this`modified
      ensures State() == Actions.SetField(old(State()), Field.PopVlan)
    {
      if VLAN in populated {
        modified := modified + {VLAN};
        populated := populated - {VLAN};
      }
    }

    method PushVlan()
      requires Fits(State())
      modifies this`populated, this`cells, this`modified
      ensures State() == Actions.SetField(old(State()), Field.PushVlan)
    {
      if VLAN !in populated {
        modified := modified + {VLAN};
        populated := populated + {VLAN};
        cells := cells[C_VLAN := CFI];
      }
    }

    method SetPriority(v: Bits)
      requires Fits(State())
      modifies this`cells, this`modified
      ensures State() == Actions.SetField(old(State()), Priority(v))
    {
      modified := modified + {PRIORITY};
      cells := cells[C_PRIORITY := v];
    }

    method SetTransport(f: Field)
      requires Fits(State()) && (f.TcpDst? || f.TcpSrc? || f.UdpDst? || f.UdpSrc? || f.TpDst? || f.TpSrc?)
      modifies this`cells, this`modified
      ensures State() == Actions.SetField(old(State()), f)
    {
      hide Actions.SetPort;
      match f
      case TcpDst(hi, lo) => SetPort(TCP, C_T2, hi, lo);
      case TcpSrc(hi, lo) => SetPort(TCP, C_T0, hi, lo);
      case UdpDst(hi, lo) => SetPort(UDP, C_T2, hi, lo);
      case UdpSrc(hi, lo) => SetPort(UDP, C_T0, hi, lo);
      case TpDst(hi, lo) =>
        SetPort(TCP, C_T2, hi, lo);
        SetPort(UDP, C_T2, hi, lo);
      case TpSrc(hi, lo) =>
        SetPort(TCP, C_T0, hi, lo);
        SetPort(UDP, C_T0, hi, lo);
    }

    method SetTos(f: Field)
      requires Fits(State()) && (f.IpDscp? || f.IpEcn? || f.NwTtl?)
      modifies this`cells, this`modified
      ensures State() == Actions.SetField(old(State()), f)
    {
      hide Actions.SetBits, Actions.SetCell;
      match f
      case IpDscp(v) =>
        SetBits(IPV4, C_IP4_TOS, DSCP, v);
        SetBits(IPV6, C_IP6_TCLASS, DSCP, v);
      case IpEcn(v) =>
        SetBits(IPV4, C_IP4_TOS, ECN, v);
        SetBits(IPV6, C_IP6_TCLASS, ECN, v);
      case NwTtl(v) =>
        SetCell(IPV4, C_IP4_TTL, v);
        SetCell(IPV6, C_IP6_HLIMIT, v);
    }

    /** The set-field cases of pipeline_standard_translate_actions. */
    method SetField(f: Field)
      requires Fits(State())
      modifies this`populated, this`cells, this`modified
      ensures State() == Actions.SetField(old(State()), f)
    {
      hide Actions.SetCell, Actions.SetBits, Actions.SetPort, SetTci;
      match f
      case EthDst(mac) => SetCell(ETHERNET, C_ETH_DST, mac);
      case EthSrc(mac) => SetCell(ETHERNET, C_ETH_SRC, mac);
      case Ipv4Dst(v) => SetCell(IPV4, C_IP4_DST, v);
      case Ipv4Src(b0, b1, b2, b3) =>
        SetPort(IPV4, C_IP4_SRC, b0, b1);
        SetPort(IPV4, C_IP4_SRC + 2, b2, b3);
      case IpDscp(_) => SetTos(f);
      case IpEcn(_) => SetTos(f);
      case TcpDst(_, _) => SetTransport(f);
      case TcpSrc(_, _) => SetTransport(f);
      case UdpDst(_, _) => SetTransport(f);
      case UdpSrc(_, _) => SetTransport(f);
      case TpDst(_, _) => SetTransport(f);
      case TpSrc(_, _) => SetTransport(f);
      case VlanVid(v) => SetVlanVid(v);
      case VlanPcp(v) => SetVlanPcp(v);
      case PopVlan => PopVlan();
      case PushVlan => PushVlan();
      case NwTtl(_) => SetTos(f);
      case Ipv6Dst(v) => SetCell(IPV6, C_IP6_DST, v);
      case Ipv6Src(v) => SetCell(IPV6, C_IP6_SRC, v);
      case Ipv6Flabel(v) => SetCell(IPV6, C_IP6_LABEL, v);
      case Priority(v) => SetPriority(v);
    }

    // ---- committing and output -------------------------------------------------

    /** The VLAN part of commit_set_field_actions. */
    method CommitVlan()
      requires Fits(State())
      modifies this`modified, this`mask, this`msg
      ensures State() == Actions.CommitVlan(old(State()))
    {
      hide WithOnes;
      if VLAN in modified {
        msg := msg + [KPopVlan];
        if VLAN in populated {
          msg := msg + [KPushVlan(cells[C_VLAN])];
        }
        modified := modified - {VLAN};
        mask := WithOnes(mask, VLAN);
      }
    }

    /** commit_set_field_actions */
    method Commit()
      requires Fits(State())
      modifies this`modified, this`mask, this`msg
      ensures State() == Actions.Commit(old(State()))
    {
      hide Actions.CommitVlan, WithOnes, Slice;
      if modified == {} {
        return;
      }
      CommitVlan();
      ghost var begun := State();
      for n := 0 to |FIELDS|
        invariant State() == CommitFields(begun, n)
      {
        var a := FIELDS[n];
        if a in modified {
          msg := msg + [KSet(a, Slice(cells, a))];
          mask := WithOnes(mask, a);
        }
      }
      modified := {};
    }

    method Output(port: Bits)
      requires Fits(State())
      modifies this`modified, this`mask, this`msg
      ensures State() == OutputTo(old(State()), port)
    {
      hide Actions.Commit;
      Commit();
      msg := msg + [KOutput(port)];
    }

    method OutputInPort()
      requires Fits(State())
      modifies this`modified, this`mask, this`msg
      ensures State() == Actions.OutputInPort(old(State()))
    {
      hide Actions.Commit, WithOnes;
      Commit();
      msg := msg + [KOutput(cells[C_IN_PORT])];
      mask := WithOnes(mask, IN_PORT);
    }

    method Userspace(pid: nat, userdata: nat)
      requires Fits(State())
      modifies this`modified, this`mask, this`msg
      ensures State() == Actions.Userspace(old(State()), pid, userdata)
    {
      hide Actions.Commit, WithOnes;
      Commit();
      msg := msg + [KUserspace(pid, userdata)];
      mask := WithOnes(mask, IN_PORT);
    }

    /** One header's half of DEC_NW_TTL. */
    method DecTtlOf(a: Attr, i: nat) returns (drop: bool)
      requires Fits(State()) && i < CELLS
      modifies this`cells, this`modified
      ensures (State(), drop) == Actions.DecTtlOf(old(State()), a, i)
    {
      hide Decrement;
      drop := false;
      if a in populated {
        modified := modified + {a};
        if cells[i] == {} {
          return true;
        }
        cells := cells[i := Decrement(cells[i], 8)];
        drop := cells[i] == {};
      }
    }

    method DecTtl() returns (drop: bool)
      requires Fits(State())
      modifies this`cells, this`modified
      ensures (State(), drop) == Actions.DecTtl(old(State()))
    {
      hide Actions.DecTtlOf;
      drop := DecTtlOf(IPV4, C_IP4_TTL);
      if !drop {
        drop := DecTtlOf(IPV6, C_IP6_HLIMIT);
      }
    }

    // ---- action lists ------------------------------------------------------------

    /** An action other than DEC_NW_TTL and GROUP. */
    method Apply(a: Action, pid: nat)
      requires Fits(State()) && !a.DecNwTtl? && !a.GroupAction?
      modifies this
      ensures State() == Actions.Apply(old(State()), a, pid)
    {
      hide Actions.SetField, OutputTo, Actions.OutputInPort, Actions.Userspace;
      match a
      case Controller(userdata) => Userspace(pid, userdata);
      case Output(port) => Output(port);
      case Local => Output(OVSP_LOCAL);
      case InPort => OutputInPort();
      case Set(f) => SetField(f);
    }

    /** pipeline_standard_translate_actions: the loop stops for good when the TTL runs out. */
    method TranslateActions(actions: seq<Action>, before: seq<nat>, env: Env) returns (stats: seq<nat>)
      requires Fits(State())
      modifies this
      ensures Run(State(), stats) == Translate(Run(old(State()), before), actions, env)
      decreases actions, 0
    {
      hide Actions.Apply, Actions.DecTtl;
      stats := before;
      ghost var goal := Translate(Run(State(), stats), actions, env);
      var i := 0;
      while i < |actions|
        invariant 0 <= i <= |actions| && Fits(State())
        invariant Translate(Run(State(), stats), actions[i..], env) == goal
      {
        var a := actions[i];
        assert actions[i..][0] == a && actions[i..][1..] == actions[i + 1..];
        if a.DecNwTtl? {
          var drop := DecTtl();
          if drop {
            return;
          }
        } else if a.GroupAction? {
          stats := ProcessGroup(a.gtype, a.buckets, stats, env);
        } else {
          Apply(a, env.pktinPid);
        }
        i := i + 1;
      }
    }

    method ProcessBucket(b: Bucket, before: seq<nat>, env: Env) returns (stats: seq<nat>)
      requires Fits(State())
      modifies this
      ensures Run(State(), stats) == Actions.ProcessBucket(Run(old(State()), before), b, env)
      decreases b, 1
    {
      stats := TranslateActions(b.actions, before, env);
      stats := stats + [b.handle];
    }

    /** process_group */
    method ProcessGroup(gtype: GroupType, buckets: seq<Bucket>, before: seq<nat>, env: Env) returns (stats: seq<nat>)
      requires Fits(State())
      modifies this
      ensures Run(State(), stats) == Actions.ProcessGroup(Run(old(State()), before), gtype, buckets, env)
      decreases buckets, 3
    {
      hide Translate, Actions.ProcessBucket;
      stats := before;
      if |buckets| == 0 {
        return;
      }
      match gtype
      case Select => stats := ProcessBucket(buckets[env.hash % |buckets|], stats, env);
      case Indirect => stats := ProcessBucket(buckets[0], stats, env);
      case FastFailover => stats := ProcessBucket(buckets[0], stats, env);
      case OtherType =>
      case All =>
        ghost var goal := ProcessBuckets(Run(State(), stats), buckets, env);
        var i := 0;
        while i < |buckets|
          invariant 0 <= i <= |buckets| && Fits(State())
          invariant ProcessBuckets(Run(State(), stats), buckets[i..], env) == goal
        {
          assert buckets[i..][0] == buckets[i] && buckets[i..][1..] == buckets[i + 1..];
          stats := ProcessBucket(buckets[i], stats, env);
          i := i + 1;
        }
    }
  }
}
