/**
 What an action list may add to the mask: only cells of attributes that its actions
 modify, or the ingress port for the actions that tell it to somebody.
 */
module ActionMasks {
  import opened Keys
  import opened Actions

  /** The headers a set-field action writes to. */
  function Headers(f: Field): set<Attr> {
    match f
    case EthDst(_) => {ETHERNET}
    case EthSrc(_) => {ETHERNET}
    case Ipv4Dst(_) => {IPV4}
    case Ipv4Src(_, _, _, _) => {IPV4}
    case IpDscp(_) => {IPV4, IPV6}
    case IpEcn(_) => {IPV4, IPV6}
    case TcpDst(_, _) => {TCP}
    case TcpSrc(_, _) => {TCP}
    case UdpDst(_, _) => {UDP}
    case UdpSrc(_, _) => {UDP}
    case TpDst(_, _) => {TCP, UDP}
    case TpSrc(_, _) => {TCP, UDP}
    case VlanVid(_) => {VLAN}
    case VlanPcp(_) => {VLAN}
    case PopVlan => {VLAN}
    case PushVlan => {VLAN}
    case NwTtl(_) => {IPV4, IPV6}
    case Ipv6Dst(_) => {IPV6}
    case Ipv6Src(_) => {IPV6}
    case Ipv6Flabel(_) => {IPV6}
    case Priority(_) => {PRIORITY}
  }

  function Touched(actions: seq<Action>): set<Attr>
    decreases actions, 0
  {
    if actions == [] then {} else TouchedOne(actions[0]) + Touched(actions[1..])
  }

  function TouchedOne(a: Action): set<Attr>
    decreases a, 1
  {
    match a
    case Controller(_) => {IN_PORT}
    case InPort => {IN_PORT}
    case Output(_) => {}
    case Local => {}
    case Set(f) => Headers(f)
    case DecNwTtl => {IPV4, IPV6}
    case GroupAction(_, buckets) => TouchedBuckets(buckets)
  }

  function TouchedBuckets(buckets: seq<Bucket>): set<Attr>
    decreases buckets, 2
  {
    if buckets == [] then {} else Touched(buckets[0].actions) + TouchedBuckets(buckets[1..])
  }

  /** The cell belongs to none of the attributes. */
  predicate Outside(i: nat, s: set<Attr>) {
    forall a :: a in s ==> !(First(a) <= i < Past(a))
  }

  /** From x to y only attributes of 's' were modified, and no cell outside them was masked. */
  ghost predicate Within(x: Context, y: Context, s: set<Attr>) {
    && Fits(x) && Fits(y) && y.modified <= x.modified + s
    && forall i :: 0 <= i < CELLS && Outside(i, x.modified + s) ==> y.mask[i] == x.mask[i]
  }

  lemma WithinSelf(x: Context, s: set<Attr>)
    requires Fits(x)
    ensures Within(x, x, s)
  {
  }

  lemma WithinMore(x: Context, y: Context, s: set<Attr>, t: set<Attr>)
    requires Within(x, y, s) && s <= t
    ensures Within(x, y, t)
  {
    forall i | 0 <= i < CELLS && Outside(i, x.modified + t) ensures y.mask[i] == x.mask[i] {
      assert Outside(i, x.modified + s);
    }
  }

  lemma WithinTrans(x: Context, y: Context, z: Context, s: set<Attr>, t: set<Attr>)
    requires Within(x, y, s) && Within(y, z, t)
    ensures Within(x, z, s + t)
  {
    forall i | 0 <= i < CELLS && Outside(i, x.modified + (s + t)) ensures z.mask[i] == x.mask[i] {
      assert Outside(i, x.modified + s) && Outside(i, y.modified + t);
    }
  }

  lemma MaskWithin(x: Context, a: Attr)
    requires Fits(x)
    ensures Within(x, Mask(x, a), {a}) && Mask(x, a).modified == x.modified
  {
  }

  // ---- committing ----------------------------------------------------------------

  lemma VlanWithin(x: Context)
    requires Fits(x)
    ensures Within(x, CommitVlan(x), {}) && CommitVlan(x).modified == x.modified - {VLAN}
  {
    hide WithOnes;
    if VLAN in x.modified {
      MaskWithin(x, VLAN);
      assert x.modified + {VLAN} == x.modified + {};
    }
  }

  lemma {:induction false} FieldsWithin(x: Context, n: nat)
    requires Fits(x) && n <= |FIELDS|
    ensures Within(x, CommitFields(x, n), {})
  {
    hide FIELDS, WithOnes, Slice, Within;
    if n == 0 {
      WithinSelf(x, {});
    } else {
      var y := CommitFields(x, n - 1);
      FieldsWithin(x, n - 1);
      CommitFieldsKeeps(x, n - 1);
      FieldWithin(y, FIELDS[n - 1]);
      var none: set<Attr> := {};
      assert none + none == none;
      WithinTrans(x, y, CommitField(y, FIELDS[n - 1]), none, none);
    }
  }

  lemma FieldWithin(x: Context, a: Attr)
    requires Fits(x)
    ensures Within(x, CommitField(x, a), {})
  {
    hide WithOnes, Slice;
    if a in x.modified {
      MaskWithin(x, a);
      assert x.modified + {a} == x.modified + {};
    }
  }

  lemma CommitWithin(x: Context)
    requires Fits(x)
    ensures Within(x, Commit(x), {}) && Commit(x).modified == {}
  {
    hide FIELDS, WithOnes, Slice, CommitVlan, CommitFields;
    VlanWithin(x);
    var y := CommitVlan(x);
    FieldsWithin(y, |FIELDS|);
    var none: set<Attr> := {};
    assert none + none == none;
    WithinTrans(x, y, CommitFields(y, |FIELDS|), none, none);
    hide Outside;
  }

  // ---- one action ------------------------------------------------------------------

  lemma SetWithin(x: Context, f: Field)
    requires Fits(x)
    ensures Within(x, SetField(x, f), Headers(f))
  {
    hide WithVid, WithPcp, DSCP, ECN;
  }

  lemma ApplyWithin(x: Context, a: Action, pid: nat)
    requires Fits(x) && !a.DecNwTtl? && !a.GroupAction?
    ensures Within(x, Apply(x, a, pid), TouchedOne(a))
  {
    CommitWithin(x);
    if a.Set? {
      hide SetField, Headers;
      SetWithin(x, a.field);
    } else {
      hide Commit, WithOnes;
      var y := Commit(x);
      if a.Controller? || a.InPort? {
        MaskWithin(y, IN_PORT);
        WithinTrans(x, y, Mask(y, IN_PORT), {}, {IN_PORT});
        assert {} + {IN_PORT} == {IN_PORT};
      }
    }
  }

  /** Who is told the ingress port depends on it; masks only grow from there (`Actions.Translate`). */
  lemma ToldPortIsMasked(x: Context, a: Action, pid: nat)
    requires Fits(x) && (a.Controller? || a.InPort?)
    ensures Ones(32) <= Apply(x, a, pid).mask[C_IN_PORT]
  {
    hide Commit;
    assert First(IN_PORT) <= C_IN_PORT < Past(IN_PORT) && Width(C_IN_PORT) == 32;
  }

  lemma DecWithin(x: Context)
    requires Fits(x)
    ensures Within(x, DecTtl(x).0, {IPV4, IPV6})
  {
    hide Decrement;
  }

  // ---- lists -------------------------------------------------------------------------

  /** Every action list, groups included, masks only what its actions touch or what was modified before. */
  lemma {:induction false} TranslateWithin(r: Run, actions: seq<Action>, env: Env)
    requires Fits(r.ctx)
    ensures Within(r.ctx, Translate(r, actions, env).ctx, Touched(actions))
    decreases actions, 0
  {
    hide Within, Apply, DecTtl, SetField;
    if actions == [] {
      WithinSelf(r.ctx, {});
    } else {
      var a, rest := actions[0], actions[1..];
      if a.DecNwTtl? {
        DecWithin(r.ctx);
        var (y, drop) := DecTtl(r.ctx);
        if drop {
          WithinMore(r.ctx, y, TouchedOne(a), Touched(actions));
        } else {
          TranslateWithin(r.(ctx := y), rest, env);
          WithinTrans(r.ctx, y, Translate(r, actions, env).ctx, TouchedOne(a), Touched(rest));
        }
      } else if a.GroupAction? {
        GroupWithin(r, a.gtype, a.buckets, env);
        var q := ProcessGroup(r, a.gtype, a.buckets, env);
        TranslateWithin(q, rest, env);
        WithinTrans(r.ctx, q.ctx, Translate(r, actions, env).ctx, TouchedOne(a), Touched(rest));
      } else {
        ApplyWithin(r.ctx, a, env.pktinPid);
        var y := Apply(r.ctx, a, env.pktinPid);
        TranslateWithin(r.(ctx := y), rest, env);
        WithinTrans(r.ctx, y, Translate(r, actions, env).ctx, TouchedOne(a), Touched(rest));
      }
    }
  }

  lemma {:induction false} BucketWithin(r: Run, buckets: seq<Bucket>, j: nat, env: Env)
    requires Fits(r.ctx) && j < |buckets|
    ensures Within(r.ctx, ProcessBucket(r, buckets[j], env).ctx, TouchedBuckets(buckets))
    decreases buckets, 1
  {
    hide Within, ProcessBucket;
    BucketAlone(r, buckets[j], env);
    TouchedBucket(buckets, j);
    WithinMore(r.ctx, ProcessBucket(r, buckets[j], env).ctx, Touched(buckets[j].actions), TouchedBuckets(buckets));
  }

  lemma {:induction false} TouchedBucket(buckets: seq<Bucket>, j: nat)
    requires j < |buckets|
    ensures Touched(buckets[j].actions) <= TouchedBuckets(buckets)
  {
    if j > 0 {
      TouchedBucket(buckets[1..], j - 1);
    }
  }

  lemma {:induction false} BucketsWithin(r: Run, buckets: seq<Bucket>, env: Env)
    requires Fits(r.ctx)
    ensures Within(r.ctx, ProcessBuckets(r, buckets, env).ctx, TouchedBuckets(buckets))
    decreases buckets, 2
  {
    hide Within, Translate, ProcessBucket;
    if buckets == [] {
      WithinSelf(r.ctx, {});
    } else {
      var q := ProcessBucket(r, buckets[0], env);
      BucketAlone(r, buckets[0], env);
      BucketsWithin(q, buckets[1..], env);
      WithinTrans(r.ctx, q.ctx, ProcessBuckets(r, buckets, env).ctx, Touched(buckets[0].actions), TouchedBuckets(buckets[1..]));
    }
  }

  lemma {:induction false} BucketAlone(r: Run, b: Bucket, env: Env)
    requires Fits(r.ctx)
    ensures Within(r.ctx, ProcessBucket(r, b, env).ctx, Touched(b.actions))
    decreases b, 1
  {
    hide Within, Translate;
    TranslateWithin(r, b.actions, env);
    assert ProcessBucket(r, b, env).ctx == Translate(r, b.actions, env).ctx;
  }

  lemma {:induction false} GroupWithin(r: Run, gtype: GroupType, buckets: seq<Bucket>, env: Env)
    requires Fits(r.ctx)
    ensures Within(r.ctx, ProcessGroup(r, gtype, buckets, env).ctx, TouchedBuckets(buckets))
    decreases buckets, 3
  {
    hide Within, Translate, ProcessBucket, ProcessBuckets;
    WithinSelf(r.ctx, TouchedBuckets(buckets));
    if |buckets| > 0 {
      BucketsWithin(r, buckets, env);
      BucketWithin(r, buckets, 0, env);
      BucketWithin(r, buckets, env.hash % |buckets|, env);
    }
  }
}
