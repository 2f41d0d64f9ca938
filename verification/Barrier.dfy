/**
 barrier.c: revalidation is put off until a barrier, a timer or a full table
 forces it.  Every change of the tables makes a new version; 'floor' is the
 oldest version any cached flow or upcall process may still be working from.
 */
module Barrier {
  import opened Cells
  import opened Keys
  import opened FlowState
  import opened Ledger
  import opened Kflow
  import CfrSoundness

  const MAX_BLOCKED_CXNS := 8

  type Slots = seq<Option<nat>>

  ghost predicate NoTwice(s: Slots) {
    forall i, j :: 0 <= i < j < |s| && s[i].Some? ==> s[i] != s[j]
  }

  /** Flows and child processes work from version 'floor' or later. */
  ghost predicate NotBefore(floor: int, flows: Flows, asOf: map<nat, nat>, children: seq<Pipeline>,
                            forked: seq<nat>, history: seq<Pipeline>)
  {
    && floor < |history|
    && (forall id :: id in flows ==> id in asOf && asOf[id] >= floor)
    && |forked| == |children|
    && (forall t :: 0 <= t < |children| ==> floor <= forked[t] < |history|)
    && (forall t :: 0 <= t < |children| ==> forked[t] < |history| && children[t] == history[forked[t]])
  }

  /** Every change but that of 'cxn' is everywhere, or its connection is blocked and the timer runs. */
  ghost predicate GuardsBut(cxn: Option<nat>, slots: Slots, changed: map<nat, nat>, floor: int, timer: bool) {
    && NoTwice(slots)
    && (forall c :: c in changed && Some(c) != cxn ==> changed[c] <= floor || Some(c) in slots)
    && ((exists i :: 0 <= i < |slots| && slots[i].Some?) ==> timer)
  }

  lemma NoneBlocked(slots: Slots, changed: map<nat, nat>, floor: int)
    requires forall i :: 0 <= i < |slots| ==> slots[i].None?
    requires forall c :: c in changed ==> changed[c] <= floor
    ensures GuardsBut(None, slots, changed, floor, false)
  {
  }

  lemma NowBlocked(slots: Slots, i: nat, c: nat, changed: map<nat, nat>, floor: int, timer: bool)
    requires GuardsBut(Some(c), slots, changed, floor, timer) && i < |slots| && slots[i].None? && Some(c) !in slots
    ensures GuardsBut(None, slots[i := Some(c)], changed, floor, true) && Some(c) in slots[i := Some(c)]
  {
    var after := slots[i := Some(c)];
    assert after[i] == Some(c);
    forall d | d in changed && changed[d] > floor ensures Some(d) in after {
      if d != c {
        var j :| 0 <= j < |slots| && slots[j] == Some(d);
        assert after[j] == Some(d);
      }
    }
  }

  lemma StillBlocked(slots: Slots, c: nat, changed: map<nat, nat>, floor: int, timer: bool)
    requires GuardsBut(Some(c), slots, changed, floor, timer) && Some(c) in slots
    ensures GuardsBut(None, slots, changed, floor, timer) && timer
  {
  }

  lemma AllCurrent(flows: Flows, asOf: map<nat, nat>, children: seq<Pipeline>, forked: seq<nat>, history: seq<Pipeline>)
    requires |history| > 0 && |forked| == |children|
    requires forall id :: id in flows ==> id in asOf && asOf[id] == |history| - 1
    requires forall t :: 0 <= t < |children| ==> children[t] == history[|history| - 1] && forked[t] == |history| - 1
    ensures NotBefore(|history| - 1, flows, asOf, children, forked, history)
  {
  }

  class Scheduler {
    const cache: Cache
    const blocked: array<Option<nat>>
    var timer: bool
    var children: seq<Pipeline>
    ghost var forked: seq<nat>
    ghost var changed: map<nat, nat>
    ghost var floor: int

    /** What holds even between a change and the scheduling of its revalidation. */
    ghost predicate Ready()
      reads this, cache, cache.tcam, blocked
    {
      && cache.Valid()
      && NotBefore(floor, cache.flows, cache.asOf, children, forked, cache.history)
      && blocked.Length == MAX_BLOCKED_CXNS
      && (forall c :: c in changed ==> changed[c] <= cache.Version())
    }

    ghost predicate Valid()
      reads this, cache, cache.tcam, blocked
    {
      && Ready()
      && GuardsBut(None, blocked[..], changed, floor, timer)
      && (floor < cache.Version() ==> timer)
    }

    ghost predicate Blocked(cxn: nat)
      reads this, blocked
    {
      Some(cxn) in blocked[..]
    }

    constructor (cache: Cache, threads: nat)
      requires cache.Valid() && cache.flows == map[]
      ensures Valid() && this.cache == cache && changed == map[] && fresh(blocked) && !timer
    {
      this.cache := cache;
      blocked := new Option<nat>[MAX_BLOCKED_CXNS](i => None);
      timer := false;
      var p := cache.pipeline;
      children := seq(threads, i => p);
      changed := map[];
      cache.Live();
      ghost var v: nat := |cache.history| - 1;
      floor, forked := v, seq(threads, i => v);
    }

    /** ind_ovs_upcall_respawn: every child is killed and forked anew. */
    method Respawn()
      requires |cache.history| > 0
      modifies this`children, this`forked
      ensures |children| == |old(children)| == |forked|
      ensures forall t :: 0 <= t < |children| ==> children[t] == cache.pipeline && forked[t] == cache.Version()
    {
      ghost var v: nat := |cache.history| - 1;
      forked := seq(|children|, i => v);
      for t := 0 to |children|
        invariant |children| == |old(children)| && forked == seq(|children|, i => v)
        invariant forall u :: 0 <= u < t ==> children[u] == cache.pipeline
      {
        children := children[t := cache.pipeline];
      }
    }

    /** The loop of 'revalidate' over the blocked connections. */
    method UnblockAll()
      modifies blocked
      ensures forall i :: 0 <= i < blocked.Length ==> blocked[i].None?
    {
      for i := 0 to blocked.Length
        invariant forall j :: 0 <= j < i ==> blocked[j].None?
      {
        if blocked[i].Some? {
          blocked[i] := None;
        }
      }
    }

    /** The work of 'revalidate': bring the cache up to date and fork new children. */
    method Refresh()
      requires Ready()
      modifies this`children, this`forked, this`floor, cache, cache.tcam
      ensures Ready() && cache.Coherent() && floor == cache.Version()
      ensures cache.history == old(cache.history) && cache.pipeline == old(cache.pipeline)
    {
      hide Cache.Valid, NotBefore, Cache.Coherent;
      cache.Live();
      cache.InvalidateAll();
      Respawn();
      AllCurrent(cache.flows, cache.asOf, children, forked, cache.history);
      floor := |cache.history| - 1;
    }

    /** revalidate */
    method Revalidate()
      requires Ready()
      modifies this, blocked, cache, cache.tcam
      ensures Valid() && unchanged(this`changed) && cache.history == old(cache.history) && cache.pipeline == old(cache.pipeline)
      ensures floor == cache.Version() && !timer && (forall c :: !Blocked(c)) && None in blocked[..]
      ensures cache.Coherent()
    {
      hide Cache.Valid, NotBefore, GuardsBut, Cache.Coherent;
      Refresh();
      UnblockAll();
      assert blocked[..][0] == None;
      NoneBlocked(blocked[..], changed, floor);
      timer := false;
    }

    /** ind_ovs_barrier_defer_revalidation_internal */
    method DeferInternal()
      modifies this`timer
      ensures timer
    {
      if !timer {
        timer := true;
      }
    }

    /**
     ind_ovs_barrier_defer_revalidation.  A full table is emptied by revalidating
     early; the retry then finds a free slot, so it does not come back here again.
     */
    method Defer(cxn: Option<nat>)
      requires Ready() && GuardsBut(cxn, blocked[..], changed, floor, timer)
      modifies this, blocked, cache, cache.tcam
      ensures Valid() && unchanged(this`changed) && timer
      ensures cache.history == old(cache.history) && cache.pipeline == old(cache.pipeline)
      ensures cxn.Some? ==> Blocked(cxn.value)
      decreases if None in blocked[..] then 0 else 1
    {
      hide Cache.Valid, NotBefore, GuardsBut, Cache.Coherent;
      if cxn.None? {
        DeferInternal();
        assert GuardsBut(None, blocked[..], changed, floor, timer) by { Armed(old(timer)); }
        return;
      }
      var present, slot := FindSlot(cxn.value);
      if present {
        StillBlocked(blocked[..], cxn.value, changed, floor, timer);
        return;
      }
      if slot < 0 {
        assert None !in blocked[..];
        Revalidate();
        assert GuardsBut(cxn, blocked[..], changed, floor, timer) by { Narrow(cxn); }
        Defer(cxn);
        return;
      }
      NowBlocked(blocked[..], slot, cxn.value, changed, floor, timer);
      blocked[slot] := cxn;
      assert blocked[..] == old(blocked[..])[slot := cxn];
      timer := true;
    }

    lemma Armed(was: bool)
      requires GuardsBut(None, blocked[..], changed, floor, was)
      ensures GuardsBut(None, blocked[..], changed, floor, true)
    {
    }

    lemma Narrow(cxn: Option<nat>)
      requires GuardsBut(None, blocked[..], changed, floor, timer)
      ensures GuardsBut(cxn, blocked[..], changed, floor, timer)
    {
    }

    /** The scan of the table: is the connection there, and which slot is free? */
    method FindSlot(cxn: nat) returns (present: bool, slot: int)
      ensures present <==> Blocked(cxn)
      ensures !present ==> -1 <= slot < blocked.Length && (slot < 0 <==> None !in blocked[..])
      ensures !present && slot >= 0 ==> blocked[slot].None?
    {
      slot := -1;
      for i := 0 to blocked.Length
        invariant -1 <= slot < i && (slot >= 0 ==> blocked[slot].None?)
        invariant forall j :: 0 <= j < i ==> blocked[j] != Some(cxn)
        invariant slot < 0 ==> forall j :: 0 <= j < i ==> blocked[j].Some?
      {
        if blocked[i] == Some(cxn) {
          assert blocked[..][i] == Some(cxn);
          return true, slot;
        } else if blocked[i].None? {
          slot := i;
        }
      }
      if slot >= 0 {
        assert blocked[..][slot] == None;
      }
      return false, slot;
    }

    // ---- the events of a run -------------------------------------------------

    /** Connection 'cxn' changes the tables. */
    method Change(cxn: nat, p: Pipeline)
      requires Valid() && Fitting(p)
      modifies this, blocked, cache, cache.tcam
      ensures Valid() && changed == old(changed)[cxn := cache.Version()] && cache.Version() == old(cache.Version()) + 1
      ensures Blocked(cxn) && timer && cache.pipeline == p
    {
      hide Cache.Valid, NotBefore, GuardsBut;
      assert NotBefore(floor, cache.flows, cache.asOf, children, forked, cache.history + [p]) by { Longer(p); }
      cache.Reconfigure(p);
      assert GuardsBut(Some(cxn), blocked[..], changed[cxn := cache.Version()], floor, timer) by { Changing(cxn, cache.Version()); }
      changed := changed[cxn := cache.Version()];
      Defer(Some(cxn));
    }

    /** A port or another internal event changes what the pipeline does. */
    method PortEvent(p: Pipeline)
      requires Valid() && Fitting(p)
      modifies this, blocked, cache, cache.tcam
      ensures Valid() && changed == old(changed) && timer && cache.pipeline == p
    {
      hide Cache.Valid, NotBefore, GuardsBut;
      assert NotBefore(floor, cache.flows, cache.asOf, children, forked, cache.history + [p]) by { Longer(p); }
      cache.Reconfigure(p);
      Defer(None);
    }

    lemma Longer(p: Pipeline)
      requires NotBefore(floor, cache.flows, cache.asOf, children, forked, cache.history)
      ensures NotBefore(floor, cache.flows, cache.asOf, children, forked, cache.history + [p])
    {
    }

    lemma Changing(cxn: nat, v: nat)
      requires GuardsBut(None, blocked[..], changed, floor, timer)
      ensures GuardsBut(Some(cxn), blocked[..], changed[cxn := v], floor, timer)
    {
    }

    /** barrier_timer */
    method TimerFires()
      requires Valid() && timer
      modifies this, blocked, cache, cache.tcam
      ensures Valid() && unchanged(this`changed) && floor == cache.Version() && !timer && cache.Coherent()
    {
      hide Cache.Valid, NotBefore, GuardsBut, Cache.Coherent;
      Revalidate();
    }

    /** barrier_received: afterwards the reply may go out. */
    method BarrierReceived(cxn: nat)
      requires Valid()
      modifies this, blocked, cache, cache.tcam
      ensures Valid() && unchanged(this`changed) && !Blocked(cxn)
      ensures cxn in changed ==> changed[cxn] <= floor
    {
      hide Cache.Valid, NotBefore, Cache.Coherent;
      var present, _ := FindSlot(cxn);
      if present {
        Revalidate();
      }
    }

    /** kflow_sock_ready: a child of whatever age asks for a flow; the answer is computed now. */
    method FlowRequest(raw: Raw, port: Port, now: Word) returns (status: Status)
      requires Valid() && CfrSoundness.WellFormed(raw.key) && Sized(raw.key.cells)
      modifies cache, cache.tcam
      ensures Valid() && cache.history == old(cache.history) && cache.pipeline == old(cache.pipeline)
      ensures forall id :: id in cache.flows && id !in old(cache.flows) ==>
                cache.flows[id].raw == raw && cache.pipeline(raw.key) == Some(cache.flows[id].verdict)
    {
      hide Cache.Valid, Cache.Wanted, GuardsBut, NotBefore, CfrSoundness.WellFormed;
      cache.Live();
      ghost var flows, asOf, next := cache.flows, cache.asOf, cache.nextId;
      status := cache.Add(raw, port, now);
      Newer(flows, asOf, next);
    }

    lemma Newer(flows: Flows, asOf: map<nat, nat>, id: nat)
      requires |cache.history| > 0 && NotBefore(floor, flows, asOf, children, forked, cache.history)
      requires (cache.flows == flows && cache.asOf == asOf)
               || (id in cache.flows && cache.flows == flows[id := cache.flows[id]] && cache.asOf == asOf[id := cache.Version()])
      ensures NotBefore(floor, cache.flows, cache.asOf, children, forked, cache.history)
    {
    }

    /** One record of the kernel's dump: flows may go, but none gets older. */
    method Expiry(raw: Raw, report: Option<Tally>, used: Option<Word>, now: Word)
      requires Valid()
      modifies cache, cache.tcam
      ensures Valid() && cache.history == old(cache.history) && cache.pipeline == old(cache.pipeline)
      ensures cache.flows.Keys <= old(cache.flows).Keys
    {
      hide Cache.Valid, GuardsBut, NotBefore;
      ghost var flows, asOf := cache.flows, cache.asOf;
      var found := cache.Expire(raw, report, used, now);
      Fewer(flows, asOf);
    }

    lemma Fewer(flows: Flows, asOf: map<nat, nat>)
      requires NotBefore(floor, flows, asOf, children, forked, cache.history)
      requires forall id :: id in cache.flows ==> id in flows
      requires forall id :: id in cache.flows && id in asOf ==> id in cache.asOf && cache.asOf[id] == asOf[id]
      ensures NotBefore(floor, cache.flows, cache.asOf, children, forked, cache.history)
    {
    }

    /** Packets hit a kernel flow. */
    method Packets(raw: Raw, n: Tally)
      requires Valid() && raw in cache.kernel
      modifies cache
      ensures Valid() && cache.flows == old(cache.flows) && cache.history == old(cache.history)
    {
      hide Cache.Valid, GuardsBut, NotBefore;
      cache.Traffic(raw, n);
    }

    /** The controller ends hitless mode. */
    method TakesOver()
      requires Valid()
      modifies cache
      ensures Valid() && !cache.hitless && cache.flows == old(cache.flows) && cache.history == old(cache.history)
    {
      hide Cache.Valid, GuardsBut, NotBefore;
      cache.Takeover();
    }

    /** signalfd_sock_ready: a child died and is forked again. */
    method ChildExits(t: nat)
      requires Valid() && t < |children|
      modifies this`children, this`forked
      ensures Valid() && children == old(children)[t := cache.pipeline]
    {
      hide Cache.Valid, GuardsBut;
      cache.Live();
      children := children[t := cache.pipeline];
      forked := forked[t := |cache.history| - 1];
    }

    /**
     Barrier safety.  When a connection is not blocked, so that its barrier reply may be
     sent, no cached flow and no child works from tables older than its last change.
     */
    lemma ReplyIsSafe(cxn: nat)
      requires Valid() && !Blocked(cxn) && cxn in changed
      ensures forall id :: id in cache.flows ==>
                id in cache.asOf && changed[cxn] <= cache.asOf[id] < |cache.history|
                && cache.history[cache.asOf[id]](cache.flows[id].raw.key) == Some(cache.flows[id].verdict)
      ensures |forked| == |children| && forall t :: 0 <= t < |children| ==>
                changed[cxn] <= forked[t] < |cache.history| && children[t] == cache.history[forked[t]]
    {
      hide Cache.Core, NoTwice;
    }
  }
}
