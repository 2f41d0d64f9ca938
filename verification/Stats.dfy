/**
 stats.c: slots handed out from a stack, counted by several writers at once and
 added up only when somebody asks.
 */
module Stats {
  import opened Ledger

  const MAX_STATS: nat := 262144

  /** What happened to the slots, in order. */
  datatype Event = Inc(writer: nat, slot: nat, diff: Tally) | Cleared(slot: nat)

  function After(before: Tally, e: Event, slot: nat): Tally {
    if e.slot != slot then before else if e.Inc? then Plus(before, e.diff) else ZERO
  }

  /** All increments of a slot, by whichever writer, since it was last allocated or cleared. */
  function Since(log: seq<Event>, slot: nat): Tally {
    if log == [] then ZERO else After(Since(log[..|log| - 1], slot), log[|log| - 1], slot)
  }

  lemma SinceAppend(log: seq<Event>, e: Event, slot: nat)
    ensures Since(log + [e], slot) == After(Since(log, slot), e, slot)
  {
    hide After;
    assert (log + [e])[..|log|] == log;
  }

  /** One writer's counters, a cell per slot. */
  type Cellar = seq<Tally>

  ghost predicate Sized(writers: seq<Cellar>) {
    forall w :: 0 <= w < |writers| ==> |writers[w]| == MAX_STATS
  }

  function Sum(writers: seq<Cellar>, slot: nat): Tally
    requires Sized(writers) && slot < MAX_STATS
  {
    if writers == [] then ZERO else Plus(Sum(writers[..|writers| - 1], slot), writers[|writers| - 1][slot])
  }

  lemma {:induction false} SumBump(writers: seq<Cellar>, w: nat, cell: Cellar, slot: nat, s: nat, d: Tally)
    requires Sized(writers) && w < |writers| && slot < MAX_STATS && s < MAX_STATS
    requires cell == writers[w][slot := Plus(writers[w][slot], d)]
    ensures Sized(writers[w := cell])
    ensures Sum(writers[w := cell], s) == if s == slot then Plus(Sum(writers, s), d) else Sum(writers, s)
  {
    hide Plus;
    var n := |writers| - 1;
    if w == n {
      assert writers[w := cell][..n] == writers[..n];
      Group(Sum(writers[..n], s), writers[n][s], d);
    } else {
      assert writers[w := cell][..n] == writers[..n][w := cell];
      SumBump(writers[..n], w, cell, slot, s, d);
      var rest := Sum(writers[..n], s);
      Group(rest, d, writers[n][s]);
      Group(d, writers[n][s], ZERO);
      Group(rest, writers[n][s], d);
    }
  }

  lemma {:induction false} SumCleared(before: seq<Cellar>, after: seq<Cellar>, slot: nat, s: nat)
    requires Sized(before) && Sized(after) && |before| == |after| && slot < MAX_STATS && s < MAX_STATS
    requires forall w :: 0 <= w < |before| ==> after[w] == before[w][slot := ZERO]
    ensures Sum(after, s) == if s == slot then ZERO else Sum(before, s)
  {
    if before != [] {
      var n := |before| - 1;
      SumCleared(before[..n], after[..n], slot, s);
    }
  }

  lemma SumFresh(writers: seq<Cellar>, s: nat)
    requires Sized(writers) && s < MAX_STATS
    ensures Sized(writers + [seq(MAX_STATS, i => ZERO)])
    ensures Sum(writers + [seq(MAX_STATS, i => ZERO)], s) == Sum(writers, s)
  {
    var next := writers + [seq(MAX_STATS, i => ZERO)];
    assert next[..|writers|] == writers;
  }

  ghost predicate Distinct(s: seq<nat>) {
    forall i, j :: 0 <= i < j < |s| ==> s[i] != s[j]
  }

  /** The free slots and the live ones share out 0..MAX_STATS-1, nothing twice. */
  ghost predicate Partition(free: seq<nat>, live: set<nat>) {
    && Distinct(free)
    && (forall i :: 0 <= i < |free| ==> free[i] < MAX_STATS && free[i] !in live)
    && (forall s: nat :: s < MAX_STATS ==> s in live || s in free)
    && (forall s :: s in live ==> s < MAX_STATS)
  }

  lemma Pop(free: seq<nat>, live: set<nat>)
    requires Partition(free, live) && |free| > 0
    ensures var n := |free| - 1; Partition(free[..n], live + {free[n]})
  {
    hide MAX_STATS;
    var n := |free| - 1;
    forall s: nat | s < MAX_STATS ensures s in live + {free[n]} || s in free[..n] {
      if s in free && s != free[n] {
        var i :| 0 <= i < |free| && free[i] == s;
        assert free[..n][i] == s;
      }
    }
  }

  lemma Push(free: seq<nat>, live: set<nat>, s: nat)
    requires Partition(free, live) && s in live
    ensures Partition(free + [s], live - {s})
  {
    hide MAX_STATS;
  }

  class Allocator {
    const freeStack: array<nat>
    var numFree: nat
    var writers: seq<Cellar>
    ghost var live: set<nat>
    ghost var log: seq<Event>

    ghost predicate Valid()
      reads this, freeStack
    {
      && freeStack.Length == MAX_STATS && numFree <= MAX_STATS
      && Partition(freeStack[..numFree], live)
      && Sized(writers)
      && (forall s: nat :: s < MAX_STATS ==> Sum(writers, s) == Since(log, s))
    }

    /** __stats_module_init__: slot 0 ends up on top of the stack. */
    constructor ()
      ensures Valid() && live == {} && writers == [] && log == [] && fresh(freeStack)
    {
      freeStack := new nat[MAX_STATS];
      numFree, writers, live, log := 0, [], {}, [];
      new;
      hide MAX_STATS;
      while numFree < MAX_STATS
        invariant numFree <= MAX_STATS == freeStack.Length && writers == [] && live == {} && log == []
        invariant forall i :: 0 <= i < numFree ==> freeStack[i] == MAX_STATS - i - 1
      {
        freeStack[numFree] := MAX_STATS - numFree - 1;
        numFree := numFree + 1;
      }
      forall s: nat | s < MAX_STATS ensures s in freeStack[..numFree] {
        assert freeStack[..numFree][MAX_STATS - s - 1] == s;
      }
    }

    /** stats_clear */
    method Clear(slot: nat)
      requires Valid() && slot < MAX_STATS
      modifies this`writers, this`log
      ensures Valid() && log == old(log) + [Cleared(slot)] && |writers| == |old(writers)|
    {
      hide MAX_STATS, Partition;
      ghost var before := writers;
      for w := 0 to |writers|
        invariant |writers| == |before| && Sized(writers) && log == old(log)
        invariant forall u :: 0 <= u < w ==> writers[u] == before[u][slot := ZERO]
        invariant forall u :: w <= u < |writers| ==> writers[u] == before[u]
      {
        writers := writers[w := writers[w][slot := ZERO]];
      }
      forall s: nat | s < MAX_STATS ensures Sum(writers, s) == Since(log + [Cleared(slot)], s) {
        SumCleared(before, writers, slot, s);
        SinceAppend(log, Cleared(slot), s);
      }
      log := log + [Cleared(slot)];
    }

    /** stats_alloc; with no slot left the program dies. */
    method Alloc() returns (slot: nat)
      requires Valid() && numFree > 0
      modifies this`numFree, this`writers, this`live, this`log
      ensures Valid() && slot < MAX_STATS && slot !in old(live) && live == old(live) + {slot}
      ensures log == old(log) + [Cleared(slot)]
    {
      hide MAX_STATS, Partition;
      ghost var free := freeStack[..numFree];
      Pop(free, live);
      numFree := numFree - 1;
      slot := freeStack[numFree];
      assert slot < MAX_STATS && slot !in live by { Top(free, live); }
      assert free[..numFree] == freeStack[..numFree];
      live := live + {slot};
      Clear(slot);
    }

    lemma Top(free: seq<nat>, live: set<nat>)
      requires Partition(free, live) && |free| > 0
      ensures free[|free| - 1] < MAX_STATS && free[|free| - 1] !in live
    {
    }

    /** stats_free: of a live slot; there is always room on the stack for it. */
    method Free(slot: nat)
      requires Valid() && slot in live
      modifies this`numFree, this`live, freeStack
      ensures Valid() && live == old(live) - {slot} && numFree == old(numFree) + 1
    {
      Fewer(freeStack[..numFree], live, slot);
      hide MAX_STATS, Partition;
      Push(freeStack[..numFree], live, slot);
      ghost var free := freeStack[..numFree];
      freeStack[numFree] := slot;
      numFree := numFree + 1;
      assert freeStack[..numFree] == free + [slot];
      live := live - {slot};
    }

    /** stats_inc */
    method Increment(w: nat, slot: nat, diff: Tally)
      requires Valid() && w < |writers| && slot < MAX_STATS
      modifies this`writers, this`log
      ensures Valid() && log == old(log) + [Inc(w, slot, diff)] && |writers| == |old(writers)|
    {
      hide MAX_STATS, Partition, Plus;
      var cell := writers[w][slot := Plus(writers[w][slot], diff)];
      forall s: nat | s < MAX_STATS
        ensures Sized(writers[w := cell]) && Sum(writers[w := cell], s) == Since(log + [Inc(w, slot, diff)], s)
      {
        SumBump(writers, w, cell, slot, s, diff);
        SinceAppend(log, Inc(w, slot, diff), s);
      }
      writers := writers[w := cell];
      log := log + [Inc(w, slot, diff)];
    }

    /** stats_writer_create: memory from mmap is zero. */
    method CreateWriter() returns (w: nat)
      requires Valid()
      modifies this`writers
      ensures Valid() && w == |old(writers)| && |writers| == w + 1
    {
      hide Partition;
      w := |writers|;
      forall s: nat | s < MAX_STATS
        ensures Sized(writers + [seq(MAX_STATS, i => ZERO)]) && Sum(writers + [seq(MAX_STATS, i => ZERO)], s) == Sum(writers, s)
      {
        SumFresh(writers, s);
      }
      writers := writers + [seq(MAX_STATS, i => ZERO)];
    }

    /** stats_get */
    method Get(slot: nat) returns (result: Tally)
      requires Valid() && slot < MAX_STATS
      ensures result == Since(log, slot)
    {
      hide MAX_STATS, Partition, Plus;
      result := ZERO;
      for w := 0 to |writers|
        invariant Sized(writers[..w]) && result == Sum(writers[..w], slot)
      {
        assert writers[..w + 1][..w] == writers[..w];
        result := Plus(result, writers[w][slot]);
      }
      assert writers[..|writers|] == writers;
    }
  }

  /** Distinct slots that leave one out do not fill the stack. */
  lemma Fewer(free: seq<nat>, live: set<nat>, s: nat)
    requires Partition(free, live) && s in live && |free| <= MAX_STATS
    ensures |free| < MAX_STATS
  {
    hide MAX_STATS;
    Crowded(free + [s], MAX_STATS);
  }

  /** Distinct numbers below n: at most n of them. */
  lemma {:induction false} Crowded(a: seq<nat>, n: nat)
    requires Distinct(a) && forall i :: 0 <= i < |a| ==> a[i] < n
    ensures |a| <= n
  {
    assert |a| == 0 || a[0] < n;
    if n > 0 && n - 1 in a {
      var i :| 0 <= i < |a| && a[i] == n - 1;
      var b := a[..i] + a[i + 1..];
      assert forall j :: 0 <= j < |b| ==> b[j] == a[if j < i then j else j + 1];
      Crowded(b, n - 1);
    } else if n > 0 {
      forall j | 0 <= j < |a| ensures a[j] < n - 1 {
        assert a[j] in a;
      }
      Crowded(a, n - 1);
    }
  }
}
