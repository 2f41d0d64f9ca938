/**
 kflow.c: the cache of forwarding decisions that the switch keeps in the kernel.
 Any netlink call may fail; 'failed' remembers whether one has.
 */
module Kflow {
  import opened Cells
  import opened Keys
  import opened Actions
  import opened SoftTcam
  import opened Ledger
  import opened FlowState
  import Tcam
  import CfrSoundness

  const EXPIRATION_MS: nat := 2345

  datatype Port = Admits | Missing | Full

  datatype Status = Ok | Resource | PipelineFailed | Unknown

  /** The later of the times. */
  function Latest(lastUsed: Word, used: Option<Word>): (r: Word)
    ensures lastUsed <= r && (used.Some? ==> used.value <= r) && (r == lastUsed || used == Some(r))
  {
    if used.Some? && used.value > lastUsed then used.value else lastUsed
  }

  /** Revalidation keeps a flow whose key still gets the same mask. */
  predicate Keeps(p: Pipeline, key: Key, was: Verdict) {
    p(key).Some? && p(key).value.populated == was.populated && p(key).value.mask == was.mask
  }

  lemma MirroredAt(kernel: Kernel, flows: Flows, id: nat)
    requires Mirrored(kernel, flows) && id in flows
    ensures flows[id].raw in kernel && SameFlow(flows[id], kernel[flows[id].raw])
    ensures forall x :: x in flows && x != id ==> flows[x].raw != flows[id].raw
  {
  }

  lemma ShelvedAt(shards: seq<Shard>, flows: Flows, id: nat)
    requires Shelved(shards, flows) && id in flows
    ensures Stored(shards, flows[id].entry)
  {
    hide CfrSoundness.WellFormed;
    assert EntryOf(id, flows[id]);
  }

  lemma ListedAt(all: seq<nat>, buckets: seq<seq<nat>>, flows: Flows, hash: Raw -> nat, raw: Raw)
    requires Listed(all, buckets, flows, hash)
    ensures |buckets| == BUCKETS
    ensures forall id :: id in buckets[Home(hash, raw)] ==> id in flows
    ensures forall id :: id in flows && flows[id].raw == raw ==> id in buckets[Home(hash, raw)]
  {
  }

  lemma StoredIds(shards: seq<Shard>, flows: Flows, n: nat)
    requires Shelved(shards, flows) && forall id :: id in flows ==> id < n
    ensures forall e :: Stored(shards, e) ==> e.id != n
  {
    hide Stored;
  }

  function Refreshed(f: Kflow, report: Tally, used: Option<Word>): Kflow {
    f.(tally := report, lastUsed := Latest(f.lastUsed, used))
  }

  lemma IndexedAt(all: seq<nat>, buckets: seq<seq<nat>>, flows: Flows, nextId: nat, hitless: bool,
                  shards: seq<Shard>, hash: Raw -> nat, id: nat)
    requires IndexOk(all, buckets, flows, nextId, hitless, shards, hash) && id in flows
    ensures id < nextId && !hitless && Stored(shards, flows[id].entry)
  {
    ShelvedAt(shards, flows, id);
    hide Listed, Shelved, Stored;
  }

  lemma KernelAt(kernel: Kernel, flows: Flows, pipeline: Pipeline, history: seq<Pipeline>, id: nat)
    requires KernelOk(kernel, flows, pipeline, history) && id in flows
    ensures Mirrored(kernel, flows) && |history| > 0 && history[|history| - 1] == pipeline
    ensures flows[id].raw in kernel && kernel[flows[id].raw].actions == flows[id].verdict.actions
  {
    MirroredAt(kernel, flows, id);
  }

  lemma ListedAll(all: seq<nat>, buckets: seq<seq<nat>>, flows: Flows, nextId: nat, hitless: bool,
                  shards: seq<Shard>, hash: Raw -> nat)
    requires IndexOk(all, buckets, flows, nextId, hitless, shards, hash)
    ensures NoRepeats(all) && forall id :: id in all <==> id in flows
    ensures hitless ==> flows == map[]
  {
    hide Shelved;
  }

  lemma FirstListed(all: seq<nat>, flows: Flows)
    requires forall id :: id in all <==> id in flows
    ensures all == [] || all[0] in flows
  {
    assert all == [] || all[0] in all;
  }

  ghost predicate Stays(p: Pipeline, was: Flows, id: nat) {
    id in was && Keeps(p, was[id].raw.key, was[id].verdict)
  }

  /** The walk has dealt with the first 'i' flows of 'order'. */
  ghost predicate Progress(order: seq<nat>, i: nat, was: Flows, now: Flows, asOf: map<nat, nat>, version: int,
                           p: Pipeline, clean: bool)
  {
    && i <= |order|
    && (forall id :: id in now ==> id in was && now[id].raw == was[id].raw)
    && (forall j :: i <= j < |order| ==> order[j] in now && now[order[j]] == was[order[j]])
    && (forall j :: 0 <= j < i && order[j] in now ==>
          order[j] in asOf && asOf[order[j]] == version && Stays(p, was, order[j]))
    && (clean ==> forall j :: 0 <= j < i && Stays(p, was, order[j]) ==> order[j] in now)
  }

  lemma ProgressStep(order: seq<nat>, i: nat, was: Flows, now: Flows, asOf: map<nat, nat>, version: nat,
                     p: Pipeline, clean: bool, next: Flows, dates: map<nat, nat>, clean': bool)
    requires i < |order| && NoRepeats(order) && Progress(order, i, was, now, asOf, version, p, clean)
    requires clean' ==> clean
    requires var id := order[i];
      && (if id in next then next == now[id := next[id]] && dates == asOf[id := version] && Stays(p, was, id)
                             && next[id].raw == was[id].raw
          else next == now - {id} && dates == asOf - {id})
      && (clean' && Stays(p, was, id) ==> id in next)
    ensures Progress(order, i + 1, was, next, dates, version, p, clean')
  {
    hide Stays;
    var id := order[i];
    assert forall j :: 0 <= j < |order| && j != i ==> order[j] != id;
    assert forall x :: x != id ==> (x in next <==> x in now) && (x in now ==> next[x] == now[x]);
    assert forall x :: x != id ==> (x in dates <==> x in asOf) && (x in asOf ==> dates[x] == asOf[x]);
  }

  lemma ProgressAt(order: seq<nat>, i: nat, was: Flows, now: Flows, asOf: map<nat, nat>, version: int,
                   p: Pipeline, clean: bool)
    requires i < |order| && Progress(order, i, was, now, asOf, version, p, clean)
    ensures order[i] in now && order[i] in was && now[order[i]] == was[order[i]]
  {
  }

  lemma ProgressEnd(order: seq<nat>, was: Flows, now: Flows, asOf: map<nat, nat>, version: int, p: Pipeline, clean: bool)
    requires Progress(order, |order|, was, now, asOf, version, p, clean)
    requires forall id :: id in order <==> id in was
    ensures forall id :: id in now ==> id in asOf && asOf[id] == version && id in was && now[id].raw == was[id].raw
    ensures forall id :: id in now ==> Stays(p, was, id)
    ensures clean ==> forall id :: Stays(p, was, id) ==> id in now
  {
    hide Keeps;
    forall id | id in was ensures exists j :: 0 <= j < |order| && order[j] == id {
      assert id in order;
    }
  }

  lemma NoFlowsAnyKernel(kernel: Kernel, kernel': Kernel, flows: Flows, pipeline: Pipeline, history: seq<Pipeline>)
    requires KernelOk(kernel, flows, pipeline, history) && flows == map[]
    ensures KernelOk(kernel', flows, pipeline, history)
  {
  }

  class Cache {
    const hash: Raw -> nat
    const tcam: Tcam.Table
    var all: seq<nat>
    var buckets: seq<seq<nat>>
    var flows: Flows
    var nextId: nat
    var kernel: Kernel
    var stats: Counters
    var hitless: bool
    var pipeline: Pipeline
    var failed: bool
    ghost var log: seq<Credit>
    ghost var owed: seq<Credit>
    ghost var history: seq<Pipeline>
    ghost var asOf: map<nat, nat>

    /** What holds even in the middle of revalidating a flow. */
    ghost predicate Core()
      reads this, tcam
    {
      && tcam.Valid() && tcam.keyWidth == CELLS + 1
      && IndexOk(all, buckets, flows, nextId, hitless, tcam.shards, hash)
      && KernelOk(kernel, flows, pipeline, history)
      && BooksOk(stats, log, owed, nextId, !failed, flows, kernel)
    }

    ghost predicate Valid()
      reads this, tcam
    {
      Core() && Dated(flows, asOf, history)
    }

    /** The version of the tables that the pipeline reads now. */
    ghost function Version(): int
      reads this
    {
      |history| - 1
    }

    constructor (hash: Raw -> nat, mm: Murmur, pipeline: Pipeline, hitless: bool, kernel: Kernel)
      requires Fitting(pipeline)
      ensures Valid() && flows == map[] && this.pipeline == pipeline && this.kernel == kernel && fresh(tcam)
      ensures this.hitless == hitless && !failed
    {
      this.hash := hash;
      tcam := new Tcam.Table(mm, CELLS + 1);
      all, buckets, flows, nextId := [], seq(BUCKETS, i => []), map[], 0;
      this.kernel, stats, this.hitless, this.pipeline, failed := kernel, map[], hitless, pipeline, false;
      log, owed, history, asOf := [], [], [pipeline], map[];
      new;
      forall id: nat, h: nat ensures Paid(owed, id, h) == Plus(Paid(log, id, h), Pending(flows, kernel, id, h)) {
        NothingPending(flows, kernel, id, h);
      }
    }

    /** A netlink call: the kernel may refuse it. */
    method Transact() returns (ok: bool)
      modifies this`failed
      ensures failed <==> old(failed) || !ok
    {
      ok := *;
      failed := failed || !ok;
    }

    /** kflow_lookup: by the exact bytes of the key. */
    method Lookup(raw: Raw) returns (r: Option<nat>)
      requires Valid()
      ensures r.Some? ==> r.value in flows && flows[r.value].raw == raw
      ensures r.None? ==> forall id :: id in flows ==> flows[id].raw != raw
    {
      hide Listed, Shelved, BooksOk, KernelOk, Dated, Tcam.LayoutOk, Tcam.UniqueIds;
      ListedAt(all, buckets, flows, hash, raw);
      var bucket := buckets[Home(hash, raw)];
      for i := 0 to |bucket|
        invariant forall j :: 0 <= j < i ==> flows[bucket[j]].raw != raw
      {
        assert bucket[i] in bucket;
        if flows[bucket[i]].raw == raw {
          return Some(bucket[i]);
        }
      }
      return None;
    }

    /** kflow_match: is the key covered by some flow? */
    method Match(key: Key) returns (r: Option<nat>)
      requires Valid() && Sized(key.cells)
      ensures r.Some? ==> r.value in flows && Covers(flows[r.value], key)
      ensures r.Some? <==> Covered(flows, key)
    {
      hide Listed, BooksOk, KernelOk, Dated, Stored, Matches, EntryOf, Tcam.LayoutOk, Tcam.UniqueIds, Covers, Memory;
      var m := Memory(key.populated, key.cells);
      var found, _ := tcam.MatchAndMask(m, Zeroes(CELLS + 1));
      if found.Some? {
        r := Some(found.value.id);
        assert r.value in flows;
        CoversIsMatch(r.value, flows[r.value], key);
      } else {
        r := None;
        forall id | id in flows ensures !Covers(flows[id], key) {
          ShelvedAt(tcam.shards, flows, id);
          CoversIsMatch(id, flows[id], key);
        }
      }
    }

    /** A request for this key is one for a new flow. */
    ghost predicate Wanted(raw: Raw, port: Port)
      reads this
    {
      !hitless && port.Admits? && !Covered(flows, raw.key) && pipeline(raw.key).Some?
    }

    /** ind_ovs_kflow_add.  The request carries the key only; the decision is made here, now. */
    method Add(raw: Raw, port: Port, now: Word) returns (status: Status)
      requires Valid() && CfrSoundness.WellFormed(raw.key) && Sized(raw.key.cells)
      modifies this, tcam
      ensures Valid() && unchanged(`hitless, `pipeline, `history, `stats, `log, `owed)
      ensures failed <==> old(failed) || status == Unknown
      ensures old(Wanted(raw, port)) && status == Ok ==>
                var id := old(nextId);
                && id !in old(flows) && id in flows && flows == old(flows)[id := flows[id]]
                && flows[id].raw == raw && flows[id].tally == ZERO && pipeline(raw.key) == Some(flows[id].verdict)
                && asOf == old(asOf)[id := Version()]
      ensures !(old(Wanted(raw, port)) && status == Ok) ==> unchanged(`flows, `kernel, `asOf, `all, `buckets)
      ensures status == Unknown ==> old(Wanted(raw, port))
      ensures status == Resource <==> !hitless && port.Full?
      ensures status == PipelineFailed <==>
                !hitless && port.Admits? && !old(Covered(flows, raw.key)) && pipeline(raw.key).None?
    {
      hide IndexOk, KernelOk, Dated, BooksOk, Covered, Tcam.Table.Valid, CfrSoundness.WellFormed;
      if hitless {
        return Ok;
      }
      match port
      case Missing => return Ok;
      case Full => return Resource;
      case Admits =>
        var hit := Match(raw.key);
        if hit.Some? {
          return Ok;
        }
        var v := pipeline(raw.key);
        if v.None? {
          return PipelineFailed;
        }
        BooksWeaken(stats, log, owed, nextId, !failed, flows, kernel);
        var ok := Transact();
        if !ok {
          return Unknown;
        }
        Install(nextId, raw, v.value, now);
        return Ok;
    }

    /** The second half of ind_ovs_kflow_add, once the kernel has taken the flow. */
    method Install(id: nat, raw: Raw, verdict: Verdict, now: Word)
      requires Valid() && CfrSoundness.WellFormed(raw.key) && Sized(raw.key.cells) && id == nextId && !hitless
      requires !Covered(flows, raw.key) && pipeline(raw.key) == Some(verdict)
      modifies this, tcam
      ensures Valid() && unchanged(`hitless, `pipeline, `history, `stats, `log, `owed, `failed)
      ensures id !in old(flows) && id in flows && flows == old(flows)[id := flows[id]]
      ensures flows[id].raw == raw && flows[id].tally == ZERO && flows[id].verdict == verdict
      ensures asOf == old(asOf)[id := Version()]
    {
      hide Tcam.Table.Valid, Listed, Shelved, Mirrored, Dated, BooksOk, Stored, Memory, Covered, CfrSoundness.WellFormed;
      var key := raw.key;
      assert |history| > 0 && Sized(verdict.mask);
      StoredIds(tcam.shards, flows, nextId);
      UncoveredIsNew(tcam.shards, flows, raw);
      hide IndexOk, KernelOk, Fitting, HashKey;
      ghost var before := tcam.shards;
      var e := tcam.Insert(id, Memory(key.populated, key.cells), Memory(verdict.populated, verdict.mask), 0);
      var f := Kflow(raw, e, verdict, ZERO, now);
      var k := KernelFlow(verdict.actions, verdict.populated, verdict.mask, ZERO);
      InstallIndex(all, buckets, flows, nextId, before, tcam.shards, hash, f);
      InstallCurrent(kernel, flows, pipeline, history, asOf, id, f, k);
      InstallBooks(stats, log, owed, nextId, !failed, flows, kernel, f, k);
      Enter(id, f, k);
    }

    method Enter(id: nat, f: Kflow, k: KernelFlow)
      requires |buckets| == BUCKETS && |history| > 0
      modifies this`all, this`buckets, this`flows, this`kernel, this`nextId, this`asOf
      ensures all == old(all) + [id] && flows == old(flows)[id := f] && kernel == old(kernel)[f.raw := k]
      ensures var b := Home(hash, f.raw); buckets == old(buckets)[b := old(buckets)[b] + [id]]
      ensures nextId == old(nextId) + 1 && asOf == old(asOf)[id := Version()]
    {
      var b := Home(hash, f.raw);
      kernel := kernel[f.raw := k];
      flows, nextId := flows[id := f], nextId + 1;
      all, buckets := all + [id], buckets[b := buckets[b] + [id]];
      asOf := asOf[id := |history| - 1];
    }

    /** kflow_sync_stats: credit the increase up to the reported counters to the flow's handles. */
    method Sync(id: nat, report: Option<Tally>, used: Option<Word>)
      requires Core() && id in flows
      modifies this`flows, this`stats, this`log
      ensures Core()
      ensures var f := old(flows)[id];
              var r := if report.Some? then report.value else f.tally;
              flows == old(flows)[id := Refreshed(f, r, used)] && log == Synced(old(log), id, f, r)
    {
      hide Tcam.Table.Valid, IndexOk, KernelOk, BooksOk, Minus, Share, Plus, Get;
      var f := flows[id];
      var tally, counters := f.tally, stats;
      if report.Some? {
        var diff := Minus(report.value, f.tally);
        MinusZero(report.value, f.tally);
        if diff.packets > 0 || diff.bytes > 0 {
          counters := Increase(stats, f.verdict.stats, diff);
          tally := report.value;
        }
      }
      var g := Refreshed(f, tally, used);
      MinusZero(f.tally, f.tally);
      IndexedAt(all, buckets, flows, nextId, hitless, tcam.shards, hash, id);
      KernelAt(kernel, flows, pipeline, history, id);
      RetouchIndex(all, buckets, flows, nextId, hitless, tcam.shards, hash, id, g);
      RetouchKernel(kernel, flows, pipeline, history, id, g);
      SyncBooks(stats, counters, log, owed, nextId, !failed, flows, kernel, id, g);
      assert kernel[g.raw := kernel[g.raw].(actions := g.verdict.actions)] == kernel;
      Store(id, g, counters, Synced(log, id, f, tally));
    }

    method Store(id: nat, f: Kflow, counters: Counters, ghost entries: seq<Credit>)
      modifies this`flows, this`stats, this`log
      ensures flows == old(flows)[id := f] && stats == counters && log == entries
    {
      flows, stats := flows[id := f], counters;
      log := entries;
    }

    /** ind_ovs_kflow_sync_stats: ask the kernel. */
    method SyncStats(id: nat)
      requires Core() && id in flows
      modifies this`flows, this`stats, this`log, this`failed
      ensures Core() && id in flows && old(flows)[id].raw in kernel
      ensures flows == old(flows)[id := flows[id]]
      ensures flows[id] == old(flows)[id].(tally := flows[id].tally, lastUsed := flows[id].lastUsed)
      ensures var t := kernel[flows[id].raw].tally;
              if failed then old(failed) || log == old(log)
              else !old(failed) && flows[id].tally == t && log == Synced(old(log), id, old(flows)[id], t)
    {
      hide Tcam.Table.Valid, IndexOk, KernelOk, BooksOk, Synced;
      KernelAt(kernel, flows, pipeline, history, id);
      BooksWeaken(stats, log, owed, nextId, !failed, flows, kernel);
      var ok := Transact();
      if ok {
        assert Core();
        hide Core;
        var used: Option<Word> := *;
        Sync(id, Some(kernel[flows[id].raw].tally), used);
      }
    }

    /** ind_ovs_kflow_delete */
    method Delete(id: nat)
      requires Core() && id in flows && Dated(flows - {id}, asOf - {id}, history)
      modifies this, tcam
      ensures Valid() && unchanged(`hitless, `pipeline, `history, `owed, `nextId)
      ensures flows == old(flows) - {id} && asOf == old(asOf) - {id}
      ensures old(flows)[id].raw in old(kernel)
      ensures failed ==> kernel == old(kernel) || kernel == old(kernel) - {old(flows)[id].raw}
      ensures !failed ==> var f := old(flows)[id];
                !old(failed) && kernel == old(kernel) - {f.raw}
                && log == Synced(old(log), id, f, old(kernel)[f.raw].tally)
    {
      hide Tcam.Table.Valid, IndexOk, KernelOk, BooksOk, Synced, Dated, Stored;
      SyncStats(id);
      KernelAt(kernel, flows, pipeline, history, id);
      DropBooks(stats, log, owed, nextId, !failed, flows, kernel, id);
      var ok := Transact();
      DropKernel(kernel, flows, pipeline, history, id, ok);
      assert flows - {id} == old(flows) - {id};
      Unlink(id, ok);
    }

    /** Take the flow off all three indexes, and out of the kernel map if the kernel dropped it. */
    method Unlink(id: nat, ok: bool)
      requires tcam.Valid() && tcam.keyWidth == CELLS + 1 && id in flows
      requires IndexOk(all, buckets, flows, nextId, hitless, tcam.shards, hash)
      modifies this`all, this`buckets, this`flows, this`kernel, this`asOf, tcam
      ensures tcam.Valid() && tcam.keyWidth == CELLS + 1
      ensures IndexOk(all, buckets, flows, nextId, hitless, tcam.shards, hash)
      ensures flows == old(flows) - {id} && asOf == old(asOf) - {id}
      ensures kernel == if ok then old(kernel) - {old(flows)[id].raw} else old(kernel)
    {
      hide Tcam.Table.Valid, IndexOk, Stored;
      IndexedAt(all, buckets, flows, nextId, hitless, tcam.shards, hash, id);
      ghost var before := tcam.shards;
      tcam.Remove(flows[id].entry);
      DropIndex(all, buckets, flows, nextId, hitless, before, tcam.shards, hash, id);
      Leave(id, ok);
    }

    method Leave(id: nat, ok: bool)
      requires id in flows && |buckets| == BUCKETS
      modifies this`all, this`buckets, this`flows, this`kernel, this`asOf
      ensures all == Without(old(all), id) && flows == old(flows) - {id} && asOf == old(asOf) - {id}
      ensures var b := Home(hash, old(flows)[id].raw); buckets == old(buckets)[b := Without(old(buckets)[b], id)]
      ensures kernel == if ok then old(kernel) - {old(flows)[id].raw} else old(kernel)
    {
      var raw := flows[id].raw;
      var b := Home(hash, raw);
      if ok {
        kernel := kernel - {raw};
      }
      all, buckets := Without(all, id), buckets[b := Without(buckets[b], id)];
      flows, asOf := flows - {id}, asOf - {id};
    }

    /** New handles: what is pending goes to the old ones first. */
    method Rehandle(id: nat, handles: seq<nat>)
      requires Core() && id in flows
      modifies this`flows, this`stats, this`log, this`failed
      ensures Core() && id in flows && flows == old(flows)[id := flows[id]] && flows[id].raw in kernel
      ensures var f := old(flows)[id];
              flows[id] == f.(verdict := f.verdict.(stats := handles), tally := flows[id].tally, lastUsed := flows[id].lastUsed)
      ensures handles == old(flows)[id].verdict.stats ==> unchanged(`flows, `stats, `log, `failed)
      ensures !failed ==> !old(failed)
      ensures !failed && handles != old(flows)[id].verdict.stats ==>
                log == Synced(old(log), id, old(flows)[id], kernel[flows[id].raw].tally)
    {
      hide Tcam.Table.Valid, IndexOk, KernelOk, BooksOk, Synced;
      KernelAt(kernel, flows, pipeline, history, id);
      if handles != flows[id].verdict.stats {
        SyncStats(id);
        var f := flows[id];
        var g := f.(verdict := f.verdict.(stats := handles));
        RetouchIndex(all, buckets, flows, nextId, hitless, tcam.shards, hash, id, g);
        RetouchKernel(kernel, flows, pipeline, history, id, g);
        RehandleBooks(stats, log, owed, nextId, !failed, flows, kernel, id, g);
        KernelAt(kernel, flows, pipeline, history, id);
        assert kernel[g.raw := kernel[g.raw].(actions := g.verdict.actions)] == kernel;
        flows := flows[id := g];
      }
    }

    /** New actions, unless the kernel refuses them. */
    method React(id: nat, actions: seq<KernelAction>) returns (ok: bool)
      requires Core() && id in flows
      modifies this`flows, this`kernel, this`failed
      ensures Core() && (failed <==> old(failed) || !ok)
      ensures !ok ==> unchanged(`flows, `kernel)
      ensures ok ==> var f := old(flows)[id];
                flows == old(flows)[id := f.(verdict := f.verdict.(actions := actions))]
      ensures ok ==> old(flows)[id].raw in old(kernel) && var raw := old(flows)[id].raw;
                kernel == old(kernel)[raw := old(kernel)[raw].(actions := actions)]
    {
      hide Tcam.Table.Valid, IndexOk, KernelOk, BooksOk;
      KernelAt(kernel, flows, pipeline, history, id);
      BooksWeaken(stats, log, owed, nextId, !failed, flows, kernel);
      ok := Transact();
      if ok {
        var f := flows[id];
        var g := f.(verdict := f.verdict.(actions := actions));
        var k := kernel[g.raw].(actions := actions);
        RetouchIndex(all, buckets, flows, nextId, hitless, tcam.shards, hash, id, g);
        RetouchKernel(kernel, flows, pipeline, history, id, g);
        ReactBooks(stats, log, owed, nextId, !failed, flows, kernel, id, g, k);
        flows, kernel := flows[id := g], kernel[g.raw := k];
      }
    }

    /** ind_ovs_kflow_invalidate: bring one flow up to date, or delete it. */
    method Invalidate(id: nat)
      requires Valid() && id in flows
      modifies this, tcam
      ensures Valid() && unchanged(`hitless, `pipeline, `history, `owed, `nextId)
      ensures !failed ==> !old(failed)
      ensures id in flows ==>
                && flows == old(flows)[id := flows[id]] && asOf == old(asOf)[id := Version()]
                && flows[id].raw == old(flows)[id].raw && Keeps(pipeline, flows[id].raw.key, old(flows)[id].verdict)
      ensures id !in flows ==> flows == old(flows) - {id} && asOf == old(asOf) - {id}
      ensures !failed && Keeps(pipeline, old(flows)[id].raw.key, old(flows)[id].verdict) ==> id in flows
      ensures !failed ==> old(flows)[id].raw in old(kernel) && var f := old(flows)[id];
                log == if id in flows && flows[id].verdict.stats == f.verdict.stats then old(log)
                       else Synced(old(log), id, f, old(kernel)[f.raw].tally)
    {
      hide Tcam.Table.Valid, IndexOk, KernelOk, BooksOk, Synced, Dated;
      KernelAt(kernel, flows, pipeline, history, id);
      DatedWithout(flows, asOf, history, id);
      hide Core;
      var f := flows[id];
      var v := pipeline(f.raw.key);
      if v.None? || v.value.populated != f.verdict.populated || v.value.mask != f.verdict.mask {
        Delete(id);
        return;
      }
      Rehandle(id, v.value.stats);
      assert flows - {id} == old(flows) - {id};
      if v.value.actions != f.verdict.actions {
        var ok := React(id, v.value.actions);
        assert flows - {id} == old(flows) - {id};
        if !ok {
          Delete(id);
          return;
        }
      }
      Stamp(id);
    }

    /** The flow is what the pipeline says now. */
    ghost method Stamp(id: nat)
      requires Core() && id in flows && Dated(flows - {id}, asOf - {id}, history)
      requires pipeline(flows[id].raw.key) == Some(flows[id].verdict)
      modifies this`asOf
      ensures Valid() && asOf == old(asOf)[id := Version()]
    {
      hide Tcam.Table.Valid, IndexOk, KernelOk, BooksOk, Dated;
      KernelAt(kernel, flows, pipeline, history, id);
      DatedPut(flows, asOf, history, id, flows[id]);
      assert flows[id := flows[id]] == flows;
      asOf := asOf[id := |history| - 1];
    }

    /** Every flow carries the pipeline's present verdict on its own key. */
    ghost predicate Coherent()
      reads this
    {
      forall id :: id in flows ==> pipeline(flows[id].raw.key) == Some(flows[id].verdict)
    }

    lemma UpToDateIsCoherent()
      requires |history| > 0 && history[|history| - 1] == pipeline && Dated(flows, asOf, history)
      requires forall id :: id in flows ==> id in asOf && asOf[id] == Version()
      ensures Coherent()
    {
    }

    /** ind_ovs_kflow_invalidate_all: the list is walked while flows drop out of it. */
    method InvalidateAll()
      requires Valid()
      modifies this, tcam
      ensures Valid() && unchanged(`hitless, `pipeline, `history, `owed, `nextId)
      ensures Coherent() && forall id :: id in flows ==> id in asOf && asOf[id] == Version()
      ensures forall id :: id in flows ==> Stays(pipeline, old(flows), id) && flows[id].raw == old(flows)[id].raw
      ensures !failed ==> forall id :: Stays(pipeline, old(flows), id) ==> id in flows
    {
      hide Core, Dated, Synced, Coherent, Progress;
      Opened();
      if hitless || all == [] {
        UpToDateIsCoherent();
        return;
      }
      var order := all;
      assert Progress(order, 0, flows, flows, asOf, Version(), pipeline, !failed) by { ProgressStart(order); }
      for i := 0 to |order|
        invariant Valid() && unchanged(`hitless, `pipeline, `history, `owed, `nextId)
        invariant Progress(order, i, old(flows), flows, asOf, Version(), pipeline, !failed)
      {
        ghost var now, dates, clean := flows, asOf, !failed;
        assert order[i] in flows && flows[order[i]] == old(flows)[order[i]] by {
          ProgressAt(order, i, old(flows), flows, asOf, Version(), pipeline, clean);
        }
        Invalidate(order[i]);
        ProgressStep(order, i, old(flows), now, dates, Version(), pipeline, clean, flows, asOf, !failed);
      }
      ProgressEnd(order, old(flows), flows, asOf, Version(), pipeline, !failed);
      UpToDateIsCoherent();
    }

    lemma ProgressStart(order: seq<nat>)
      requires order == all && forall id :: id in all <==> id in flows
      ensures Progress(order, 0, flows, flows, asOf, Version(), pipeline, !failed)
    {
    }

    /** The global list, the buckets and the TCAM index the same flows, whose keys all differ. */
    lemma ThreeIndexes()
      requires Valid()
      ensures NoRepeats(all) && forall id :: id in all <==> id in flows
      ensures |buckets| == BUCKETS
      ensures forall b, id :: 0 <= b < BUCKETS ==> (id in buckets[b] <==> id in flows && Home(hash, flows[id].raw) == b)
      ensures forall e :: Stored(tcam.shards, e) <==> e.id in flows && flows[e.id].entry == e
      ensures forall a, b :: a in flows && b in flows && flows[a].raw == flows[b].raw ==> a == b
      ensures hitless ==> all == []
    {
      hide Tcam.Table.Valid, BooksOk, Dated, Fitting, Stored, Home, SameFlow, EntryOf;
      FirstListed(all, flows);
    }

    /** With no netlink failure and everything synchronised, no packet is lost or counted twice. */
    lemma Conserved(h: nat)
      requires Valid() && !failed
      requires forall id :: id in flows && flows[id].raw in kernel ==> flows[id].tally == kernel[flows[id].raw].tally
      ensures Get(stats, h) == TotalPaid(owed, h)
    {
      hide Tcam.Table.Valid, IndexOk, KernelOk, Dated, Balanced, Booked, IdsBelow;
      Conservation(flows, kernel, stats, log, owed, nextId, h);
    }

    /** Only well-formed keys are cached. */
    lemma WellKeyed()
      requires Valid()
      ensures forall id :: id in flows ==> CfrSoundness.WellFormed(flows[id].raw.key)
    {
      hide Tcam.Table.Valid, BooksOk, Dated, KernelOk, Stored, Listed, CfrSoundness.WellFormed;
      forall id | id in flows ensures CfrSoundness.WellFormed(flows[id].raw.key) {
        assert EntryOf(id, flows[id]);
      }
    }

    lemma Live()
      requires Valid()
      ensures |history| > 0 && history[|history| - 1] == pipeline
    {
      hide Tcam.Table.Valid, IndexOk, BooksOk, Mirrored, Fitting, Dated;
    }

    lemma Opened()
      requires Core()
      ensures |history| > 0 && history[|history| - 1] == pipeline
      ensures NoRepeats(all) && (forall id :: id in all <==> id in flows)
      ensures hitless ==> flows == map[]
    {
      hide Tcam.Table.Valid, BooksOk, Mirrored, Fitting, Shelved;
      ListedAll(all, buckets, flows, nextId, hitless, tcam.shards, hash);
    }

    /** kflow_expire: one record of the kernel's dump, which may be out of date. */
    method Expire(raw: Raw, report: Option<Tally>, used: Option<Word>, now: Word) returns (found: Option<nat>)
      requires Valid()
      modifies this, tcam
      ensures Valid() && unchanged(`hitless, `pipeline, `history, `owed, `nextId)
      ensures found.None? ==> unchanged(this) && forall id :: id in flows ==> flows[id].raw != raw
      ensures found.Some? ==> found.value in old(flows) && old(flows)[found.value].raw == raw
      ensures found.Some? ==>
                var f := old(flows)[found.value];
                var r := if report.Some? then report.value else f.tally;
                if SubWord(now, Latest(f.lastUsed, used)) >= EXPIRATION_MS then
                  flows == old(flows) - {found.value} && asOf == old(asOf) - {found.value}
                else
                  flows == old(flows)[found.value := Refreshed(f, r, used)] && asOf == old(asOf)
    {
      hide Core, Dated, Synced;
      found := Lookup(raw);
      if found.Some? {
        var id := found.value;
        DatedRefresh(id, if report.Some? then report.value else flows[id].tally, used);
        Sync(id, report, used);
        if SubWord(now, flows[id].lastUsed) >= EXPIRATION_MS {
          DatedWithout(flows, asOf, history, id);
          Delete(id);
        }
      }
    }

    lemma DatedRefresh(id: nat, t: Tally, used: Option<Word>)
      requires id in flows && Dated(flows, asOf, history)
      ensures Dated(flows[id := Refreshed(flows[id], t, used)], asOf, history)
    {
      hide Dated;
      DatedSame(flows, asOf, history, id, Refreshed(flows[id], t, used));
    }

    lemma Alone(id: nat)
      requires Core() && id in flows
      ensures forall x :: x in flows && x != id ==> flows[x].raw != flows[id].raw
    {
      hide Tcam.Table.Valid, BooksOk, IndexOk, Fitting;
      MirroredAt(kernel, flows, id);
    }

    /** ind_ovs_kflow_flush: the assertion that no flow is listed is the precondition. */
    method Flush()
      requires Valid() && all == []
      modifies this`kernel, this`failed
      ensures Valid() && flows == map[]
      ensures !failed ==> !old(failed) && kernel == map[]
    {
      hide Tcam.Table.Valid, IndexOk, KernelOk, BooksOk, Dated;
      assert flows == map[] by { Opened(); }
      BooksWeaken(stats, log, owed, nextId, !failed, flows, kernel);
      StrayBooks(stats, log, owed, nextId, !failed, flows, kernel, map[]);
      NoFlowsAnyKernel(kernel, map[], flows, pipeline, history);
      var ok := Transact();
      if ok {
        kernel := map[];
      }
    }

    /** handle_takeover: nothing was cached while hitless, so the flush is legal. */
    method Takeover()
      requires Valid()
      modifies this`kernel, this`failed, this`hitless
      ensures Valid() && !hitless
      ensures old(hitless) && !failed ==> kernel == map[]
      ensures !old(hitless) ==> unchanged(this)
    {
      if hitless {
        assert all == [] by { Opened(); FirstListed(all, flows); }
        Flush();
        hide Tcam.Table.Valid, KernelOk, BooksOk, Dated, Listed, Shelved;
        hitless := false;
      }
    }

    /** Packets hit a kernel flow. */
    method Traffic(raw: Raw, n: Tally)
      requires Valid() && raw in kernel
      modifies this`kernel, this`owed
      ensures Valid() && kernel == old(kernel)[raw := old(kernel)[raw].(tally := Plus(old(kernel)[raw].tally, n))]
      ensures forall id :: id in flows && flows[id].raw == raw ==> owed == old(owed) + [Credit(id, flows[id].verdict.stats, n)]
      ensures (forall id :: id in flows ==> flows[id].raw != raw) ==> owed == old(owed)
    {
      hide Tcam.Table.Valid, IndexOk, KernelOk, BooksOk, Dated, Plus;
      var k := kernel[raw].(tally := Plus(kernel[raw].tally, n));
      ghost var entries := owed;
      TrafficKernel(kernel, flows, pipeline, history, raw, n);
      if id :| id in flows && flows[id].raw == raw {
        IndexedAt(all, buckets, flows, nextId, hitless, tcam.shards, hash, id);
        KernelAt(kernel, flows, pipeline, history, id);
        Alone(id);
        TrafficBooks(stats, log, owed, nextId, !failed, flows, kernel, id, n);
        entries := owed + [Credit(id, flows[id].verdict.stats, n)];
      } else {
        assert forall x :: x in flows ==> flows[x].raw in kernel by { InKernel(); }
        StrayBooks(stats, log, owed, nextId, !failed, flows, kernel, kernel[raw := k]);
      }
      kernel := kernel[raw := k];
      owed := entries;
    }

    lemma InKernel()
      requires Core()
      ensures forall id :: id in flows ==> flows[id].raw in kernel
    {
      hide Tcam.Table.Valid, BooksOk, IndexOk, Fitting;
    }

    /** The tables, ports or groups changed: from now on the pipeline decides by 'p'. */
    method Reconfigure(p: Pipeline)
      requires Valid() && Fitting(p)
      modifies this`pipeline, this`history
      ensures Valid() && pipeline == p && history == old(history) + [p]
    {
      hide Tcam.Table.Valid, IndexOk, BooksOk, Dated, Mirrored;
      DatedLonger(flows, asOf, history, p);
      pipeline := p;
      history := history + [p];
    }
  }
}
