/**
 The state of the kernel flow cache as values: the flow records, the three
 indexes over them, the kernel's own table and the statistics books, with what
 each single step does to them.
 */
module FlowState {
  import opened Cells
  import opened Keys
  import opened Actions
  import opened SoftTcam
  import opened Ledger
  import CfrSoundness

  const BUCKETS: nat := 8192

  /** A key as the kernel spells it: what parsing keeps of it, and the rest. */
  datatype Raw = Raw(key: Key, rest: seq<nat>)

  type Pipeline = Key -> Option<Verdict>

  /** struct ind_ovs_kflow; 'entry' is its embedded tcam_entry. */
  datatype Kflow = Kflow(raw: Raw, entry: Entry, verdict: Verdict, tally: Tally, lastUsed: Word)

  /** The same flow inside the kernel. */
  datatype KernelFlow = KernelFlow(actions: seq<KernelAction>, populated: set<Attr>, mask: Cells, tally: Tally)

  type Flows = map<nat, Kflow>

  type Kernel = map<Raw, KernelFlow>

  function Number(a: Attr): nat {
    match a
    case PRIORITY => 2 case IN_PORT => 3 case ETHERNET => 4 case VLAN => 5 case ETHERTYPE => 6
    case IPV4 => 7 case IPV6 => 8 case TCP => 9 case UDP => 10 case ICMP => 11 case ICMPV6 => 12
    case ARP => 13 case TCP_FLAGS => 18
  }

  function Bitmap(p: set<Attr>): set<nat> {
    set a | a in p :: Number(a)
  }

  /** The whole parsed key as TCAM memory: the populated bitmap comes first. */
  function Memory(populated: set<Attr>, cells: Cells): (r: Cells)
    ensures |r| == |cells| + 1
  {
    [Bitmap(populated)] + cells
  }

  // ---- lists -----------------------------------------------------------------

  predicate NoRepeats(s: seq<nat>) {
    forall i, j :: 0 <= i < j < |s| ==> s[i] != s[j]
  }

  /** list_remove */
  function Without(s: seq<nat>, x: nat): (r: seq<nat>)
    ensures forall y :: y in r <==> y in s && y != x
    ensures NoRepeats(s) ==> NoRepeats(r)
  {
    if s == [] then []
    else
      var rest := Without(s[1..], x);
      assert forall y :: y in s <==> y == s[0] || y in s[1..];
      assert NoRepeats(s) ==> NoRepeats(s[1..]) && s[0] !in s[1..];
      assert s[0] !in rest && NoRepeats(rest) ==> NoRepeats([s[0]] + rest);
      if s[0] == x then rest else [s[0]] + rest
  }

  function Home(hash: Raw -> nat, raw: Raw): (b: nat)
    ensures b < BUCKETS
  {
    hash(raw) % BUCKETS
  }

  /** The global list and the hash buckets hold exactly the flows, each once. */
  ghost predicate Listed(all: seq<nat>, buckets: seq<seq<nat>>, flows: Flows, hash: Raw -> nat) {
    && NoRepeats(all) && (forall id :: id in all <==> id in flows)
    && |buckets| == BUCKETS
    && (forall b :: 0 <= b < BUCKETS ==> NoRepeats(buckets[b]))
    && (forall b, id :: 0 <= b < BUCKETS ==>
          (id in buckets[b] <==> id in flows && Home(hash, flows[id].raw) == b))
  }

  lemma ListedAdd(all: seq<nat>, buckets: seq<seq<nat>>, flows: Flows, hash: Raw -> nat, id: nat, f: Kflow)
    requires Listed(all, buckets, flows, hash) && id !in flows
    ensures var b := Home(hash, f.raw);
            Listed(all + [id], buckets[b := buckets[b] + [id]], flows[id := f], hash)
  {
    hide BUCKETS, Home;
    var b := Home(hash, f.raw);
    var after := buckets[b := buckets[b] + [id]];
    assert NoRepeats(all + [id]);
    assert NoRepeats(after[b]);
  }

  lemma ListedRemove(all: seq<nat>, buckets: seq<seq<nat>>, flows: Flows, hash: Raw -> nat, id: nat)
    requires Listed(all, buckets, flows, hash) && id in flows
    ensures var b := Home(hash, flows[id].raw);
            Listed(Without(all, id), buckets[b := Without(buckets[b], id)], flows - {id}, hash)
  {
    hide BUCKETS, Home, NoRepeats;
  }

  lemma ListedUpdate(all: seq<nat>, buckets: seq<seq<nat>>, flows: Flows, hash: Raw -> nat, id: nat, f: Kflow)
    requires Listed(all, buckets, flows, hash) && id in flows && f.raw == flows[id].raw
    ensures Listed(all, buckets, flows[id := f], hash)
  {
    hide BUCKETS, Home, NoRepeats;
  }

  // ---- the megaflow TCAM -----------------------------------------------------

  ghost predicate EntryOf(id: nat, f: Kflow) {
    var k := f.raw.key;
    && f.entry.id == id && f.entry.priority == 0
    && f.entry.key == Memory(k.populated, k.cells)
    && f.entry.mask == Memory(f.verdict.populated, f.verdict.mask)
    && CfrSoundness.WellFormed(k) && Sized(k.cells) && Sized(f.verdict.mask)
  }

  /** The TCAM holds exactly the flows' entries. */
  ghost predicate Shelved(shards: seq<Shard>, flows: Flows) {
    && (forall e :: Stored(shards, e) <==> e.id in flows && flows[e.id].entry == e)
    && (forall id :: id in flows ==> EntryOf(id, flows[id]))
  }

  /** The key has those attributes of the flow's mask that the flow's key has, and agrees on the masked bits. */
  ghost predicate Covers(f: Kflow, k: Key) {
    && (forall a :: a in f.verdict.populated ==> (a in f.raw.key.populated <==> a in k.populated))
    && Agree(f.raw.key.cells, k.cells, f.verdict.mask)
  }

  /** Some flow covers the key. */
  ghost predicate Covered(flows: Flows, key: Key) {
    exists id :: id in flows && Covers(flows[id], key)
  }

  lemma NumbersDiffer(a: Attr, b: Attr)
    ensures Number(a) == Number(b) <==> a == b
  {
  }

  lemma InBitmap(p: set<Attr>, a: Attr)
    ensures Number(a) in Bitmap(p) <==> a in p
  {
    if Number(a) in Bitmap(p) {
      var b :| b in p && Number(b) == Number(a);
      NumbersDiffer(a, b);
    }
  }

  /** Two bitmaps agree under a third exactly when the attributes do. */
  lemma BitmapsAgree(p: set<Attr>, q: set<Attr>, m: set<Attr>)
    ensures CellAgree(Bitmap(p), Bitmap(q), Bitmap(m)) <==> forall a :: a in m ==> (a in p <==> a in q)
  {
    hide Bitmap, Number;
    if CellAgree(Bitmap(p), Bitmap(q), Bitmap(m)) {
      forall a | a in m ensures a in p <==> a in q {
        InBitmap(p, a);
        InBitmap(q, a);
        InBitmap(m, a);
        assert Number(a) in Bitmap(p) * Bitmap(m) <==> Number(a) in Bitmap(q) * Bitmap(m);
      }
    }
    if forall a :: a in m ==> (a in p <==> a in q) {
      forall n ensures n in Bitmap(p) * Bitmap(m) <==> n in Bitmap(q) * Bitmap(m) {
        if n in Bitmap(m) {
          var a := OfBitmap(m, n);
          InBitmap(p, a);
          InBitmap(q, a);
        }
      }
    }
  }

  lemma OfBitmap(m: set<Attr>, n: nat) returns (a: Attr)
    requires n in Bitmap(m)
    ensures a in m && Number(a) == n
  {
    a :| a in m && Number(a) == n;
  }

  /** Cells behind a first one. */
  lemma AgreeBehind(p: Bits, q: Bits, m: Bits, a: Cells, b: Cells, n: Cells)
    requires |a| == |b| == |n|
    ensures Agree([p] + a, [q] + b, [m] + n) <==> CellAgree(p, q, m) && Agree(a, b, n)
  {
    hide CellAgree;
    var x, y, z := [p] + a, [q] + b, [m] + n;
    if Agree(x, y, z) {
      assert CellAgree(x[0], y[0], z[0]);
      forall i | 0 <= i < |n| ensures CellAgree(a[i], b[i], n[i]) {
        assert CellAgree(x[i + 1], y[i + 1], z[i + 1]);
      }
    }
  }

  lemma AgreeBack(a: Cells, b: Cells, m: Cells)
    ensures Agree(a, b, m) <==> Agree(b, a, m)
  {
    if |a| == |b| == |m| {
      forall i | 0 <= i < |m| ensures CellAgree(a[i], b[i], m[i]) <==> CellAgree(b[i], a[i], m[i]) {
      }
    }
  }

  /** What agreement of whole parsed keys as memory comes to. */
  lemma CoversIsMatch(id: nat, f: Kflow, k: Key)
    requires EntryOf(id, f) && Sized(k.cells)
    ensures Matches(f.entry, Memory(k.populated, k.cells)) <==> Covers(f, k)
  {
    hide CfrSoundness.WellFormed, Bitmap, CellAgree, Agree;
    var p, q, m := k.populated, f.raw.key.populated, f.verdict.populated;
    BitmapsAgree(p, q, m);
    AgreeBehind(Bitmap(p), Bitmap(q), Bitmap(m), k.cells, f.raw.key.cells, f.verdict.mask);
    AgreeBack(k.cells, f.raw.key.cells, f.verdict.mask);
  }

  /** The mask of a decision has the key's attributes and ETHERTYPE. */
  lemma CoversPlainly(f: Kflow, k: Key)
    requires f.verdict.populated == f.raw.key.populated + {ETHERTYPE}
    ensures Covers(f, k) <==>
      && f.raw.key.populated <= k.populated && (ETHERTYPE in k.populated <==> ETHERTYPE in f.raw.key.populated)
      && Agree(f.raw.key.cells, k.cells, f.verdict.mask)
  {
    hide Agree;
    if Covers(f, k) {
      assert ETHERTYPE in f.verdict.populated;
    }
  }

  lemma SelfCovers(f: Kflow, id: nat)
    requires EntryOf(id, f)
    ensures Covers(f, f.raw.key)
  {
    hide CfrSoundness.WellFormed;
  }

  /** A flow matches its own key, so an uncovered key has a spelling no flow has. */
  lemma UncoveredIsNew(shards: seq<Shard>, flows: Flows, raw: Raw)
    requires Shelved(shards, flows) && Sized(raw.key.cells)
    requires !Covered(flows, raw.key)
    ensures forall id :: id in flows ==> flows[id].raw != raw
  {
    hide Covers, Memory;
    forall id | id in flows && flows[id].raw == raw ensures false {
      SelfCovers(flows[id], id);
    }
  }

  lemma ShelvedAdd(before: seq<Shard>, after: seq<Shard>, flows: Flows, id: nat, f: Kflow)
    requires Shelved(before, flows) && id !in flows && EntryOf(id, f)
    requires forall x :: Stored(after, x) <==> Stored(before, x) || x == f.entry
    ensures Shelved(after, flows[id := f])
  {
    hide Stored;
    var next := flows[id := f];
    forall e ensures Stored(after, e) <==> e.id in next && next[e.id].entry == e {
    }
    hide EntryOf;
  }

  lemma ShelvedRemove(before: seq<Shard>, after: seq<Shard>, flows: Flows, id: nat)
    requires Shelved(before, flows) && id in flows
    requires forall x :: Stored(after, x) <==> Stored(before, x) && x != flows[id].entry
    ensures Shelved(after, flows - {id})
  {
    hide Stored, CfrSoundness.WellFormed;
    assert EntryOf(id, flows[id]);
  }

  lemma ShelvedUpdate(shards: seq<Shard>, flows: Flows, id: nat, f: Kflow)
    requires Shelved(shards, flows) && id in flows
    requires f.raw == flows[id].raw && f.entry == flows[id].entry
    requires f.verdict.populated == flows[id].verdict.populated && f.verdict.mask == flows[id].verdict.mask
    ensures Shelved(shards, flows[id := f])
  {
    hide Stored, CfrSoundness.WellFormed;
    assert EntryOf(id, flows[id]);
  }

  // ---- the kernel's table ----------------------------------------------------

  ghost predicate SameFlow(f: Kflow, k: KernelFlow) {
    k.actions == f.verdict.actions && k.populated == f.verdict.populated && k.mask == f.verdict.mask
  }

  /** The kernel runs what the flows say, and no two flows share a key. */
  ghost predicate Mirrored(kernel: Kernel, flows: Flows) {
    && (forall id :: id in flows ==> flows[id].raw in kernel && SameFlow(flows[id], kernel[flows[id].raw]))
    && (forall a, b :: a in flows && b in flows && flows[a].raw == flows[b].raw ==> a == b)
  }

  lemma MirroredPut(kernel: Kernel, flows: Flows, id: nat, f: Kflow, k: KernelFlow)
    requires Mirrored(kernel, flows) && SameFlow(f, k)
    requires forall x :: x in flows && x != id ==> flows[x].raw != f.raw
    ensures Mirrored(kernel[f.raw := k], flows[id := f])
  {
    hide SameFlow;
  }

  lemma MirroredRemove(kernel: Kernel, flows: Flows, id: nat)
    requires Mirrored(kernel, flows) && id in flows
    ensures Mirrored(kernel, flows - {id}) && Mirrored(kernel - {flows[id].raw}, flows - {id})
  {
    hide SameFlow;
  }

  // ---- when each flow was computed --------------------------------------------

  /** Every flow is what the pipeline said in the version recorded for it. */
  ghost predicate Dated(flows: Flows, asOf: map<nat, nat>, history: seq<Pipeline>) {
    && asOf.Keys == flows.Keys
    && forall id :: id in flows ==>
         asOf[id] < |history| && history[asOf[id]](flows[id].raw.key) == Some(flows[id].verdict)
  }

  lemma DatedPut(flows: Flows, asOf: map<nat, nat>, history: seq<Pipeline>, id: nat, f: Kflow)
    requires Dated(flows - {id}, asOf - {id}, history) && |history| > 0
    requires history[|history| - 1](f.raw.key) == Some(f.verdict)
    ensures Dated(flows[id := f], asOf[id := |history| - 1], history)
  {
    var next, dates := flows[id := f], asOf[id := |history| - 1];
    assert dates.Keys == (asOf - {id}).Keys + {id} && next.Keys == (flows - {id}).Keys + {id};
    forall x | x in next && x != id
      ensures dates[x] < |history| && history[dates[x]](next[x].raw.key) == Some(next[x].verdict)
    {
      assert x in flows - {id};
    }
  }

  lemma DatedWithout(flows: Flows, asOf: map<nat, nat>, history: seq<Pipeline>, id: nat)
    requires Dated(flows, asOf, history)
    ensures Dated(flows - {id}, asOf - {id}, history)
  {
  }

  lemma DatedSame(flows: Flows, asOf: map<nat, nat>, history: seq<Pipeline>, id: nat, f: Kflow)
    requires Dated(flows, asOf, history) && id in flows && f.raw == flows[id].raw && f.verdict == flows[id].verdict
    ensures Dated(flows[id := f], asOf, history)
  {
  }

  lemma DatedLonger(flows: Flows, asOf: map<nat, nat>, history: seq<Pipeline>, p: Pipeline)
    requires Dated(flows, asOf, history)
    ensures Dated(flows, asOf, history + [p])
  {
  }

  // ---- the books ---------------------------------------------------------------

  /** What the kernel has counted for a flow since it was last synchronised. */
  function Unsynced(flows: Flows, kernel: Kernel, id: nat): Tally {
    if id in flows && flows[id].raw in kernel then Minus(kernel[flows[id].raw].tally, flows[id].tally) else ZERO
  }

  function HandlesOf(flows: Flows, id: nat): seq<nat> {
    if id in flows then flows[id].verdict.stats else []
  }

  function Pending(flows: Flows, kernel: Kernel, id: nat, h: nat): Tally {
    Share(HandlesOf(flows, id), h, Unsynced(flows, kernel, id))
  }

  /** For each flow and handle: due is paid plus pending. */
  ghost predicate Balanced(flows: Flows, kernel: Kernel, log: seq<Credit>, owed: seq<Credit>) {
    forall id: nat, h: nat :: Paid(owed, id, h) == Plus(Paid(log, id, h), Pending(flows, kernel, id, h))
  }

  /** The counters are what the log says was paid. */
  ghost predicate Booked(stats: Counters, log: seq<Credit>) {
    forall h: nat :: Get(stats, h) == TotalPaid(log, h)
  }

  lemma NothingPending(flows: Flows, kernel: Kernel, id: nat, h: nat)
    requires id in flows && flows[id].raw in kernel ==> flows[id].tally == kernel[flows[id].raw].tally
    ensures Pending(flows, kernel, id, h) == ZERO
  {
    ShareZero(HandlesOf(flows, id), h);
    if id in flows && flows[id].raw in kernel {
      Group(flows[id].tally, ZERO, ZERO);
    }
  }

  /** Crediting the difference to a report moves it from pending to paid, whatever the report. */
  lemma BalancedSync(flows: Flows, kernel: Kernel, log: seq<Credit>, owed: seq<Credit>, id: nat, f: Kflow)
    requires Balanced(flows, kernel, log, owed) && id in flows && flows[id].raw in kernel
    requires f.raw == flows[id].raw && f.verdict == flows[id].verdict
    ensures Balanced(flows[id := f], kernel,
                     log + [Credit(id, f.verdict.stats, Minus(f.tally, flows[id].tally))], owed)
  {
    hide Plus, Minus, Share, Paid;
    var c := Credit(id, f.verdict.stats, Minus(f.tally, flows[id].tally));
    var next := flows[id := f];
    var k := kernel[f.raw].tally;
    forall x: nat, h: nat ensures Paid(owed, x, h) == Plus(Paid(log + [c], x, h), Pending(next, kernel, x, h)) {
      PaidAppend(log, c, x, h);
      assert Paid(owed, x, h) == Plus(Paid(log, x, h), Pending(flows, kernel, x, h));
      if x == id {
        Telescope(flows[id].tally, f.tally, k);
        ShareLinear(c.handles, h, c.diff, Minus(k, f.tally));
        Group(Paid(log, x, h), Share(c.handles, h, c.diff), Share(c.handles, h, Minus(k, f.tally)));
      } else {
        Group(Paid(log, x, h), ZERO, ZERO);
      }
    }
  }

  /** A flow that is fully synchronised may change its handles, or go. */
  lemma BalancedSwitch(flows: Flows, kernel: Kernel, next: Flows, kernel': Kernel,
                       log: seq<Credit>, owed: seq<Credit>, id: nat)
    requires Balanced(flows, kernel, log, owed)
    requires id in flows && flows[id].raw in kernel ==> flows[id].tally == kernel[flows[id].raw].tally
    requires id in next && next[id].raw in kernel' ==> next[id].tally == kernel'[next[id].raw].tally
    requires forall x :: x != id ==> (x in flows <==> x in next)
    requires forall x :: x != id && x in flows ==> flows[x] == next[x]
    requires forall x :: x != id && x in flows ==> (flows[x].raw in kernel <==> flows[x].raw in kernel')
    requires forall x :: x != id && x in flows && flows[x].raw in kernel ==> kernel[flows[x].raw].tally == kernel'[flows[x].raw].tally
    ensures Balanced(next, kernel', log, owed)
  {
    hide Plus, Minus, Share, Paid;
    forall x: nat, h: nat ensures Paid(owed, x, h) == Plus(Paid(log, x, h), Pending(next, kernel', x, h)) {
      assert Paid(owed, x, h) == Plus(Paid(log, x, h), Pending(flows, kernel, x, h));
      if x == id {
        NothingPending(flows, kernel, id, h);
        NothingPending(next, kernel', id, h);
      }
    }
  }

  /** A new flow starts with nothing pending. */
  lemma BalancedFresh(flows: Flows, kernel: Kernel, log: seq<Credit>, owed: seq<Credit>, id: nat, f: Kflow, k: KernelFlow)
    requires Balanced(flows, kernel, log, owed) && id !in flows && f.tally == k.tally
    requires forall x :: x in flows ==> flows[x].raw != f.raw
    ensures Balanced(flows[id := f], kernel[f.raw := k], log, owed)
  {
    hide Balanced;
    BalancedSwitch(flows, kernel, flows[id := f], kernel[f.raw := k], log, owed, id);
  }

  /** Packets that hit a flow become due to the handles it holds at that moment. */
  lemma BalancedTraffic(flows: Flows, kernel: Kernel, log: seq<Credit>, owed: seq<Credit>, id: nat, n: Tally)
    requires Balanced(flows, kernel, log, owed) && Mirrored(kernel, flows) && id in flows
    ensures var k := kernel[flows[id].raw];
            Balanced(flows, kernel[flows[id].raw := k.(tally := Plus(k.tally, n))], log,
                     owed + [Credit(id, flows[id].verdict.stats, n)])
  {
    hide Plus, Minus, Share, Paid, SameFlow;
    var f := flows[id];
    var k := kernel[f.raw];
    var kernel' := kernel[f.raw := k.(tally := Plus(k.tally, n))];
    var c := Credit(id, f.verdict.stats, n);
    forall x: nat, h: nat ensures Paid(owed + [c], x, h) == Plus(Paid(log, x, h), Pending(flows, kernel', x, h)) {
      PaidAppend(owed, c, x, h);
      assert Paid(owed, x, h) == Plus(Paid(log, x, h), Pending(flows, kernel, x, h));
      if x == id {
        Telescope(f.tally, n, k.tally);
        var was := Minus(k.tally, f.tally);
        ShareLinear(c.handles, h, was, n);
        Group(Paid(log, x, h), Share(c.handles, h, was), Share(c.handles, h, n));
      } else {
        Group(Paid(owed, x, h), ZERO, ZERO);
      }
    }
  }

  lemma BookedSync(stats: Counters, stats': Counters, log: seq<Credit>, c: Credit)
    requires Booked(stats, log)
    requires forall h :: Get(stats', h) == Plus(Get(stats, h), Share(c.handles, h, c.diff))
    ensures Booked(stats', log + [c])
  {
    hide Plus, Share, Get, TotalPaid;
    forall h: nat ensures Get(stats', h) == TotalPaid(log + [c], h) {
      PaidAppend(log, c, 0, h);
    }
  }

  /**
   Conservation.  When nothing is pending any more, every handle holds exactly the
   packets and bytes that hit a flow while that flow held the handle.
   */
  lemma Conservation(flows: Flows, kernel: Kernel, stats: Counters, log: seq<Credit>, owed: seq<Credit>, n: nat, h: nat)
    requires Balanced(flows, kernel, log, owed) && Booked(stats, log) && IdsBelow(log, n) && IdsBelow(owed, n)
    requires forall id :: id in flows && flows[id].raw in kernel ==> flows[id].tally == kernel[flows[id].raw].tally
    ensures Get(stats, h) == TotalPaid(owed, h)
  {
    hide Plus, Minus, Share, Paid, Get, TotalPaid;
    forall id: nat | id < n ensures Paid(owed, id, h) == Paid(log, id, h) {
      assert Paid(owed, id, h) == Plus(Paid(log, id, h), Pending(flows, kernel, id, h));
      NothingPending(flows, kernel, id, h);
      Group(Paid(log, id, h), ZERO, ZERO);
    }
    TotalsAgree(owed, log, h, n);
  }

  // ---- the whole state ---------------------------------------------------------

  ghost predicate IndexOk(all: seq<nat>, buckets: seq<seq<nat>>, flows: Flows, nextId: nat, hitless: bool,
                          shards: seq<Shard>, hash: Raw -> nat)
  {
    && Listed(all, buckets, flows, hash)
    && Shelved(shards, flows)
    && (forall id :: id in flows ==> id < nextId)
    && (hitless ==> flows == map[])
  }

  /** Masks the pipeline returns have the size of a key. */
  ghost predicate Fitting(p: Pipeline) {
    forall k: Key :: Sized(k.cells) && p(k).Some? ==> Sized(p(k).value.mask)
  }

  ghost predicate KernelOk(kernel: Kernel, flows: Flows, pipeline: Pipeline, history: seq<Pipeline>) {
    && Mirrored(kernel, flows)
    && Fitting(pipeline)
    && |history| > 0 && history[|history| - 1] == pipeline
  }

  ghost predicate BooksOk(stats: Counters, log: seq<Credit>, owed: seq<Credit>, nextId: nat, worked: bool,
                          flows: Flows, kernel: Kernel)
  {
    && Booked(stats, log)
    && IdsBelow(log, nextId) && IdsBelow(owed, nextId)
    && (worked ==> Balanced(flows, kernel, log, owed))
  }

  lemma InstallIndex(all: seq<nat>, buckets: seq<seq<nat>>, flows: Flows, nextId: nat, shards: seq<Shard>,
                     after: seq<Shard>, hash: Raw -> nat, f: Kflow)
    requires IndexOk(all, buckets, flows, nextId, false, shards, hash)
    requires f.entry.id == nextId && f.entry.priority == 0 && Sized(f.raw.key.cells) && Sized(f.verdict.mask)
    requires CfrSoundness.WellFormed(f.raw.key)
    requires f.entry.key == Memory(f.raw.key.populated, f.raw.key.cells)
    requires f.entry.mask == Memory(f.verdict.populated, f.verdict.mask)
    requires forall x :: Stored(after, x) <==> Stored(shards, x) || x == f.entry
    ensures |buckets| == BUCKETS && nextId !in flows
    ensures var b := Home(hash, f.raw);
            IndexOk(all + [nextId], buckets[b := buckets[b] + [nextId]], flows[nextId := f], nextId + 1, false,
                    after, hash)
  {
    hide CfrSoundness.WellFormed;
    assert EntryOf(nextId, f);
    hide Stored, Memory, EntryOf, Home;
    ListedAdd(all, buckets, flows, hash, nextId, f);
    ShelvedAdd(shards, after, flows, nextId, f);
    hide Listed, Shelved;
  }

  lemma InstallCurrent(kernel: Kernel, flows: Flows, pipeline: Pipeline, history: seq<Pipeline>,
                       asOf: map<nat, nat>, id: nat, f: Kflow, k: KernelFlow)
    requires KernelOk(kernel, flows, pipeline, history) && Dated(flows, asOf, history)
    requires forall x :: x in flows ==> flows[x].raw != f.raw
    requires SameFlow(f, k) && pipeline(f.raw.key) == Some(f.verdict)
    ensures KernelOk(kernel[f.raw := k], flows[id := f], pipeline, history)
    ensures Dated(flows[id := f], asOf[id := |history| - 1], history)
  {
    hide SameFlow, Fitting;
    MirroredPut(kernel, flows, id, f, k);
    hide Mirrored;
  }

  lemma InstallBooks(stats: Counters, log: seq<Credit>, owed: seq<Credit>, nextId: nat, worked: bool,
                     flows: Flows, kernel: Kernel, f: Kflow, k: KernelFlow)
    requires BooksOk(stats, log, owed, nextId, worked, flows, kernel)
    requires nextId !in flows && f.tally == k.tally && forall x :: x in flows ==> flows[x].raw != f.raw
    ensures BooksOk(stats, log, owed, nextId + 1, worked, flows[nextId := f], kernel[f.raw := k])
  {
    hide Booked, Balanced;
    if worked {
      BalancedFresh(flows, kernel, log, owed, nextId, f, k);
    }
  }

  lemma BooksWeaken(stats: Counters, log: seq<Credit>, owed: seq<Credit>, nextId: nat, worked: bool,
                    flows: Flows, kernel: Kernel)
    requires BooksOk(stats, log, owed, nextId, worked, flows, kernel)
    ensures BooksOk(stats, log, owed, nextId, false, flows, kernel)
  {
  }

  // ---- touching one flow ---------------------------------------------------------

  /** Same flow, other actions, handles, counters or times. */
  ghost predicate Retouched(was: Kflow, f: Kflow) {
    && f.raw == was.raw && f.entry == was.entry
    && f.verdict.populated == was.verdict.populated && f.verdict.mask == was.verdict.mask
  }

  lemma RetouchIndex(all: seq<nat>, buckets: seq<seq<nat>>, flows: Flows, nextId: nat, hitless: bool,
                     shards: seq<Shard>, hash: Raw -> nat, id: nat, f: Kflow)
    requires IndexOk(all, buckets, flows, nextId, hitless, shards, hash) && id in flows && Retouched(flows[id], f)
    ensures IndexOk(all, buckets, flows[id := f], nextId, hitless, shards, hash)
  {
    ListedUpdate(all, buckets, flows, hash, id, f);
    ShelvedUpdate(shards, flows, id, f);
    hide Listed, Shelved;
  }

  lemma RetouchKernel(kernel: Kernel, flows: Flows, pipeline: Pipeline, history: seq<Pipeline>, id: nat, f: Kflow)
    requires KernelOk(kernel, flows, pipeline, history) && id in flows && Retouched(flows[id], f)
    ensures f.raw in kernel
    ensures var k := kernel[f.raw].(actions := f.verdict.actions);
            KernelOk(kernel[f.raw := k], flows[id := f], pipeline, history)
  {
    hide Fitting;
    var k := kernel[f.raw].(actions := f.verdict.actions);
    MirroredPut(kernel, flows, id, f, k);
    hide Mirrored;
  }

  lemma DropIndex(all: seq<nat>, buckets: seq<seq<nat>>, flows: Flows, nextId: nat, hitless: bool,
                  shards: seq<Shard>, after: seq<Shard>, hash: Raw -> nat, id: nat)
    requires IndexOk(all, buckets, flows, nextId, hitless, shards, hash) && id in flows
    requires forall x :: Stored(after, x) <==> Stored(shards, x) && x != flows[id].entry
    ensures |buckets| == BUCKETS
    ensures var b := Home(hash, flows[id].raw);
            IndexOk(Without(all, id), buckets[b := Without(buckets[b], id)], flows - {id}, nextId, hitless, after, hash)
  {
    hide Stored, Home;
    ListedRemove(all, buckets, flows, hash, id);
    ShelvedRemove(shards, after, flows, id);
    hide Listed, Shelved;
  }

  lemma DropKernel(kernel: Kernel, flows: Flows, pipeline: Pipeline, history: seq<Pipeline>, id: nat, ok: bool)
    requires KernelOk(kernel, flows, pipeline, history) && id in flows
    ensures KernelOk(if ok then kernel - {flows[id].raw} else kernel, flows - {id}, pipeline, history)
  {
    MirroredRemove(kernel, flows, id);
    hide Mirrored;
  }

  /** The log once flow 'f' is synchronised to a report. */
  function Synced(log: seq<Credit>, id: nat, f: Kflow, report: Tally): seq<Credit> {
    var diff := Minus(report, f.tally);
    if diff == ZERO then log else log + [Credit(id, f.verdict.stats, diff)]
  }

  lemma MinusZero(a: Tally, b: Tally)
    ensures Minus(a, b) == ZERO <==> a == b
  {
  }

  /** Nothing pending has changed. */
  lemma BalancedSame(flows: Flows, kernel: Kernel, next: Flows, kernel': Kernel, log: seq<Credit>, owed: seq<Credit>)
    requires Balanced(flows, kernel, log, owed)
    requires forall x :: HandlesOf(flows, x) == HandlesOf(next, x) && Unsynced(flows, kernel, x) == Unsynced(next, kernel', x)
    ensures Balanced(next, kernel', log, owed)
  {
    hide Plus, Share, Paid, HandlesOf, Unsynced;
    forall x: nat, h: nat ensures Paid(owed, x, h) == Plus(Paid(log, x, h), Pending(next, kernel', x, h)) {
      assert Paid(owed, x, h) == Plus(Paid(log, x, h), Pending(flows, kernel, x, h));
      assert HandlesOf(flows, x) == HandlesOf(next, x);
    }
  }

  lemma SyncBooks(stats: Counters, stats': Counters, log: seq<Credit>, owed: seq<Credit>, nextId: nat, worked: bool,
                  flows: Flows, kernel: Kernel, id: nat, f: Kflow)
    requires BooksOk(stats, log, owed, nextId, worked, flows, kernel) && id in flows && id < nextId
    requires flows[id].raw in kernel && f.raw == flows[id].raw && f.verdict == flows[id].verdict
    requires var diff := Minus(f.tally, flows[id].tally);
             if diff == ZERO then stats' == stats
             else forall h :: Get(stats', h) == Plus(Get(stats, h), Share(f.verdict.stats, h, diff))
    ensures BooksOk(stats', Synced(log, id, flows[id], f.tally), owed, nextId, worked, flows[id := f], kernel)
  {
    hide Booked, Balanced, Plus, Minus, Share;
    MinusZero(f.tally, flows[id].tally);
    var diff := Minus(f.tally, flows[id].tally);
    if diff == ZERO {
      if worked {
        BalancedSame(flows, kernel, flows[id := f], kernel, log, owed);
      }
    } else {
      BookedSync(stats, stats', log, Credit(id, f.verdict.stats, diff));
      if worked {
        BalancedSync(flows, kernel, log, owed, id, f);
      }
    }
  }

  /** New handles for a flow, once what is pending went to the old ones. */
  lemma RehandleBooks(stats: Counters, log: seq<Credit>, owed: seq<Credit>, nextId: nat, worked: bool,
                      flows: Flows, kernel: Kernel, id: nat, f: Kflow)
    requires BooksOk(stats, log, owed, nextId, worked, flows, kernel) && id in flows && f.raw in kernel
    requires f.raw == flows[id].raw && f.tally == flows[id].tally
    requires worked ==> f.tally == kernel[f.raw].tally
    ensures BooksOk(stats, log, owed, nextId, worked, flows[id := f], kernel)
  {
    hide Booked, Balanced;
    if worked {
      BalancedSwitch(flows, kernel, flows[id := f], kernel, log, owed, id);
    }
  }

  /** New actions for a flow. */
  lemma ReactBooks(stats: Counters, log: seq<Credit>, owed: seq<Credit>, nextId: nat, worked: bool,
                   flows: Flows, kernel: Kernel, id: nat, f: Kflow, k: KernelFlow)
    requires BooksOk(stats, log, owed, nextId, worked, flows, kernel) && id in flows && f.raw in kernel
    requires f.raw == flows[id].raw && f.tally == flows[id].tally && f.verdict.stats == flows[id].verdict.stats
    requires k.tally == kernel[f.raw].tally
    ensures BooksOk(stats, log, owed, nextId, worked, flows[id := f], kernel[f.raw := k])
  {
    hide Booked, Balanced, Minus;
    if worked {
      BalancedSame(flows, kernel, flows[id := f], kernel[f.raw := k], log, owed);
    }
  }

  /** A flow may go once nothing is pending for it. */
  lemma DropBooks(stats: Counters, log: seq<Credit>, owed: seq<Credit>, nextId: nat, worked: bool,
                  flows: Flows, kernel: Kernel, id: nat)
    requires BooksOk(stats, log, owed, nextId, worked, flows, kernel) && id in flows && Mirrored(kernel, flows)
    requires worked ==> flows[id].tally == kernel[flows[id].raw].tally
    ensures BooksOk(stats, log, owed, nextId, worked, flows - {id}, kernel - {flows[id].raw})
    ensures BooksOk(stats, log, owed, nextId, false, flows - {id}, kernel)
  {
    hide Booked, Balanced, SameFlow;
    if worked {
      BalancedSwitch(flows, kernel, flows - {id}, kernel - {flows[id].raw}, log, owed, id);
    }
  }

  lemma TrafficKernel(kernel: Kernel, flows: Flows, pipeline: Pipeline, history: seq<Pipeline>, raw: Raw, n: Tally)
    requires KernelOk(kernel, flows, pipeline, history) && raw in kernel
    ensures KernelOk(kernel[raw := kernel[raw].(tally := Plus(kernel[raw].tally, n))], flows, pipeline, history)
  {
    hide Fitting;
  }

  lemma TrafficBooks(stats: Counters, log: seq<Credit>, owed: seq<Credit>, nextId: nat, worked: bool,
                     flows: Flows, kernel: Kernel, id: nat, n: Tally)
    requires BooksOk(stats, log, owed, nextId, worked, flows, kernel) && Mirrored(kernel, flows)
    requires id in flows && id < nextId
    ensures flows[id].raw in kernel
    ensures var k := kernel[flows[id].raw];
            BooksOk(stats, log, owed + [Credit(id, flows[id].verdict.stats, n)], nextId, worked, flows,
                    kernel[flows[id].raw := k.(tally := Plus(k.tally, n))])
  {
    hide Booked, Balanced, Plus, SameFlow;
    if worked {
      BalancedTraffic(flows, kernel, log, owed, id, n);
    }
  }

  /** Traffic over a kernel flow that is not managed is due to nobody. */
  lemma StrayBooks(stats: Counters, log: seq<Credit>, owed: seq<Credit>, nextId: nat, worked: bool,
                   flows: Flows, kernel: Kernel, kernel': Kernel)
    requires BooksOk(stats, log, owed, nextId, worked, flows, kernel)
    requires forall id :: id in flows ==> flows[id].raw in kernel && flows[id].raw in kernel'
                                          && kernel[flows[id].raw] == kernel'[flows[id].raw]
    ensures BooksOk(stats, log, owed, nextId, worked, flows, kernel')
  {
    hide Booked, Balanced, Minus;
    if worked {
      BalancedSame(flows, kernel, flows, kernel', log, owed);
    }
  }
}
