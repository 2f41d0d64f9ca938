/**
 The software TCAM: one shard per mask, each shard a hash table of chains kept
 in descending priority.  A lookup asks every shard and keeps the best hit.
 Pointers to entries are modelled by the entry's 'id'; linked lists are sequences.
 */
module SoftTcam {
  import opened Cells
  import opened Arith

  const INITIAL_BUCKETS := 16

  /** murmur, as arbitrary functions: 'round' stands for murmur_round(state, w ^ i). */
  datatype Murmur = Murmur(salt: nat, round: (nat, Bits, nat) -> nat, finish: (nat, nat) -> nat)

  /** A counting Bloom filter: what was added, plus whatever it wrongly reports. */
  datatype Bloom = Bloom(members: multiset<nat>, noise: set<nat>) {
    predicate MayContain(h: nat) {
      h in members || h in noise
    }
  }

  datatype Entry = Entry(id: nat, key: Cells, mask: Cells, priority: nat, hash: nat)

  type Chain = seq<Entry>

  datatype Shard = Shard(mask: Cells, count: nat, buckets: seq<Chain>, bloom: Bloom)

  // ---- hashing -------------------------------------------------------------

  function HashUpTo(mm: Murmur, k: Cells, m: Cells, n: nat): nat
    requires n <= |k| == |m|
  {
    if n == 0 then mm.salt
    else
      var state := HashUpTo(mm, k, m, n - 1);
      if m[n - 1] != {} then mm.round(state, k[n - 1] * m[n - 1], n - 1) else state
  }

  function HashKey(mm: Murmur, k: Cells, m: Cells): nat
    requires |k| == |m|
  {
    mm.finish(HashUpTo(mm, k, m, |k|), |k|)
  }

  method ComputeHash(mm: Murmur, k: Cells, m: Cells) returns (h: nat)
    requires |k| == |m|
    ensures h == HashKey(mm, k, m)
  {
    var state := mm.salt;
    for i := 0 to |k|
      invariant state == HashUpTo(mm, k, m, i)
    {
      if m[i] != {} {
        state := mm.round(state, k[i] * m[i], i);
      }
    }
    h := mm.finish(state, |k|);
  }

  /** The hash under a mask reads nothing outside the mask. */
  lemma {:induction false} HashAgree(mm: Murmur, a: Cells, b: Cells, m: Cells, n: nat)
    requires Agree(a, b, m) && n <= |m|
    ensures HashUpTo(mm, a, m, n) == HashUpTo(mm, b, m, n)
  {
    if n > 0 {
      HashAgree(mm, a, b, m, n - 1);
      assert CellAgree(a[n - 1], b[n - 1], m[n - 1]);
    }
  }

  // ---- chains --------------------------------------------------------------

  predicate Sorted(c: Chain) {
    forall i, j :: 0 <= i < j < |c| ==> c[i].priority >= c[j].priority
  }

  predicate DistinctIds(c: Chain) {
    forall i, j :: 0 <= i < j < |c| ==> c[i].id != c[j].id
  }

  /** The bucket of a hash: hash & (size - 1), as the size is a power of two. */
  function Slot(h: nat, size: nat): (r: nat)
    requires size > 0
    ensures r < size
  {
    h % size
  }

  predicate EntryOk(mm: Murmur, mask: Cells, e: Entry) {
    |e.key| == |mask| && e.mask == mask && e.hash == HashKey(mm, e.key, mask)
  }

  predicate ChainOk(mm: Murmur, mask: Cells, size: nat, b: nat, c: Chain) {
    && size > 0
    && (forall i :: 0 <= i < |c| ==> EntryOk(mm, mask, c[i]) && Slot(c[i].hash, size) == b)
    && Sorted(c)
    && DistinctIds(c)
  }

  function CountHash(c: Chain, h: nat): nat {
    if c == [] then 0
    else CountHash(c[..|c| - 1], h) + if c[|c| - 1].hash == h then 1 else 0
  }

  lemma {:induction false} CountHashConcat(a: Chain, b: Chain, h: nat)
    ensures CountHash(a + b, h) == CountHash(a, h) + CountHash(b, h)
  {
    if b == [] {
      assert a + b == a;
    } else {
      assert (a + b)[..|a + b| - 1] == a + b[..|b| - 1];
      CountHashConcat(a, b[..|b| - 1], h);
    }
  }

  lemma CountHashSplice(c: Chain, p: nat, e: Entry, h: nat)
    requires p <= |c|
    ensures CountHash(c[..p] + [e] + c[p..], h) == CountHash(c, h) + if e.hash == h then 1 else 0
  {
    CountHashConcat(c[..p] + [e], c[p..], h);
    CountHashConcat(c[..p], [e], h);
    CountHashConcat(c[..p], c[p..], h);
    assert c[..p] + c[p..] == c;
    assert CountHash([e], h) == if e.hash == h then 1 else 0;
  }

  lemma {:induction false} CountHashPositive(c: Chain, e: Entry)
    requires e in c
    ensures CountHash(c, e.hash) > 0
  {
    if c[|c| - 1] != e {
      CountHashPositive(c[..|c| - 1], e);
    }
  }

  // ---- shards --------------------------------------------------------------

  function Total(buckets: seq<Chain>): nat {
    if buckets == [] then 0
    else Total(buckets[..|buckets| - 1]) + |buckets[|buckets| - 1]|
  }

  lemma {:induction false} TotalUpdate(buckets: seq<Chain>, b: nat, c: Chain)
    requires b < |buckets|
    ensures Total(buckets[b := c]) == Total(buckets) - |buckets[b]| + |c|
    ensures Total(buckets) >= |buckets[b]|
  {
    var n := |buckets| - 1;
    if b == n {
      assert buckets[b := c][..n] == buckets[..n];
    } else {
      assert buckets[b := c][..n] == buckets[..n][b := c];
      TotalUpdate(buckets[..n], b, c);
    }
  }

  lemma {:induction false} TotalEmpty(buckets: seq<Chain>)
    requires forall b :: 0 <= b < |buckets| ==> buckets[b] == []
    ensures Total(buckets) == 0
  {
    if buckets != [] {
      TotalEmpty(buckets[..|buckets| - 1]);
    }
  }

  /** The filter counts, for each hash, exactly the entries stored under it. */
  ghost predicate BloomExact(s: Shard) {
    |s.buckets| > 0 &&
    forall h: nat :: s.bloom.members[h] == CountHash(s.buckets[Slot(h, |s.buckets|)], h)
  }

  ghost predicate ShardOk(mm: Murmur, kw: nat, s: Shard) {
    && |s.mask| == kw
    && PowerOfTwo(|s.buckets|)
    && (forall b :: 0 <= b < |s.buckets| ==> ChainOk(mm, s.mask, |s.buckets|, b, s.buckets[b]))
    && s.count == Total(s.buckets)
    && BloomExact(s)
  }

  predicate InShard(s: Shard, e: Entry) {
    |s.buckets| > 0 && e.mask == s.mask && e in s.buckets[Slot(e.hash, |s.buckets|)]
  }

  predicate Stored(shards: seq<Shard>, e: Entry) {
    exists s :: 0 <= s < |shards| && InShard(shards[s], e)
  }

  // ---- the reference lookup ------------------------------------------------

  predicate Matches(e: Entry, key: Cells) {
    Agree(key, e.key, e.mask)
  }

  /** The first entry of a chain that matches, if any. */
  function FirstMatch(c: Chain, key: Cells): (r: Option<Entry>) {
    if c == [] then None
    else if Matches(c[0], key) then Some(c[0])
    else FirstMatch(c[1..], key)
  }

  function Better(best: Option<Entry>, cand: Option<Entry>): Option<Entry> {
    if cand.Some? && (best.None? || cand.value.priority >= best.value.priority) then cand else best
  }

  function Probe(mm: Murmur, s: Shard, key: Cells): Option<Entry>
    requires |s.buckets| > 0 && |s.mask| == |key|
  {
    FirstMatch(s.buckets[Slot(HashKey(mm, key, s.mask), |s.buckets|)], key)
  }

  predicate Shaped(kw: nat, shards: seq<Shard>) {
    forall s :: 0 <= s < |shards| ==> |shards[s].buckets| > 0 && |shards[s].mask| == kw
  }

  /** The lookup with no Bloom filter, no hash pre-check and no priority cutoff. */
  function Scan(mm: Murmur, shards: seq<Shard>, key: Cells): Option<Entry>
    requires Shaped(|key|, shards)
  {
    if shards == [] then None
    else
      var n := |shards| - 1;
      Better(Scan(mm, shards[..n], key), Probe(mm, shards[n], key))
  }

  /** 'm' ORed with the mask of every shard. */
  function OrMasks(shards: seq<Shard>, m: Cells): (r: Cells)
    requires Shaped(|m|, shards)
    ensures |r| == |m|
  {
    if shards == [] then m
    else Or(OrMasks(shards[..|shards| - 1], m), shards[|shards| - 1].mask)
  }

  /** The first match of a sorted chain is a match of maximal priority in it. */
  lemma {:induction false} FirstMatchSpec(c: Chain, key: Cells)
    requires Sorted(c)
    ensures var r := FirstMatch(c, key);
      && (r.Some? ==> r.value in c && Matches(r.value, key))
      && forall e :: e in c && Matches(e, key) ==> r.Some? && e.priority <= r.value.priority
  {
    if c != [] {
      FirstMatchSpec(c[1..], key);
      assert forall e :: e in c <==> e == c[0] || e in c[1..];
    }
  }

  /** 'r' is a best match among the entries of one shard. */
  ghost predicate BestInShard(s: Shard, key: Cells, r: Option<Entry>) {
    && (r.Some? ==> InShard(s, r.value) && Matches(r.value, key))
    && forall e :: InShard(s, e) && Matches(e, key) ==> r.Some? && e.priority <= r.value.priority
  }

  /** 'r' is a best match among all stored entries, None exactly when nothing matches. */
  ghost predicate BestMatch(shards: seq<Shard>, key: Cells, r: Option<Entry>) {
    && (r.Some? ==> Stored(shards, r.value) && Matches(r.value, key))
    && forall e :: Stored(shards, e) && Matches(e, key) ==> r.Some? && e.priority <= r.value.priority
  }

  lemma BucketOf(mm: Murmur, kw: nat, s: Shard, key: Cells, e: Entry)
    requires ShardOk(mm, kw, s) && |key| == kw && Matches(e, key)
    ensures var c := s.buckets[Slot(HashKey(mm, key, s.mask), |s.buckets|)];
      InShard(s, e) <==> e.mask == s.mask && e in c
  {
    var h := HashKey(mm, key, s.mask);
    var b := Slot(h, |s.buckets|);
    if e.mask == s.mask {
      HashAgree(mm, key, e.key, s.mask, kw);
      if e in s.buckets[b] {
        assert ChainOk(mm, s.mask, |s.buckets|, b, s.buckets[b]);
      }
      if InShard(s, e) {
        var b' := Slot(e.hash, |s.buckets|);
        assert ChainOk(mm, s.mask, |s.buckets|, b', s.buckets[b']);
        var i :| 0 <= i < |s.buckets[b']| && s.buckets[b'][i] == e;
        assert EntryOk(mm, s.mask, s.buckets[b'][i]);
      }
    }
  }

  lemma ProbeSpec(mm: Murmur, kw: nat, s: Shard, key: Cells)
    requires ShardOk(mm, kw, s) && |key| == kw
    ensures BestInShard(s, key, Probe(mm, s, key))
  {
    var b := Slot(HashKey(mm, key, s.mask), |s.buckets|);
    var c := s.buckets[b];
    assert ChainOk(mm, s.mask, |s.buckets|, b, c);
    FirstMatchSpec(c, key);
    forall e | Matches(e, key) ensures InShard(s, e) <==> e.mask == s.mask && e in c {
      BucketOf(mm, kw, s, key, e);
    }
  }

  lemma StoredSplit(shards: seq<Shard>, e: Entry)
    requires shards != []
    ensures var n := |shards| - 1;
      Stored(shards, e) <==> Stored(shards[..n], e) || InShard(shards[n], e)
  {
    var n := |shards| - 1;
    if Stored(shards[..n], e) {
      var s :| 0 <= s < n && InShard(shards[..n][s], e);
      assert InShard(shards[s], e);
    }
    if s :| 0 <= s < |shards| && InShard(shards[s], e) {
      assert s < n ==> InShard(shards[..n][s], e);
    }
  }

  lemma BestExtend(shards: seq<Shard>, key: Cells, best: Option<Entry>, cand: Option<Entry>)
    requires shards != []
    requires BestMatch(shards[..|shards| - 1], key, best)
    requires BestInShard(shards[|shards| - 1], key, cand)
    ensures BestMatch(shards, key, Better(best, cand))
  {
    forall e ensures Stored(shards, e) <==> Stored(shards[..|shards| - 1], e) || InShard(shards[|shards| - 1], e) {
      StoredSplit(shards, e);
    }
  }

  ghost predicate ShardsOk(mm: Murmur, kw: nat, shards: seq<Shard>) {
    forall s :: 0 <= s < |shards| ==> ShardOk(mm, kw, shards[s])
  }

  /** Scan is a linear scan of the stored entries for a match of maximal priority. */
  lemma {:induction false} ScanIsBestMatch(mm: Murmur, kw: nat, shards: seq<Shard>, key: Cells)
    requires ShardsOk(mm, kw, shards) && |key| == kw
    ensures Shaped(kw, shards)
    ensures BestMatch(shards, key, Scan(mm, shards, key))
  {
    assert Shaped(kw, shards) by {
      forall s | 0 <= s < |shards| ensures |shards[s].buckets| > 0 && |shards[s].mask| == kw {
        assert ShardOk(mm, kw, shards[s]);
      }
    }
    if shards != [] {
      var n := |shards| - 1;
      ScanIsBestMatch(mm, kw, shards[..n], key);
      ProbeSpec(mm, kw, shards[n], key);
      BestExtend(shards, key, Scan(mm, shards[..n], key), Probe(mm, shards[n], key));
    }
  }

  lemma {:induction false} FirstMatchAgree(c: Chain, a: Cells, b: Cells, mask: Cells)
    requires forall i :: 0 <= i < |c| ==> c[i].mask == mask && |c[i].key| == |mask|
    requires Agree(a, b, mask)
    ensures FirstMatch(c, a) == FirstMatch(c, b)
  {
    if c != [] {
      assert Matches(c[0], a) <==> Matches(c[0], b) by {
        assert c[0].mask == mask;
        assert forall i :: 0 <= i < |mask| ==> CellAgree(a[i], b[i], mask[i]);
      }
      FirstMatchAgree(c[1..], a, b, mask);
    }
  }

  /** OrMasks keeps its starting bits and covers every shard's mask. */
  lemma {:induction false} OrMasksAbove(shards: seq<Shard>, m: Cells)
    requires Shaped(|m|, shards)
    ensures Below(m, OrMasks(shards, m))
    ensures forall s :: 0 <= s < |shards| ==> Below(shards[s].mask, OrMasks(shards, m))
  {
    if shards != [] {
      OrMasksAbove(shards[..|shards| - 1], m);
    }
  }

  /** Mask soundness: agreement on the reported mask determines the entry that is found. */
  lemma {:induction false} ScanAgree(mm: Murmur, kw: nat, shards: seq<Shard>, a: Cells, b: Cells, m: Cells)
    requires ShardsOk(mm, kw, shards) && |m| == kw && Shaped(kw, shards)
    requires Agree(a, b, OrMasks(shards, m))
    ensures Scan(mm, shards, a) == Scan(mm, shards, b)
  {
    if shards != [] {
      var n := |shards| - 1;
      OrMasksAbove(shards, m);
      AgreeMono(a, b, OrMasks(shards[..n], m), OrMasks(shards, m));
      ScanAgree(mm, kw, shards[..n], a, b, m);
      var s := shards[n];
      AgreeMono(a, b, s.mask, OrMasks(shards, m));
      HashAgree(mm, a, b, s.mask, kw);
      FirstMatchAgree(s.buckets[Slot(HashKey(mm, a, s.mask), |s.buckets|)], a, b, s.mask);
    }
  }

  // ---- inserting into and removing from a shard ----------------------------

  /** 'p' is where the insertion loop stops: after every strictly higher priority. */
  predicate InsertionPoint(c: Chain, priority: nat, p: nat) {
    && p <= |c|
    && (forall i :: 0 <= i < p ==> priority < c[i].priority)
    && (p < |c| ==> priority >= c[p].priority)
  }

  function Spliced(c: Chain, p: nat, e: Entry): Chain
    requires p <= |c|
  {
    c[..p] + [e] + c[p..]
  }

  lemma SplicedMembers(c: Chain, p: nat, e: Entry)
    requires p <= |c|
    ensures forall x :: x in Spliced(c, p, e) <==> x in c || x == e
  {
    assert c == c[..p] + c[p..];
  }

  lemma SplicedOrder(c: Chain, p: nat, e: Entry)
    requires Sorted(c) && DistinctIds(c) && InsertionPoint(c, e.priority, p)
    requires forall x :: x in c ==> x.id != e.id
    ensures Sorted(Spliced(c, p, e)) && DistinctIds(Spliced(c, p, e))
  {
    var d := Spliced(c, p, e);
    forall i, j | 0 <= i < j < |d| ensures d[i].priority >= d[j].priority && d[i].id != d[j].id {
      var x, y := if i < p then i else i - 1, if j < p then j else j - 1;
      if i == p {
        assert d[j] == c[y] && c[y] in c && c[p].priority >= c[y].priority;
      } else if j == p {
        assert d[i] == c[x] && c[x] in c;
      } else {
        assert d[i] == c[x] && d[j] == c[y];
      }
    }
  }

  lemma SplicedOk(mm: Murmur, mask: Cells, size: nat, c: Chain, p: nat, e: Entry)
    requires size > 0 && ChainOk(mm, mask, size, Slot(e.hash, size), c)
    requires EntryOk(mm, mask, e) && InsertionPoint(c, e.priority, p)
    requires forall x :: x in c ==> x.id != e.id
    ensures ChainOk(mm, mask, size, Slot(e.hash, size), Spliced(c, p, e))
  {
    SplicedOrder(c, p, e);
    SplicedMembers(c, p, e);
    ChainFromMembers(mm, mask, size, Slot(e.hash, size), Spliced(c, p, e));
  }

  /** A chain may be checked member by member. */
  lemma ChainFromMembers(mm: Murmur, mask: Cells, size: nat, b: nat, c: Chain)
    requires size > 0 && Sorted(c) && DistinctIds(c)
    requires forall e :: e in c ==> EntryOk(mm, mask, e) && Slot(e.hash, size) == b
    ensures ChainOk(mm, mask, size, b, c)
  {
    forall i | 0 <= i < |c| ensures EntryOk(mm, mask, c[i]) && Slot(c[i].hash, size) == b {
      assert c[i] in c;
    }
  }

  lemma ChainMember(mm: Murmur, mask: Cells, size: nat, b: nat, c: Chain, e: Entry)
    requires ChainOk(mm, mask, size, b, c) && e in c
    ensures EntryOk(mm, mask, e) && Slot(e.hash, size) == b
  {
    var i :| 0 <= i < |c| && c[i] == e;
  }

  function WithEntry(s: Shard, e: Entry, p: nat, noise: set<nat>): Shard
    requires |s.buckets| > 0 && p <= |s.buckets[Slot(e.hash, |s.buckets|)]|
  {
    var b := Slot(e.hash, |s.buckets|);
    Shard(s.mask, s.count + 1, s.buckets[b := Spliced(s.buckets[b], p, e)],
          Bloom(s.bloom.members + multiset{e.hash}, noise))
  }

  lemma WithEntryBloom(s: Shard, e: Entry, p: nat, noise: set<nat>)
    requires BloomExact(s) && p <= |s.buckets[Slot(e.hash, |s.buckets|)]|
    ensures BloomExact(WithEntry(s, e, p, noise))
  {
    var r := WithEntry(s, e, p, noise);
    var b := Slot(e.hash, |s.buckets|);
    forall h: nat ensures r.bloom.members[h] == CountHash(r.buckets[Slot(h, |r.buckets|)], h) {
      if Slot(h, |s.buckets|) == b {
        CountHashSplice(s.buckets[b], p, e, h);
      }
    }
  }

  /** Insertion keeps the shard invariant and adds exactly the new entry. */
  lemma WithEntryOk(mm: Murmur, kw: nat, s: Shard, e: Entry, p: nat, noise: set<nat>)
    requires ShardOk(mm, kw, s) && EntryOk(mm, s.mask, e)
    requires InsertionPoint(s.buckets[Slot(e.hash, |s.buckets|)], e.priority, p)
    requires forall x :: InShard(s, x) ==> x.id != e.id
    ensures ShardOk(mm, kw, WithEntry(s, e, p, noise))
    ensures forall x :: InShard(WithEntry(s, e, p, noise), x) <==> InShard(s, x) || x == e
  {
    hide Slot, BloomExact, CountHash, Total, PowerOfTwo;
    var n := |s.buckets|;
    var b := Slot(e.hash, n);
    var c := s.buckets[b];
    assert ChainOk(mm, s.mask, n, b, c);
    forall x | x in c ensures x.id != e.id {
      ChainMember(mm, s.mask, n, b, c, x);
      assert InShard(s, x);
    }
    SplicedOk(mm, s.mask, n, c, p, e);
    SplicedMembers(c, p, e);
    TotalUpdate(s.buckets, b, Spliced(c, p, e));
    WithEntryBloom(s, e, p, noise);
  }

  function Cut(c: Chain, p: nat): Chain
    requires p < |c|
  {
    c[..p] + c[p + 1..]
  }

  lemma CutMembers(c: Chain, p: nat)
    requires p < |c| && DistinctIds(c)
    ensures forall x :: x in Cut(c, p) <==> x in c && x != c[p]
  {
    assert c == c[..p] + [c[p]] + c[p + 1..];
    forall x | x in Cut(c, p) ensures x != c[p] {
      var i :| 0 <= i < |Cut(c, p)| && Cut(c, p)[i] == x;
      assert x == if i < p then c[i] else c[i + 1];
    }
  }

  lemma CutOk(mm: Murmur, mask: Cells, size: nat, b: nat, c: Chain, p: nat)
    requires ChainOk(mm, mask, size, b, c) && p < |c|
    ensures ChainOk(mm, mask, size, b, Cut(c, p))
  {
    var d := Cut(c, p);
    forall i, j | 0 <= i < j < |d| ensures d[i].priority >= d[j].priority && d[i].id != d[j].id {
      var x, y := if i < p then i else i + 1, if j < p then j else j + 1;
      assert d[i] == c[x] && d[j] == c[y];
    }
    forall i | 0 <= i < |d| ensures EntryOk(mm, mask, d[i]) && Slot(d[i].hash, size) == b {
      assert d[i] == c[if i < p then i else i + 1];
    }
  }

  function WithoutEntry(s: Shard, b: nat, p: nat, noise: set<nat>): Shard
    requires b < |s.buckets| && p < |s.buckets[b]| && s.count > 0
  {
    Shard(s.mask, s.count - 1, s.buckets[b := Cut(s.buckets[b], p)],
          Bloom(s.bloom.members - multiset{s.buckets[b][p].hash}, noise))
  }

  lemma WithoutEntryBloom(s: Shard, b: nat, p: nat, noise: set<nat>)
    requires BloomExact(s) && b < |s.buckets| && p < |s.buckets[b]| && s.count > 0
    requires Slot(s.buckets[b][p].hash, |s.buckets|) == b
    ensures BloomExact(WithoutEntry(s, b, p, noise))
  {
    var r := WithoutEntry(s, b, p, noise);
    hide CountHash, Slot;
    CountHashPositive(s.buckets[b], s.buckets[b][p]);
    forall h: nat ensures r.bloom.members[h] == CountHash(r.buckets[Slot(h, |r.buckets|)], h) {
      if Slot(h, |s.buckets|) == b {
        CountHashCut(s.buckets[b], p, h);
      }
    }
  }

  lemma CountHashCut(c: Chain, p: nat, h: nat)
    requires p < |c|
    ensures CountHash(c, h) == CountHash(Cut(c, p), h) + if c[p].hash == h then 1 else 0
  {
    assert Cut(c, p)[..p] == c[..p] && Cut(c, p)[p..] == c[p + 1..];
    CountHashSplice(Cut(c, p), p, c[p], h);
    assert Spliced(Cut(c, p), p, c[p]) == c;
  }

  /** Removal keeps the shard invariant and takes out exactly the named entry. */
  lemma WithoutEntryOk(mm: Murmur, kw: nat, s: Shard, b: nat, p: nat, noise: set<nat>)
    requires ShardOk(mm, kw, s) && b < |s.buckets| && p < |s.buckets[b]|
    ensures s.count > 0
    ensures ShardOk(mm, kw, WithoutEntry(s, b, p, noise))
    ensures forall x :: InShard(WithoutEntry(s, b, p, noise), x) <==> InShard(s, x) && x != s.buckets[b][p]
  {
    hide Slot, BloomExact, CountHash, Total, PowerOfTwo;
    var c := s.buckets[b];
    assert ChainOk(mm, s.mask, |s.buckets|, b, c);
    assert Slot(c[p].hash, |s.buckets|) == b;
    TotalUpdate(s.buckets, b, Cut(c, p));
    CutOk(mm, s.mask, |s.buckets|, b, c, p);
    CutMembers(c, p);
    WithoutEntryBloom(s, b, p, noise);
  }

  // ---- growing a shard -----------------------------------------------------

  /** cur->hash & bit, for bit = the old number of buckets. */
  predicate Hi(h: nat, n: nat)
    requires n > 0
  {
    (h / n) % 2 == 1
  }

  /** Doubling the table sends bucket b to b or b + n, by the bit 'n' of the hash. */
  lemma SplitIndex(h: nat, n: nat)
    requires n > 0
    ensures Slot(h, 2 * n) == Slot(h, n) + if Hi(h, n) then n else 0
  {
    ModDouble(h, n);
  }

  /** The entries of a chain that move to one of the two new buckets, in order. */
  function Side(c: Chain, n: nat, hi: bool): Chain
    requires n > 0
  {
    if c == [] then []
    else
      var last := c[|c| - 1];
      Side(c[..|c| - 1], n, hi) + if Hi(last.hash, n) == hi then [last] else []
  }

  lemma {:induction false} SideMembers(c: Chain, n: nat, hi: bool)
    requires n > 0
    ensures forall e :: e in Side(c, n, hi) <==> e in c && Hi(e.hash, n) == hi
  {
    if c != [] {
      SideMembers(c[..|c| - 1], n, hi);
      assert c == c[..|c| - 1] + [c[|c| - 1]];
    }
  }

  lemma {:induction false} SideOrder(c: Chain, n: nat, hi: bool)
    requires n > 0 && Sorted(c) && DistinctIds(c)
    ensures Sorted(Side(c, n, hi)) && DistinctIds(Side(c, n, hi))
  {
    if c != [] {
      var front := c[..|c| - 1];
      SideOrder(front, n, hi);
      SideMembers(front, n, hi);
      var f := Side(front, n, hi);
      forall i | 0 <= i < |f|
        ensures f[i].priority >= c[|c| - 1].priority && f[i].id != c[|c| - 1].id
      {
        assert f[i] in front;
      }
    }
  }

  lemma {:induction false} SideCount(c: Chain, n: nat, h: nat)
    requires n > 0
    ensures CountHash(Side(c, n, Hi(h, n)), h) == CountHash(c, h)
  {
    if c != [] {
      var last := c[|c| - 1];
      var f := Side(c[..|c| - 1], n, Hi(h, n));
      SideCount(c[..|c| - 1], n, h);
      if Hi(last.hash, n) == Hi(h, n) {
        CountHashConcat(f, [last], h);
        assert CountHash([last], h) == if last.hash == h then 1 else 0;
      } else {
        assert f + [] == f;
      }
    }
  }

  lemma SideOk(mm: Murmur, mask: Cells, n: nat, b: nat, c: Chain, hi: bool)
    requires n > 0 && ChainOk(mm, mask, n, b, c)
    ensures ChainOk(mm, mask, 2 * n, if hi then b + n else b, Side(c, n, hi))
  {
    SideMembers(c, n, hi);
    SideOrder(c, n, hi);
    forall e | e in Side(c, n, hi)
      ensures EntryOk(mm, mask, e) && Slot(e.hash, 2 * n) == if hi then b + n else b
    {
      ChainMember(mm, mask, n, b, c, e);
      SplitIndex(e.hash, n);
    }
    ChainFromMembers(mm, mask, 2 * n, if hi then b + n else b, Side(c, n, hi));
  }

  lemma {:induction false} SideTotal(c: Chain, n: nat)
    requires n > 0
    ensures |Side(c, n, false)| + |Side(c, n, true)| == |c|
  {
    if c != [] {
      SideTotal(c[..|c| - 1], n);
    }
  }

  /** The first 'i' buckets of 'from' have been split into the low and the high half. */
  ghost predicate SplitUpTo(from: seq<Chain>, los: seq<Chain>, his: seq<Chain>, i: nat) {
    && |los| == |his| == i <= |from|
    && (forall b {:trigger los[b]} :: 0 <= b < i ==> los[b] == Side(from[b], |from|, false))
    && (forall b {:trigger his[b]} :: 0 <= b < i ==> his[b] == Side(from[b], |from|, true))
  }

  lemma SplitStep(from: seq<Chain>, los: seq<Chain>, his: seq<Chain>, i: nat, lo: Chain, hi: Chain)
    requires SplitUpTo(from, los, his, i) && i < |from|
    requires lo == Side(from[i], |from|, false) && hi == Side(from[i], |from|, true)
    ensures SplitUpTo(from, los + [lo], his + [hi], i + 1)
  {
    hide Side;
    forall b | 0 <= b < i + 1 ensures (los + [lo])[b] == Side(from[b], |from|, false) {
      assert b < i ==> (los + [lo])[b] == los[b];
    }
    forall b | 0 <= b < i + 1 ensures (his + [hi])[b] == Side(from[b], |from|, true) {
      assert b < i ==> (his + [hi])[b] == his[b];
    }
  }

  lemma {:induction false} TotalConcat(a: seq<Chain>, b: seq<Chain>)
    ensures Total(a + b) == Total(a) + Total(b)
  {
    if b == [] {
      assert a + b == a;
    } else {
      assert (a + b)[..|a + b| - 1] == a + b[..|b| - 1];
      TotalConcat(a, b[..|b| - 1]);
    }
  }

  lemma {:induction false} SplitTotal(from: seq<Chain>, los: seq<Chain>, his: seq<Chain>, i: nat)
    requires SplitUpTo(from, los, his, i)
    ensures Total(los + his) == Total(from[..i])
  {
    if i > 0 {
      assert from[..i][..i - 1] == from[..i - 1];
      SideTotal(from[i - 1], |from|);
      SplitTotal(from, los[..i - 1], his[..i - 1], i - 1);
      TotalConcat(los[..i - 1], his[..i - 1]);
    }
    TotalConcat(los, his);
  }

  /** The filter counts the entries of the first 'i' buckets. */
  ghost predicate BloomUpTo(members: multiset<nat>, buckets: seq<Chain>, i: nat) {
    |buckets| > 0 &&
    forall h: nat :: members[h] == if Slot(h, |buckets|) < i then CountHash(buckets[Slot(h, |buckets|)], h) else 0
  }

  lemma {:induction false} CountHashAbsent(c: Chain, h: nat)
    requires forall e :: e in c ==> e.hash != h
    ensures CountHash(c, h) == 0
  {
    if c != [] {
      assert c[|c| - 1] in c;
      CountHashAbsent(c[..|c| - 1], h);
    }
  }

  lemma BloomNext(before: multiset<nat>, after: multiset<nat>, buckets: seq<Chain>, i: nat)
    requires BloomUpTo(before, buckets, i) && i < |buckets|
    requires forall e :: e in buckets[i] ==> Slot(e.hash, |buckets|) == i
    requires forall h: nat :: after[h] == before[h] + CountHash(buckets[i], h)
    ensures BloomUpTo(after, buckets, i + 1)
  {
    forall h: nat
      ensures after[h] == if Slot(h, |buckets|) < i + 1 then CountHash(buckets[Slot(h, |buckets|)], h) else 0
    {
      if Slot(h, |buckets|) != i {
        CountHashAbsent(buckets[i], h);
      }
    }
  }

  function Grown(s: Shard, los: seq<Chain>, his: seq<Chain>, bloom: Bloom): Shard {
    Shard(s.mask, s.count, los + his, bloom)
  }

  /** Where a hash lands in the doubled table. */
  lemma GrownBucket(s: Shard, los: seq<Chain>, his: seq<Chain>, h: nat)
    requires SplitUpTo(s.buckets, los, his, |s.buckets|) && |s.buckets| > 0
    ensures var n := |s.buckets|;
      (los + his)[Slot(h, 2 * n)] == Side(s.buckets[Slot(h, n)], n, Hi(h, n))
  {
    SplitIndex(h, |s.buckets|);
  }

  lemma GrownBloom(s: Shard, los: seq<Chain>, his: seq<Chain>, bloom: Bloom)
    requires SplitUpTo(s.buckets, los, his, |s.buckets|) && BloomUpTo(bloom.members, s.buckets, |s.buckets|)
    ensures BloomExact(Grown(s, los, his, bloom))
  {
    hide Side, Slot, Hi, CountHash;
    var n := |s.buckets|;
    forall h: nat ensures bloom.members[h] == CountHash((los + his)[Slot(h, 2 * n)], h) {
      GrownBucket(s, los, his, h);
      SideCount(s.buckets[Slot(h, n)], n, h);
    }
  }

  lemma GrownMember(s: Shard, los: seq<Chain>, his: seq<Chain>, bloom: Bloom, e: Entry)
    requires SplitUpTo(s.buckets, los, his, |s.buckets|) && |s.buckets| > 0
    ensures InShard(Grown(s, los, his, bloom), e) <==> InShard(s, e)
  {
    hide Side, Slot, Hi;
    var n := |s.buckets|;
    GrownBucket(s, los, his, e.hash);
    SideMembers(s.buckets[Slot(e.hash, n)], n, Hi(e.hash, n));
  }

  lemma GrownChain(mm: Murmur, kw: nat, s: Shard, los: seq<Chain>, his: seq<Chain>, b: nat)
    requires ShardOk(mm, kw, s) && SplitUpTo(s.buckets, los, his, |s.buckets|) && b < |los + his|
    ensures ChainOk(mm, s.mask, |los + his|, b, (los + his)[b])
  {
    var n := |s.buckets|;
    var b0 := if b >= n then b - n else b;
    assert ChainOk(mm, s.mask, n, b0, s.buckets[b0]);
    SideOk(mm, s.mask, n, b0, s.buckets[b0], b >= n);
  }

  lemma GrownChains(mm: Murmur, kw: nat, s: Shard, los: seq<Chain>, his: seq<Chain>)
    requires ShardOk(mm, kw, s) && SplitUpTo(s.buckets, los, his, |s.buckets|)
    ensures forall b :: 0 <= b < |los + his| ==> ChainOk(mm, s.mask, |los + his|, b, (los + his)[b])
  {
    hide ShardOk, SplitUpTo, ChainOk;
    forall b | 0 <= b < |los + his| ensures ChainOk(mm, s.mask, |los + his|, b, (los + his)[b]) {
      GrownChain(mm, kw, s, los, his, b);
    }
  }

  lemma GrownMembers(s: Shard, los: seq<Chain>, his: seq<Chain>, bloom: Bloom)
    requires SplitUpTo(s.buckets, los, his, |s.buckets|) && |s.buckets| > 0
    ensures forall e :: InShard(Grown(s, los, his, bloom), e) <==> InShard(s, e)
  {
    hide SplitUpTo, InShard, Grown;
    forall e ensures InShard(Grown(s, los, his, bloom), e) <==> InShard(s, e) {
      GrownMember(s, los, his, bloom, e);
    }
  }

  /** Growing keeps the invariant, the entries, their order and the filter's coverage. */
  lemma GrownOk(mm: Murmur, kw: nat, s: Shard, los: seq<Chain>, his: seq<Chain>, bloom: Bloom)
    requires ShardOk(mm, kw, s) && SplitUpTo(s.buckets, los, his, |s.buckets|)
    requires BloomUpTo(bloom.members, s.buckets, |s.buckets|)
    ensures ShardOk(mm, kw, Grown(s, los, his, bloom))
    ensures forall e :: InShard(Grown(s, los, his, bloom), e) <==> InShard(s, e)
  {
    hide ChainOk, BloomExact, BloomUpTo, InShard, Total, Side;
    GrownChains(mm, kw, s, los, his);
    GrownMembers(s, los, his, bloom);
    GrownBloom(s, los, his, bloom);
    SplitTotal(s.buckets, los, his, |s.buckets|);
    assert s.buckets[..|s.buckets|] == s.buckets;
    assert PowerOfTwo(2 * |s.buckets|);
  }

  /** The inner loop of the grow: move one chain to its two new buckets. */
  method SplitChain(c: Chain, n: nat, before: multiset<nat>)
    returns (lo: Chain, hi: Chain, members: multiset<nat>)
    requires n > 0
    ensures lo == Side(c, n, false) && hi == Side(c, n, true)
    ensures forall h: nat :: members[h] == before[h] + CountHash(c, h)
  {
    lo, hi, members := [], [], before;
    for j := 0 to |c|
      invariant lo == Side(c[..j], n, false) && hi == Side(c[..j], n, true)
      invariant forall h: nat :: members[h] == before[h] + CountHash(c[..j], h)
    {
      var cur := c[j];
      assert c[..j + 1][..j] == c[..j];
      if Hi(cur.hash, n) {
        hi := hi + [cur];
      } else {
        lo := lo + [cur];
      }
      members := members + multiset{cur.hash};
    }
    assert c[..|c|] == c;
  }

  /** Split every bucket i into i and i + n, and rebuild the filter. */
  method Grow(mm: Murmur, ghost kw: nat, s: Shard) returns (r: Shard)
    requires ShardOk(mm, kw, s)
    ensures ShardOk(mm, kw, r) && r.mask == s.mask && r.count == s.count
    ensures |r.buckets| == 2 * |s.buckets|
    ensures SplitUpTo(s.buckets, r.buckets[..|s.buckets|], r.buckets[|s.buckets|..], |s.buckets|)
    ensures forall e :: InShard(r, e) <==> InShard(s, e)
  {
    hide Side, Total, Slot, CountHash, BloomExact, InShard;
    var n := |s.buckets|;
    var los: seq<Chain>, his: seq<Chain>, members: multiset<nat> := [], [], multiset{};
    for i := 0 to n
      invariant SplitUpTo(s.buckets, los, his, i)
      invariant BloomUpTo(members, s.buckets, i)
    {
      hide BloomUpTo, SplitUpTo;
      ghost var before := members;
      var lo, hi;
      lo, hi, members := SplitChain(s.buckets[i], n, members);
      forall e | e in s.buckets[i] ensures Slot(e.hash, n) == i {
        ChainMember(mm, s.mask, n, i, s.buckets[i], e);
      }
      BloomNext(before, members, s.buckets, i);
      SplitStep(s.buckets, los, his, i, lo, hi);
      los, his := los + [lo], his + [hi];
    }
    var noise: set<nat> := *;
    r := Grown(s, los, his, Bloom(members, noise));
    GrownOk(mm, kw, s, los, his, r.bloom);
    assert r.buckets[..n] == los && r.buckets[n..] == his;
  }
}
