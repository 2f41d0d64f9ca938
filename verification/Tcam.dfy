/** The tcam object: the shard list and the operations that change it. */
module Tcam {
  import opened Arith
  import opened Cells
  import opened SoftTcam

  ghost predicate LoadOk(s: Shard) {
    INITIAL_BUCKETS <= |s.buckets| && 0 < s.count && 2 * s.count <= |s.buckets|
  }

  ghost predicate LayoutOk(mm: Murmur, kw: nat, shards: seq<Shard>) {
    && ShardsOk(mm, kw, shards)
    && (forall s :: 0 <= s < |shards| ==> LoadOk(shards[s]))
    && (forall s, t :: 0 <= s < t < |shards| ==> shards[s].mask != shards[t].mask)
  }

  ghost predicate UniqueIds(shards: seq<Shard>) {
    forall e, f :: Stored(shards, e) && Stored(shards, f) && e.id == f.id ==> e == f
  }

  /** The entries with mask 'm' are those of shard 'r' now, all others are as before. */
  ghost predicate OnlyMaskChanged(before: seq<Shard>, after: seq<Shard>, m: Cells, r: Option<Shard>) {
    forall x :: Stored(after, x) <==>
      if x.mask == m then r.Some? && InShard(r.value, x) else Stored(before, x)
  }

  lemma StoredByMask(mm: Murmur, kw: nat, shards: seq<Shard>, s: nat)
    requires LayoutOk(mm, kw, shards) && s < |shards|
    ensures forall x: Entry :: x.mask == shards[s].mask ==> (Stored(shards, x) <==> InShard(shards[s], x))
  {
    forall x: Entry | x.mask == shards[s].mask && Stored(shards, x) ensures InShard(shards[s], x) {
      var t :| 0 <= t < |shards| && InShard(shards[t], x);
      assert t == s;
    }
  }

  lemma AppendShard(mm: Murmur, kw: nat, shards: seq<Shard>, r: Shard)
    requires LayoutOk(mm, kw, shards) && ShardOk(mm, kw, r) && LoadOk(r)
    requires forall s :: 0 <= s < |shards| ==> shards[s].mask != r.mask
    ensures LayoutOk(mm, kw, shards + [r])
    ensures OnlyMaskChanged(shards, shards + [r], r.mask, Some(r))
  {
    hide ShardOk, LoadOk;
    forall x ensures Stored(shards + [r], x) <==> Stored(shards, x) || InShard(r, x) {
      assert (shards + [r])[..|shards|] == shards;
      StoredSplit(shards + [r], x);
    }
  }

  lemma ReplaceShard(mm: Murmur, kw: nat, shards: seq<Shard>, s: nat, r: Shard)
    requires LayoutOk(mm, kw, shards) && ShardOk(mm, kw, r) && LoadOk(r)
    requires s < |shards| && shards[s].mask == r.mask
    ensures LayoutOk(mm, kw, shards[s := r])
    ensures OnlyMaskChanged(shards, shards[s := r], r.mask, Some(r))
  {
    hide ShardOk, LoadOk;
    var after := shards[s := r];
    forall x: Entry | x.mask == r.mask ensures Stored(after, x) <==> InShard(r, x) {
      StoredByMask(mm, kw, after, s);
    }
    forall x: Entry | x.mask != r.mask ensures Stored(after, x) <==> Stored(shards, x) {
      if t :| 0 <= t < |after| && InShard(after[t], x) {
        assert InShard(shards[t], x);
      }
      if t :| 0 <= t < |shards| && InShard(shards[t], x) {
        assert InShard(after[t], x);
      }
    }
  }

  lemma DropShard(mm: Murmur, kw: nat, shards: seq<Shard>, s: nat)
    requires LayoutOk(mm, kw, shards) && s < |shards|
    ensures LayoutOk(mm, kw, shards[..s] + shards[s + 1..])
    ensures OnlyMaskChanged(shards, shards[..s] + shards[s + 1..], shards[s].mask, None)
  {
    hide ShardOk, LoadOk;
    var after := shards[..s] + shards[s + 1..];
    assert forall t :: 0 <= t < |after| ==> after[t] == shards[if t < s then t else t + 1];
    forall x ensures Stored(after, x) <==> x.mask != shards[s].mask && Stored(shards, x) {
      if t :| 0 <= t < |after| && InShard(after[t], x) {
        var u := if t < s then t else t + 1;
        assert InShard(shards[u], x);
      }
      if t :| 0 <= t < |shards| && InShard(shards[t], x) && x.mask != shards[s].mask {
        assert InShard(after[if t < s then t else t - 1], x);
      }
    }
  }

  /** Entries of 'old' plus one fresh entry: the whole table gained exactly that entry. */
  lemma GainedOne(before: seq<Shard>, after: seq<Shard>, r: Shard, e: Entry)
    requires UniqueIds(before) && forall x :: Stored(before, x) ==> x.id != e.id
    requires OnlyMaskChanged(before, after, e.mask, Some(r))
    requires forall x: Entry :: x.mask == e.mask ==> (InShard(r, x) <==> Stored(before, x) || x == e)
    ensures UniqueIds(after)
    ensures forall x :: Stored(after, x) <==> Stored(before, x) || x == e
  {
    hide Stored, InShard;
  }

  lemma NoneStored(shards: seq<Shard>, mask: Cells)
    requires forall s :: 0 <= s < |shards| ==> shards[s].mask != mask
    ensures forall x :: Stored(shards, x) ==> x.mask != mask
  {
  }

  lemma InShardStored(shards: seq<Shard>, s: nat)
    requires s < |shards|
    ensures forall x :: InShard(shards[s], x) ==> Stored(shards, x) && x.mask == shards[s].mask
  {
  }

  lemma LoadBound(s: Shard)
    requires LoadOk(s)
    ensures INITIAL_BUCKETS <= |s.buckets| && 2 * s.count <= |s.buckets|
  {
  }

  method NewShard(mm: Murmur, mask: Cells) returns (s: Shard)
    ensures ShardOk(mm, |mask|, s) && s.mask == mask && s.count == 0 && |s.buckets| == INITIAL_BUCKETS
    ensures forall x :: !InShard(s, x)
  {
    var noise: set<nat> := *;
    var buckets: seq<Chain> := seq(INITIAL_BUCKETS, i => []);
    s := Shard(mask, 0, buckets, Bloom(multiset{}, noise));
    TotalEmpty(buckets);
    assert PowerOfTwo(8) && PowerOfTwo(16);
  }

  /** Find the insertion point, link the entry in, and grow when over half full. */
  method InsertIntoShard(mm: Murmur, ghost kw: nat, s: Shard, e: Entry) returns (r: Shard)
    requires ShardOk(mm, kw, s) && EntryOk(mm, s.mask, e)
    requires INITIAL_BUCKETS <= |s.buckets| && 2 * s.count <= |s.buckets|
    requires forall x :: InShard(s, x) ==> x.id != e.id
    ensures ShardOk(mm, kw, r) && LoadOk(r) && r.mask == s.mask
    ensures forall x :: InShard(r, x) <==> InShard(s, x) || x == e
  {
    var c := s.buckets[Slot(e.hash, |s.buckets|)];
    var p := 0;
    while p < |c| && e.priority < c[p].priority
      invariant 0 <= p <= |c|
      invariant forall i :: 0 <= i < p ==> e.priority < c[i].priority
    {
      p := p + 1;
    }
    var noise: set<nat> := *;
    r := WithEntry(s, e, p, noise);
    WithEntryOk(mm, kw, s, e, p, noise);
    hide ShardOk, InShard;
    if 2 * r.count > |r.buckets| {
      r := Grow(mm, kw, r);
    }
  }

  /** Unlink an entry from its chain. */
  method RemoveFromShard(mm: Murmur, ghost kw: nat, s: Shard, e: Entry) returns (r: Shard)
    requires ShardOk(mm, kw, s) && InShard(s, e)
    ensures ShardOk(mm, kw, r) && r.mask == s.mask && r.count == s.count - 1 && |r.buckets| == |s.buckets|
    ensures forall x :: InShard(r, x) <==> InShard(s, x) && x != e
  {
    var h := e.hash;
    var b := Slot(h, |s.buckets|);
    var c := s.buckets[b];
    var p := 0;
    while c[p] != e
      invariant 0 <= p < |c| && e in c[p..]
      decreases |c| - p
    {
      p := p + 1;
    }
    var noise: set<nat> := *;
    WithoutEntryOk(mm, kw, s, b, p, noise);
    r := WithoutEntry(s, b, p, noise);
  }

  lemma {:induction false} CountZeroEmpty(buckets: seq<Chain>, b: nat)
    requires Total(buckets) == 0 && b < |buckets|
    ensures buckets[b] == []
  {
    TotalUpdate(buckets, b, []);
  }

  /** Walk one chain; stop at a hit or as soon as priorities fall below 'floor'. */
  method SearchChain(c: Chain, key: Cells, mask: Cells, h: nat, floor: nat, ghost mm: Murmur)
    returns (r: Option<Entry>)
    requires |key| == |mask| && Sorted(c) && h == HashKey(mm, key, mask)
    requires forall e :: e in c ==> EntryOk(mm, mask, e)
    ensures var m := FirstMatch(c, key);
            r == if m.Some? && m.value.priority >= floor then m else None
  {
    FirstMatchSpec(c, key);
    var i := 0;
    while i < |c| && c[i].priority >= floor
      invariant 0 <= i <= |c|
      invariant FirstMatch(c, key) == FirstMatch(c[i..], key)
    {
      assert c[i] in c;
      if c[i].hash == h {
        var differs := MemcmpMasked(key, c[i].key, mask);
        if !differs {
          return Some(c[i]);
        }
      } else if Matches(c[i], key) {
        HashAgree(mm, key, c[i].key, mask, |mask|);
      }
      assert c[i..][1..] == c[i + 1..];
      i := i + 1;
    }
    if i < |c| {
      SortedSuffix(c, i);
      FirstMatchSpec(c[i..], key);
    }
    return None;
  }

  lemma SortedSuffix(c: Chain, i: nat)
    requires Sorted(c) && i < |c|
    ensures Sorted(c[i..]) && forall e :: e in c[i..] ==> e.priority <= c[i].priority
  {
  }

  /** A hash the filter does not report has no entry, so nothing can match. */
  lemma BloomSkip(mm: Murmur, kw: nat, s: Shard, key: Cells)
    requires ShardOk(mm, kw, s) && |key| == kw
    requires !s.bloom.MayContain(HashKey(mm, key, s.mask))
    ensures Probe(mm, s, key) == None
  {
    var h := HashKey(mm, key, s.mask);
    var c := s.buckets[Slot(h, |s.buckets|)];
    FirstMatchSpec(c, key);
    var r := FirstMatch(c, key);
    if r.Some? {
      ChainMember(mm, s.mask, |s.buckets|, Slot(h, |s.buckets|), c, r.value);
      HashAgree(mm, key, r.value.key, s.mask, kw);
      CountHashPositive(c, r.value);
      assert false;
    }
  }

  /** tcam_match_and_mask: ask every shard, keep the best hit and collect all masks. */
  method Search(mm: Murmur, ghost kw: nat, shards: seq<Shard>, key: Cells, mask: Cells)
    returns (found: Option<Entry>, outMask: Cells)
    requires LayoutOk(mm, kw, shards) && |key| == |mask| == kw
    ensures Shaped(kw, shards)
    ensures BestMatch(shards, key, found) && found == Scan(mm, shards, key)
    ensures outMask == OrMasks(shards, mask)
  {
    found, outMask := None, mask;
    var curPriority := 0;
    ScanIsBestMatch(mm, kw, shards, key);
    for s := 0 to |shards|
      invariant |outMask| == kw && Shaped(kw, shards[..s])
      invariant found == Scan(mm, shards[..s], key)
      invariant curPriority == if found.Some? then found.value.priority else 0
      invariant outMask == OrMasks(shards[..s], mask)
    {
      var shard := shards[s];
      assert ShardOk(mm, kw, shard);
      assert shards[..s + 1][..s] == shards[..s];
      var h := ComputeHash(mm, key, shard.mask);
      outMask := Memor(outMask, shard.mask);
      if !shard.bloom.MayContain(h) {
        BloomSkip(mm, kw, shard, key);
      } else {
        var b := Slot(h, |shard.buckets|);
        forall e | e in shard.buckets[b] ensures EntryOk(mm, shard.mask, e) {
          ChainMember(mm, shard.mask, |shard.buckets|, b, shard.buckets[b], e);
        }
        var hit := SearchChain(shard.buckets[b], key, shard.mask, h, curPriority, mm);
        if hit.Some? {
          found, curPriority := hit, hit.value.priority;
        }
      }
    }
    assert shards[..|shards|] == shards;
  }

  class Table {
    const mm: Murmur
    const keyWidth: nat
    var shards: seq<Shard>

    ghost predicate Valid()
      reads this
    {
      LayoutOk(mm, keyWidth, shards) && UniqueIds(shards)
    }

    constructor (mm: Murmur, keyWidth: nat)
      ensures Valid() && this.mm == mm && this.keyWidth == keyWidth
      ensures forall e :: !Stored(shards, e)
    {
      this.mm := mm;
      this.keyWidth := keyWidth;
      shards := [];
    }

    /** tcam_find_shard: the shard whose mask is byte-for-byte 'mask', by its hash first. */
    method FindShard(mask: Cells) returns (r: Option<nat>)
      requires Valid() && |mask| == keyWidth
      ensures r.Some? ==> r.value < |shards| && shards[r.value].mask == mask
      ensures r.None? ==> forall s :: 0 <= s < |shards| ==> shards[s].mask != mask
    {
      var h := ComputeHash(mm, mask, mask);
      for s := 0 to |shards|
        invariant forall t :: 0 <= t < s ==> shards[t].mask != mask
      {
        assert ShardOk(mm, keyWidth, shards[s]);
        var h' := ComputeHash(mm, shards[s].mask, shards[s].mask);
        if h' == h && shards[s].mask == mask {
          return Some(s);
        }
      }
      return None;
    }

    method MatchAndMask(key: Cells, mask: Cells) returns (found: Option<Entry>, outMask: Cells)
      requires Valid() && |key| == |mask| == keyWidth
      ensures Shaped(keyWidth, shards)
      ensures BestMatch(shards, key, found) && found == Scan(mm, shards, key)
      ensures outMask == OrMasks(shards, mask)
    {
      found, outMask := Search(mm, keyWidth, shards, key, mask);
    }

    /** tcam_insert: 'id' names the caller's entry, which must not be in the table yet. */
    method Insert(id: nat, key: Cells, mask: Cells, priority: nat) returns (e: Entry)
      requires Valid() && |key| == |mask| == keyWidth
      requires forall x :: Stored(shards, x) ==> x.id != id
      modifies this
      ensures Valid()
      ensures e == Entry(id, key, mask, priority, HashKey(mm, key, mask))
      ensures forall x :: Stored(shards, x) <==> old(Stored(shards, x)) || x == e
    {
      hide ShardOk, LoadOk, InShard, Stored;
      var h := ComputeHash(mm, key, mask);
      e := Entry(id, key, mask, priority, h);
      var slot := FindShard(mask);
      ghost var before := shards;
      if slot.None? {
        var shard := NewShard(mm, mask);
        shard := InsertIntoShard(mm, keyWidth, shard, e);
        AppendShard(mm, keyWidth, shards, shard);
        NoneStored(shards, mask);
        shards := shards + [shard];
        GainedOne(before, shards, shard, e);
      } else {
        var s := slot.value;
        StoredByMask(mm, keyWidth, shards, s);
        InShardStored(shards, s);
        assert ShardOk(mm, keyWidth, shards[s]) && LoadOk(shards[s]);
        LoadBound(shards[s]);
        var shard := InsertIntoShard(mm, keyWidth, shards[s], e);
        ReplaceShard(mm, keyWidth, shards, s, shard);
        shards := shards[s := shard];
        GainedOne(before, shards, shard, e);
      }
    }

    /** tcam_remove: takes the entry out, and its shard with it when it was the last. */
    method Remove(e: Entry)
      requires Valid() && Stored(shards, e)
      modifies this
      ensures Valid()
      ensures forall x :: Stored(shards, x) <==> old(Stored(shards, x)) && x != e
    {
      var slot := FindShard(e.mask);
      var s := slot.value;
      StoredByMask(mm, keyWidth, shards, s);
      var shard := RemoveFromShard(mm, keyWidth, shards[s], e);
      if shard.count == 0 {
        forall x ensures !InShard(shard, x) {
          CountZeroEmpty(shard.buckets, Slot(x.hash, |shard.buckets|));
        }
        DropShard(mm, keyWidth, shards, s);
        shards := shards[..s] + shards[s + 1..];
      } else {
        ReplaceShard(mm, keyWidth, shards, s, shard);
        shards := shards[s := shard];
      }
    }
  }
}
