/** The hash table object of hashtable.lua. */
module RobinTable {
  import opened Arith
  import opened Cells
  import opened RobinHood

  const INITIAL_SIZE := 16
  const HASH_LIMIT := 0x8000_0000

  /** No key twice. */
  ghost predicate OneEach(m: multiset<Item>) {
    forall x, y :: x in m && y in m && x.key == y.key ==> x == y && m[x] == 1
  }

  ghost predicate Hashed(m: multiset<Item>, hash: seq<Word> -> nat) {
    forall x :: x in m ==> x.hash == Code(hash(x.key))
  }

  /** A hash code: 31 bits, and never the code of an empty slot. */
  function Code(h: nat): (r: nat)
    ensures 0 < r < HASH_LIMIT
  {
    if h % HASH_LIMIT == 0 then 1 else h % HASH_LIMIT
  }

  lemma FreeAhead(s: Slots, it: Item) returns (e: nat)
    requires |Items(s)| < |s|
    ensures Room(s, it, 0, |s|, e)
  {
    hide Index, Distance, Items;
    ItemsBound(s);
    var i :| 0 <= i < |s| && !s[i].Full?;
    e := Distance(i, it.hash, |s|);
    IndexOfDistance(i, it.hash, |s|);
  }

  /** insert_internal: with a slot free the loop always ends by filling one. */
  method InsertInternal(a: array<Slot>, it: Item)
    requires |Items(a[..])| < a.Length
    modifies a
    ensures a[..] == Place(old(a[..]), it, 0, a.Length)
    ensures Items(a[..]) == Items(old(a[..])) + multiset{it}
    ensures a.Length > 1 && old(Ordered(a[..]) && NoTombstones(a[..])) ==> Ordered(a[..]) && NoTombstones(a[..])
  {
    hide Index, Distance, Items, Ordered, NoTombstones;
    ghost var e := FreeAhead(a[..], it);
    PlaceItems(a[..], it, 0, a.Length, e);
    if a.Length > 1 && Ordered(a[..]) && NoTombstones(a[..]) {
      PlaceOrdered(a[..], it, 0, a.Length, e);
    }
    var cur: Item, dist: nat := it, 0;
    ghost var left: nat := a.Length;
    while dist < a.Length
      invariant Room(a[..], cur, dist, left, e)
      invariant Place(a[..], cur, dist, left) == Place(old(a[..]), it, 0, a.Length)
      decreases left
    {
      var i := Index(cur.hash, dist, a.Length);
      if !a[i].Full? {
        a[i] := Full(cur);
        return;
      }
      var victim := a[i].item;
      var bucketDist := Distance(i, victim.hash, a.Length);
      if bucketDist < dist {
        RoomStays(a[..], cur, dist, left, e);
        a[i] := Full(cur);
        cur, dist := victim, bucketDist;
      }
      dist, left, e := dist + 1, left - 1, e - 1;
    }
    assert false;
  }

  lemma {:induction false} EmptyItems(s: Slots)
    requires forall i :: 0 <= i < |s| ==> s[i].Empty?
    ensures Items(s) == multiset{} && Ordered(s) && NoTombstones(s)
  {
    if s != [] {
      EmptyItems(s[..|s| - 1]);
    }
  }

  /** A new key keeps the keys apart. */
  lemma AddOne(m: multiset<Item>, it: Item, hash: seq<Word> -> nat)
    requires Hashed(m, hash) && it.hash == Code(hash(it.key))
    ensures Hashed(m + multiset{it}, hash)
    ensures OneEach(m) && (forall x :: x in m ==> x.key != it.key) ==> OneEach(m + multiset{it})
  {
    hide Code;
    var n := m + multiset{it};
    if OneEach(m) && forall x :: x in m ==> x.key != it.key {
      forall x, y | x in n && y in n && x.key == y.key ensures x == y && n[x] == 1 {
        assert x in m || x == it;
        assert y in m || y == it;
      }
    }
  }

  lemma DropOne(m: multiset<Item>, it: Item, hash: seq<Word> -> nat)
    requires Hashed(m, hash)
    ensures Hashed(m - multiset{it}, hash) && (OneEach(m) ==> OneEach(m - multiset{it}))
  {
    hide Code;
  }

  /** Marking an entry deleted keeps its hash, and with it the order. */
  lemma TombstoneOrdered(s: Slots, i: nat)
    requires Ordered(s) && i < |s| && s[i].Full?
    ensures Ordered(s[i := Deleted(s[i].item)])
  {
    hide Distance;
    var r := s[i := Deleted(s[i].item)];
    forall k | 0 <= k < |r| ensures StepOk(r, k) {
      assert StepOk(s, k);
    }
  }

  lemma TombstoneItems(s: Slots, i: nat)
    requires i < |s| && s[i].Full?
    ensures Items(s[i := Deleted(s[i].item)]) == Items(s) - multiset{s[i].item}
  {
    hide Items;
    ItemsUpdate(s, i, Deleted(s[i].item));
    var m := Items(s[i := Deleted(s[i].item)]);
    assert m + multiset{s[i].item} == Items(s);
    assert m == (m + multiset{s[i].item}) - multiset{s[i].item};
  }

  class Table {
    const hash: seq<Word> -> nat
    var count: nat
    var entries: array<Slot>

    ghost predicate Valid()
      reads this, entries
    {
      && INITIAL_SIZE <= entries.Length && PowerOfTwo(entries.Length)
      && count == |Contents()| && Hashed(Contents(), hash)
    }

    ghost function Contents(): multiset<Item>
      reads this, entries
    {
      Items(entries[..])
    }

    ghost predicate Tidy()
      reads this, entries
    {
      Ordered(entries[..]) && NoTombstones(entries[..])
    }

    constructor (hash: seq<Word> -> nat)
      ensures Valid() && Contents() == multiset{} && Tidy() && fresh(entries) && this.hash == hash
    {
      this.hash := hash;
      count := 0;
      entries := new Slot[INITIAL_SIZE](i => Empty);
      new;
      EmptyItems(entries[..]);
      assert PowerOfTwo(8) && PowerOfTwo(16);
    }

    /** grow: every live entry moves to a table twice the size; tombstones do not. */
    method Grow()
      requires Valid()
      modifies this`entries
      ensures Valid() && fresh(entries) && Contents() == old(Contents()) && Tidy()
      ensures entries.Length == 2 * old(entries.Length)
    {
      hide Items, Ordered, NoTombstones, Place;
      var from, n := entries, entries.Length;
      var to := new Slot[2 * n](i => Empty);
      EmptyItems(to[..]);
      EmptyItems(from[..0]);
      for i := 0 to n
        invariant Items(to[..]) == Items(from[..i]) && |Items(to[..])| <= i
        invariant Ordered(to[..]) && NoTombstones(to[..]) && from[..] == old(entries[..])
      {
        ItemsStep(from[..], i);
        assert from[..][..i] == from[..i] && from[..][..i + 1] == from[..i + 1];
        if from[i].Full? {
          InsertInternal(to, from[i].item);
        }
      }
      assert from[..n] == from[..];
      entries := to;
    }

    /** insert: no look at what is there; a key inserted twice is there twice. */
    method Insert(key: seq<Word>, value: seq<Word>)
      requires Valid()
      modifies this, entries
      ensures Valid() && Contents() == old(Contents()) + multiset{Item(Code(hash(key)), key, value)}
      ensures old(OneEach(Contents()) && forall x :: x in Contents() ==> x.key != key) ==> OneEach(Contents())
      ensures old(Tidy()) || 10 * old(count) >= 8 * old(entries.Length) ==> Tidy()
      ensures entries == old(entries) || fresh(entries)
    {
      hide Items, Ordered, NoTombstones, Place, Code, OneEach, Hashed;
      ItemsBound(entries[..]);
      if 10 * count >= 8 * entries.Length {
        Grow();
      }
      var it := Item(Code(hash(key)), key, value);
      AddOne(Contents(), it, hash);
      InsertInternal(entries, it);
      count := count + 1;
    }

    /** lookup_int_fast: one slot. */
    method LookupFast(key: seq<Word>, h: nat, dist: nat) returns (r: Option<seq<Word>>)
      requires entries.Length > 0
      ensures var x := entries[Index(h, dist, entries.Length)];
              r == if x.Full? && x.item.hash == h && x.item.key == key then Some(x.item.value) else None
    {
      var x := entries[Index(h, dist, entries.Length)];
      if x.Full? && x.item.hash == h && x.item.key == key {
        return Some(x.item.value);
      }
      return None;
    }

    /** lookup_int_slow: give up at an empty slot or at an entry closer to home than we are. */
    method LookupSlow(key: seq<Word>, h: nat) returns (r: Option<seq<Word>>)
      requires entries.Length > 0
      ensures AnswersSlowly(entries[..], h, key, r)
    {
      hide Index, Distance, OnPath;
      ghost var s := entries[..];
      for dist := 0 to entries.Length
        invariant forall d :: 0 <= d < dist ==> !Here(s, Index(h, d, |s|), h, key) && Passes(s, h, d)
      {
        var i := Index(h, dist, entries.Length);
        if entries[i].Full? && entries[i].item.hash == h && entries[i].item.key == key {
          Arrived(s, h, key, dist);
          return Some(entries[i].item.value);
        } else if entries[i].Empty? || Distance(i, entries[i].item.hash, entries.Length) < dist {
          Stopped(s, h, key, dist);
          return None;
        }
      }
      Everywhere(s, h, key);
      return None;
    }

    /** lookup_int: five quick probes, then the careful loop; exactly the findable entries are found. */
    method Lookup(key: seq<Word>) returns (r: Option<seq<Word>>)
      requires Valid()
      ensures Answers(entries[..], Code(hash(key)), key, r)
      ensures r.Some? ==> Item(Code(hash(key)), key, r.value) in Contents()
      ensures Ordered(entries[..]) ==> (r.None? <==> forall x :: x in Contents() ==> x.key != key)
      ensures Ordered(entries[..]) && OneEach(Contents()) ==>
                forall v :: (r == Some(v) <==> Item(Code(hash(key)), key, v) in Contents())
    {
      hide Items, Index, Distance, Ordered, Code, OneEach, Answers, AnswersSlowly;
      var h := Code(hash(key));
      ghost var s := entries[..];
      for dist := 0 to 5
        invariant forall d :: 0 <= d < dist ==> !Here(s, Index(h, d, |s|), h, key)
      {
        r := LookupFast(key, h, dist);
        if r.Some? {
          Quick(s, h, key, dist);
          AnswersMean(s, h, key, r, hash);
          return;
        }
      }
      r := LookupSlow(key, h);
      NotQuick(s, h, key, r);
      AnswersMean(s, h, key, r, hash);
    }

    /** remove: leaves a tombstone; an unknown key is the caller's error. */
    method Remove(key: seq<Word>) returns (ok: bool)
      requires Valid()
      modifies this`count, entries
      ensures Valid()
      ensures ok <==> exists x :: x in old(Contents()) && x.key == key
      ensures !ok ==> Contents() == old(Contents())
      ensures ok ==> exists x :: x in old(Contents()) && x.key == key && Contents() == old(Contents()) - multiset{x}
      ensures old(Ordered(entries[..])) ==> Ordered(entries[..])
      ensures old(OneEach(Contents())) ==> OneEach(Contents())
    {
      hide Items, Index, Distance, Ordered, Code, OneEach;
      var h := Code(hash(key));
      for dist := 0 to entries.Length
        invariant entries[..] == old(entries[..])
        invariant forall d :: 0 <= d < dist ==> !Here(entries[..], Index(h, d, entries.Length), h, key)
      {
        var i := Index(h, dist, entries.Length);
        if entries[i].Full? && entries[i].item.hash == h && entries[i].item.key == key {
          var x := entries[i].item;
          ItemsOf(entries[..], x);
          assert entries[..][i] == Full(x);
          TombstoneItems(entries[..], i);
          DropOne(Contents(), x, hash);
          if Ordered(entries[..]) {
            TombstoneOrdered(entries[..], i);
          }
          entries[i] := Deleted(x);
          assert entries[..] == old(entries[..])[i := Deleted(x)];
          count := count - 1;
          return true;
        }
      }
      Everywhere(entries[..], h, key);
      forall x | x in Contents() ensures x.key != key {
        ItemsOf(entries[..], x);
        var i :| 0 <= i < entries.Length && entries[..][i] == Full(x);
        assert !Here(entries[..], i, h, key);
      }
      return false;
    }
  }

  lemma ItemsStep(s: Slots, i: nat)
    requires i < |s|
    ensures Items(s[..i + 1]) == Items(s[..i]) + Live(s[i])
  {
    assert s[..i + 1][..i] == s[..i];
  }

  predicate Here(s: Slots, i: nat, h: nat, key: seq<Word>) {
    i < |s| && s[i].Full? && s[i].item.hash == h && s[i].item.key == key
  }

  /** All the slots have been probed. */
  lemma Everywhere(s: Slots, h: nat, key: seq<Word>)
    requires forall d :: 0 <= d < |s| ==> !Here(s, Index(h, d, |s|), h, key)
    ensures forall i :: 0 <= i < |s| ==> !Here(s, i, h, key)
  {
    hide Index, Distance;
    forall i | 0 <= i < |s| ensures !Here(s, i, h, key) {
      IndexOfDistance(i, h, |s|);
    }
  }

  /** What a lookup answers: the value of an entry it can find, and none only if it can find none. */
  ghost predicate Answers(s: Slots, h: nat, key: seq<Word>, r: Option<seq<Word>>) {
    if r.Some? then exists i: nat :: Here(s, i, h, key) && Findable(s, i) && s[i].item.value == r.value
    else forall i: nat :: Here(s, i, h, key) ==> !Findable(s, i)
  }

  ghost predicate AnswersSlowly(s: Slots, h: nat, key: seq<Word>, r: Option<seq<Word>>) {
    if r.Some? then exists i: nat :: Here(s, i, h, key) && OnPath(s, i) && s[i].item.value == r.value
    else forall i: nat :: Here(s, i, h, key) ==> !OnPath(s, i)
  }

  lemma Arrived(s: Slots, h: nat, key: seq<Word>, dist: nat)
    requires dist < |s| && Here(s, Index(h, dist, |s|), h, key)
    requires forall d :: 0 <= d < dist ==> Passes(s, h, d)
    ensures OnPath(s, Index(h, dist, |s|))
  {
    hide Index, Distance;
    DistanceOfIndex(h, dist, |s|);
  }

  /** The probe stops at 'dist', and every entry further on has 'dist' on its path. */
  lemma Stopped(s: Slots, h: nat, key: seq<Word>, dist: nat)
    requires dist < |s| && !Passes(s, h, dist)
    requires forall d :: 0 <= d <= dist ==> !Here(s, Index(h, d, |s|), h, key)
    ensures forall i: nat :: Here(s, i, h, key) ==> !OnPath(s, i)
  {
    hide Index, Distance;
    forall i: nat | Here(s, i, h, key) ensures !OnPath(s, i) {
      IndexOfDistance(i, h, |s|);
      assert DistAt(s, i) > dist;
    }
  }

  lemma Quick(s: Slots, h: nat, key: seq<Word>, dist: nat)
    requires dist < 5 && dist < |s| && Here(s, Index(h, dist, |s|), h, key)
    ensures Answers(s, h, key, Some(s[Index(h, dist, |s|)].item.value))
  {
    hide Index, Distance;
    DistanceOfIndex(h, dist, |s|);
    assert Findable(s, Index(h, dist, |s|));
  }

  lemma NotQuick(s: Slots, h: nat, key: seq<Word>, r: Option<seq<Word>>)
    requires forall d :: 0 <= d < 5 && d < |s| ==> !Here(s, Index(h, d, |s|), h, key)
    requires AnswersSlowly(s, h, key, r)
    ensures Answers(s, h, key, r)
  {
    hide Index, Distance, OnPath;
    forall i: nat | Here(s, i, h, key) ensures DistAt(s, i) >= 5 {
      IndexOfDistance(i, h, |s|);
    }
  }

  /** In an ordered table the answers are about the contents. */
  lemma AnswersMean(s: Slots, h: nat, key: seq<Word>, r: Option<seq<Word>>, hash: seq<Word> -> nat)
    requires |s| > 1 && Answers(s, h, key, r) && h == Code(hash(key)) && Hashed(Items(s), hash)
    ensures r.Some? ==> Item(h, key, r.value) in Items(s)
    ensures Ordered(s) ==> (r.None? <==> forall x :: x in Items(s) ==> x.key != key)
    ensures Ordered(s) && OneEach(Items(s)) ==> forall v :: (r == Some(v) <==> Item(h, key, v) in Items(s))
  {
    hide Items, Ordered, Findable, Code;
    forall i: nat | Here(s, i, h, key) ensures s[i].item in Items(s) {
      ItemsOf(s, s[i].item);
    }
    if Ordered(s) {
      forall x | x in Items(s) && x.key == key ensures exists i: nat :: Here(s, i, h, key) && Findable(s, i) {
        ItemsOf(s, x);
        var i :| 0 <= i < |s| && s[i] == Full(x);
        OrderedFindable(s, i);
        assert Here(s, i, h, key);
      }
    }
  }

  /** The seventh key is in the table, and the only answer a lookup can give for it is none. */
  lemma HiddenKey(r: Option<seq<Word>>)
    ensures Clash(6) in Items(Reused())
    ensures Answers(Reused(), 16, [6], r) <==> r.None?
  {
    hide Reused, Crowd, Findable, Items;
    TombstoneReuseHides();
    ReusedIs();
    CrowdIs();
    ItemsOf(Reused(), Clash(6));
    forall i: nat | Here(Reused(), i, 16, [6]) ensures i == 6 {
    }
  }
}
