/**
 The Robin Hood hash table of the Lua pipeline.  An entry's distance is how far it
 sits from where its hash points; an insertion takes the slot of any entry that is
 closer to home and carries that entry on.
 */
module RobinHood {
  import opened Arith

  type Word = nat

  /** Key and value are the structs of 32-bit fields; 'hash' is the key's, never zero. */
  datatype Item = Item(hash: nat, key: seq<Word>, value: seq<Word>)

  /** A removed entry keeps its hash, with the DELETED bit set. */
  datatype Slot = Empty | Deleted(item: Item) | Full(item: Item)

  type Slots = seq<Slot>

  // ---- positions -------------------------------------------------------------

  function Index(h: nat, dist: nat, size: nat): (i: nat)
    requires size > 0
    ensures i < size
  {
    (h + dist) % size
  }

  function Distance(i: nat, h: nat, size: nat): (d: nat)
    requires i < size
    ensures d < size
  {
    (i + size - h % size) % size
  }

  function Next(i: nat, size: nat): (j: nat)
    requires i < size
    ensures j < size
  {
    if i + 1 == size then 0 else i + 1
  }

  lemma IndexStep(h: nat, dist: nat, size: nat)
    requires size > 0
    ensures Index(h, dist + 1, size) == Next(Index(h, dist, size), size)
  {
    var n := h + dist;
    assert n == size * (n / size) + n % size && size * (n / size + 1) == size * (n / size) + size;
    if n % size + 1 == size {
      ModUnique(n + 1, size, n / size + 1, 0);
    } else {
      ModUnique(n + 1, size, n / size, n % size + 1);
    }
  }

  lemma DistanceCases(i: nat, h: nat, size: nat)
    requires i < size
    ensures Distance(i, h, size) == if i >= h % size then i - h % size else i + size - h % size
  {
    var s := h % size;
    if i >= s {
      ModUnique(i + size - s, size, 1, i - s);
    } else {
      ModUnique(i + size - s, size, 0, i + size - s);
    }
  }

  lemma IndexCases(h: nat, d: nat, size: nat)
    requires d < size
    ensures Index(h, d, size) == if h % size + d < size then h % size + d else h % size + d - size
  {
    var s := h % size;
    assert h == size * (h / size) + s && size * (h / size + 1) == size * (h / size) + size;
    if s + d < size {
      ModUnique(h + d, size, h / size, s + d);
    } else {
      ModUnique(h + d, size, h / size + 1, s + d - size);
    }
  }

  lemma DistanceOfIndex(h: nat, d: nat, size: nat)
    requires d < size
    ensures Distance(Index(h, d, size), h, size) == d
  {
    IndexCases(h, d, size);
    DistanceCases(Index(h, d, size), h, size);
  }

  lemma IndexOfDistance(i: nat, h: nat, size: nat)
    requires i < size
    ensures Index(h, Distance(i, h, size), size) == i
  {
    DistanceCases(i, h, size);
    IndexCases(h, Distance(i, h, size), size);
  }

  /** From the same slot, the same number of steps leads to the same slot. */
  lemma {:induction false} IndexShift(h1: nat, d1: nat, h2: nat, d2: nat, e: nat, size: nat)
    requires size > 0 && Index(h1, d1, size) == Index(h2, d2, size)
    ensures Index(h1, d1 + e, size) == Index(h2, d2 + e, size)
  {
    if e > 0 {
      IndexShift(h1, d1, h2, d2, e - 1, size);
      IndexStep(h1, d1 + e - 1, size);
      IndexStep(h2, d2 + e - 1, size);
    }
  }

  // ---- contents --------------------------------------------------------------

  function Live(x: Slot): multiset<Item> {
    if x.Full? then multiset{x.item} else multiset{}
  }

  function Items(s: Slots): multiset<Item> {
    if s == [] then multiset{} else Items(s[..|s| - 1]) + Live(s[|s| - 1])
  }

  lemma Exchange(a: multiset<Item>, b: multiset<Item>, out: multiset<Item>, into: multiset<Item>, rest: multiset<Item>)
    requires a + out == b + into
    ensures (a + rest) + out == (b + rest) + into
  {
    assert (a + rest) + out == (a + out) + rest;
    assert (b + rest) + into == (b + into) + rest;
  }

  lemma {:induction false} ItemsUpdate(s: Slots, i: nat, x: Slot)
    requires i < |s|
    ensures Items(s[i := x]) + Live(s[i]) == Items(s) + Live(x)
  {
    hide Live;
    var n := |s| - 1;
    if i == n {
      assert s[i := x][..n] == s[..n];
    } else {
      assert s[i := x][..n] == s[..n][i := x];
      ItemsUpdate(s[..n], i, x);
      Exchange(Items(s[..n][i := x]), Items(s[..n]), Live(s[i]), Live(x), Live(s[n]));
    }
  }

  lemma {:induction false} ItemsOf(s: Slots, x: Item)
    ensures x in Items(s) <==> Full(x) in s
  {
    if s != [] {
      var n := |s| - 1;
      ItemsOf(s[..n], x);
      assert s == s[..n] + [s[n]];
    }
  }

  lemma {:induction false} ItemsBound(s: Slots)
    ensures |Items(s)| <= |s|
    ensures |Items(s)| < |s| ==> exists i :: 0 <= i < |s| && !s[i].Full?
  {
    if s != [] {
      var n := |s| - 1;
      ItemsBound(s[..n]);
      if |Items(s)| < |s| && s[n].Full? {
        var i :| 0 <= i < n && !s[..n][i].Full?;
        assert !s[i].Full?;
      }
    }
  }

  // ---- insert_internal -------------------------------------------------------

  function DistAt(s: Slots, i: nat): nat
    requires i < |s| && !s[i].Empty?
  {
    Distance(i, s[i].item.hash, |s|)
  }

  /** Insert from probe step 'dist' on, looking at no more than 'left' slots. */
  function Place(s: Slots, it: Item, dist: nat, left: nat): (r: Slots)
    requires |s| > 0
    ensures |r| == |s|
    decreases left
  {
    if left == 0 then s
    else
      var i := Index(it.hash, dist, |s|);
      if !s[i].Full? then s[i := Full(it)]
      else if DistAt(s, i) < dist then Place(s[i := Full(it)], s[i].item, DistAt(s, i) + 1, left - 1)
      else Place(s, it, dist + 1, left - 1)
  }

  /** A slot that is not full comes up 'e' steps from here, before 'left' runs out. */
  predicate Room(s: Slots, it: Item, dist: nat, left: nat, e: nat) {
    |s| > 0 && e < left && dist + left <= |s| && !s[Index(it.hash, dist + e, |s|)].Full?
  }

  lemma RoomStays(s: Slots, it: Item, dist: nat, left: nat, e: nat)
    requires Room(s, it, dist, left, e) && s[Index(it.hash, dist, |s|)].Full? && DistAt(s, Index(it.hash, dist, |s|)) < dist
    ensures var i := Index(it.hash, dist, |s|);
            e > 0 && Room(s[i := Full(it)], s[i].item, DistAt(s, i) + 1, left - 1, e - 1)
  {
    hide Index, Distance;
    var i := Index(it.hash, dist, |s|);
    IndexOfDistance(i, s[i].item.hash, |s|);
    IndexShift(it.hash, dist, s[i].item.hash, DistAt(s, i), e, |s|);
  }

  /** Every victim finds a place: nothing is lost, nothing is invented. */
  lemma {:induction false} PlaceItems(s: Slots, it: Item, dist: nat, left: nat, e: nat)
    requires Room(s, it, dist, left, e)
    ensures Items(Place(s, it, dist, left)) == Items(s) + multiset{it}
    decreases left
  {
    hide Index, Distance, Items;
    var i := Index(it.hash, dist, |s|);
    ItemsUpdate(s, i, Full(it));
    if s[i].Full? {
      if DistAt(s, i) < dist {
        RoomStays(s, it, dist, left, e);
        PlaceItems(s[i := Full(it)], s[i].item, DistAt(s, i) + 1, left - 1, e - 1);
      } else {
        PlaceItems(s, it, dist + 1, left - 1, e - 1);
      }
    }
  }

  // ---- the order -------------------------------------------------------------

  /** An entry away from home sits behind one that is at least as far from its own. */
  predicate StepOk(s: Slots, i: nat)
    requires i < |s|
  {
    var j := Next(i, |s|);
    s[j].Empty? || DistAt(s, j) == 0 || (!s[i].Empty? && DistAt(s, i) + 1 >= DistAt(s, j))
  }

  predicate Ordered(s: Slots) {
    forall i :: 0 <= i < |s| ==> StepOk(s, i)
  }

  predicate NoTombstones(s: Slots) {
    forall i :: 0 <= i < |s| ==> !s[i].Deleted?
  }

  /** The slot just probed holds an entry at least as far from home as we were. */
  predicate Approach(s: Slots, it: Item, dist: nat)
    requires |s| > 0
  {
    dist == 0 || var p := Index(it.hash, dist - 1, |s|); !s[p].Empty? && DistAt(s, p) + 1 >= dist
  }

  lemma NextInjective(i: nat, j: nat, size: nat)
    requires i < size && j < size && Next(i, size) == Next(j, size)
    ensures i == j
  {
  }

  /** Putting an entry at 'dist' keeps the order exactly when the next slot does not need more. */
  lemma PutOrderedExactly(s: Slots, it: Item, dist: nat)
    requires |s| > 1 && dist < |s| && Ordered(s) && Approach(s, it, dist)
    ensures var i := Index(it.hash, dist, |s|); var j := Next(i, |s|);
            Ordered(s[i := Full(it)]) <==> s[j].Empty? || DistAt(s, j) <= dist + 1
  {
    var i := Index(it.hash, dist, |s|);
    var j, r := Next(i, |s|), s[i := Full(it)];
    DistanceOfIndex(it.hash, dist, |s|);
    hide Index, Distance;
    if Ordered(r) {
      assert StepOk(r, i);
    } else {
      var k :| 0 <= k < |r| && !StepOk(r, k);
      assert StepOk(s, k);
      if Next(k, |s|) == i && dist > 0 {
        IndexStep(it.hash, dist - 1, |s|);
        NextInjective(k, Index(it.hash, dist - 1, |s|), |s|);
      }
    }
  }

  /** So it does when what sat there was not further from home; a tombstone may have been. */
  lemma PutOrdered(s: Slots, it: Item, dist: nat)
    requires |s| > 1 && dist < |s| && Ordered(s) && Approach(s, it, dist)
    requires var i := Index(it.hash, dist, |s|); s[i].Empty? || DistAt(s, i) <= dist
    ensures Ordered(s[Index(it.hash, dist, |s|) := Full(it)])
  {
    PutOrderedExactly(s, it, dist);
    var i := Index(it.hash, dist, |s|);
    hide Index, Distance;
    assert StepOk(s, i);
  }

  /** Without tombstones an insertion keeps the order. */
  lemma {:induction false} PlaceOrdered(s: Slots, it: Item, dist: nat, left: nat, e: nat)
    requires |s| > 1 && Room(s, it, dist, left, e) && Ordered(s) && NoTombstones(s) && Approach(s, it, dist)
    ensures Ordered(Place(s, it, dist, left)) && NoTombstones(Place(s, it, dist, left))
    decreases left
  {
    var i := Index(it.hash, dist, |s|);
    if !s[i].Full? {
      hide Index, Distance, StepOk;
      PutOrdered(s, it, dist);
    } else if DistAt(s, i) < dist {
      var v, r := s[i].item, s[i := Full(it)];
      DistanceOfIndex(it.hash, dist, |s|);
      IndexOfDistance(i, v.hash, |s|);
      hide Index, Distance, StepOk;
      PutOrdered(s, it, dist);
      RoomStays(s, it, dist, left, e);
      assert Approach(r, v, DistAt(s, i) + 1);
      PlaceOrdered(r, v, DistAt(s, i) + 1, left - 1, e - 1);
    } else {
      hide Distance, StepOk;
      PlaceOrdered(s, it, dist + 1, left - 1, e - 1);
    }
  }

  /** In an ordered table the whole probe path of an entry is occupied by entries no closer to home. */
  lemma {:induction false} Reach(s: Slots, i: nat, d: nat)
    requires |s| > 1 && Ordered(s) && i < |s| && !s[i].Empty? && d <= DistAt(s, i)
    ensures var p := Index(s[i].item.hash, d, |s|); !s[p].Empty? && DistAt(s, p) >= d
    decreases DistAt(s, i) - d
  {
    hide Index, Distance;
    var h := s[i].item.hash;
    if d == DistAt(s, i) {
      IndexOfDistance(i, h, |s|);
    } else {
      Reach(s, i, d + 1);
      IndexStep(h, d, |s|);
      assert StepOk(s, Index(h, d, |s|));
    }
  }

  function Clash(k: nat): Item {
    Item(16, [k], [])
  }

  function Row(n: nat): (s: Slots)
    ensures |s| == 16
  {
    seq(16, k requires 0 <= k => if k < n then Full(Clash(k)) else Empty)
  }

  /** The table after 'n' insertions of keys that all hash to slot 0. */
  function Inserted(n: nat): (s: Slots)
    ensures |s| == 16
  {
    if n == 0 then Row(0) else Place(Inserted(n - 1), Clash(n - 1), 0, 16)
  }

  lemma RowDistance(n: nat, d: nat)
    requires d < n <= 16
    ensures Index(16, d, 16) == d && DistAt(Row(n), d) == d
  {
  }

  /** In a row of entries that share a home, the next one passes them all. */
  lemma {:induction false} PassesRow(n: nat, dist: nat)
    requires dist <= n < 16
    ensures Place(Row(n), Clash(n), dist, 16 - dist) == Row(n)[n := Full(Clash(n))]
    decreases n - dist
  {
    assert Index(16, dist, 16) == dist;
    if dist < n {
      RowDistance(n, dist);
      PassesRow(n, dist + 1);
    }
    hide Index, DistAt;
  }

  lemma {:induction false} InsertedIsRow(n: nat)
    requires n <= 16
    ensures Inserted(n) == Row(n)
  {
    if n > 0 {
      hide Place;
      InsertedIsRow(n - 1);
      PassesRow(n - 1, 0);
      assert Row(n - 1)[n - 1 := Full(Clash(n - 1))] == Row(n);
    }
  }

  /** Seven such insertions, and the removal of the sixth entry. */
  function Crowd(): (s: Slots)
    ensures |s| == 16
  {
    Inserted(7)[5 := Deleted(Clash(5))]
  }

  lemma CrowdIs()
    ensures Crowd() == Row(7)[5 := Deleted(Clash(5))] && Inserted(7)[5] == Full(Clash(5))
  {
    hide Inserted;
    InsertedIsRow(7);
  }

  lemma CrowdOrdered()
    ensures Ordered(Crowd()) && forall i :: 0 <= i < 7 ==> !Crowd()[i].Empty? && DistAt(Crowd(), i) == i
  {
    hide Crowd, Inserted;
    CrowdIs();
    var s := Crowd();
    forall i | 0 <= i < 7 ensures !s[i].Empty? && DistAt(s, i) == i {
      RowDistance(7, i);
    }
    hide Distance;
    forall i | 0 <= i < 16 ensures StepOk(s, i) {
    }
  }

  /** A newcomer that is at home in the slot of the tombstone. */
  function Reused(): (r: Slots)
    ensures |r| == 16
  {
    Place(Crowd(), Item(5, [7], []), 0, 16)
  }

  lemma ReusedIs()
    ensures Reused() == Crowd()[5 := Full(Item(5, [7], []))]
  {
    hide Place, Crowd;
    CrowdIs();
    PlaceAtOnce(Crowd(), Item(5, [7], []), 16);
  }

  /** The lookup of an entry gets to it: in five quick steps, or past slots that do not stop it. */
  predicate Findable(s: Slots, i: nat)
    requires i < |s| && !s[i].Empty?
  {
    DistAt(s, i) < 5 || OnPath(s, i)
  }

  predicate OnPath(s: Slots, i: nat)
    requires i < |s| && !s[i].Empty?
  {
    forall d :: 0 <= d < DistAt(s, i) ==> Passes(s, s[i].item.hash, d)
  }

  /** The careful lookup goes on after step 'd'. */
  predicate Passes(s: Slots, h: nat, d: nat)
    requires |s| > 0
  {
    var p := Index(h, d, |s|);
    !s[p].Empty? && DistAt(s, p) >= d
  }

  /** In an ordered table every entry is found. */
  lemma OrderedFindable(s: Slots, i: nat)
    requires |s| > 1 && Ordered(s) && i < |s| && !s[i].Empty?
    ensures Findable(s, i)
  {
    hide Index, Distance, Ordered;
    forall d | 0 <= d < DistAt(s, i) ensures Passes(s, s[i].item.hash, d) {
      Reach(s, i, d);
    }
  }

  /**
   Reusing a tombstone can hide a key: seven insertions, a removal and an insertion, and
   the lookup of the seventh entry stops at the newcomer, one slot short.
   */
  lemma TombstoneReuseHides()
    ensures var r := Reused();
            && Ordered(Crowd()) && !Ordered(r)
            && r[6] == Full(Clash(6)) && !Findable(r, 6)
  {
    CrowdOrdered();
    ReusedDistances();
    hide Reused, Crowd, Ordered, Distance, Index;
    var r := Reused();
    PassedOver(r, 6);
    Broken(r);
  }

  lemma ReusedDistances()
    ensures var r := Reused();
            && |r| == 16 && !r[5].Empty? && r[6] == Full(Clash(6))
            && DistAt(r, 5) == 0 && DistAt(r, 6) == 6
  {
    hide Reused, Ordered, Crowd;
    CrowdIs();
    CrowdOrdered();
    ReusedIs();
    assert DistAt(Reused(), 6) == DistAt(Crowd(), 6);
  }

  /** A probe for that entry stops at slot 5. */
  lemma PassedOver(r: Slots, i: nat)
    requires |r| == 16 && !r[5].Empty? && DistAt(r, 5) == 0
    requires i < 16 && r[i] == Full(Clash(6)) && DistAt(r, i) > 5
    ensures !Findable(r, i)
  {
    hide Distance;
    assert Index(16, 5, 16) == 5;
    assert !Passes(r, 16, 5);
  }

  lemma PlaceAtOnce(s: Slots, it: Item, left: nat)
    requires |s| > 0 && left > 0 && !s[Index(it.hash, 0, |s|)].Full?
    ensures Place(s, it, 0, left) == s[Index(it.hash, 0, |s|) := Full(it)]
  {
  }

  lemma Broken(r: Slots)
    requires |r| == 16 && !r[5].Empty? && !r[6].Empty? && DistAt(r, 5) == 0 && DistAt(r, 6) == 6
    ensures !Ordered(r)
  {
    hide Distance;
    assert !StepOk(r, 5);
  }
}
