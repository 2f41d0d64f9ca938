/**
 The MAC/VLAN table: open addressing with triangular probing and tombstones.
 A 64-bit key is its eight bytes in memory, least significant first, so byte 7
 carries the flag bits.
 */
module L2Table {
  import opened Cells
  import opened Probing

  // ---- keys ----------------------------------------------------------------

  type Key = seq<nat>

  datatype Value = Value(outPort: nat, metadata: nat)

  datatype Entry = Entry(key: Key, value: Value)

  datatype Status = Ok | NotFound | Param

  const KEY_FREE: Key := [0, 0, 0, 0, 0, 0, 0, 0x80]
  const KEY_DELETED: Key := [0, 0, 0, 0, 0, 0, 0, 0xC0]

  predicate Bytes(s: seq<nat>) {
    forall i :: 0 <= i < |s| ==> s[i] < 256
  }

  predicate IsMac(mac: seq<nat>) {
    |mac| == 6 && Bytes(mac)
  }

  predicate IsKey(k: Key) {
    |k| == 8 && Bytes(k)
  }

  /** Bit 63 is set. */
  predicate Unoccupied(k: Key)
    requires IsKey(k)
  {
    k[7] >= 0x80
  }

  predicate Live(k: Key) {
    IsKey(k) && !Unoccupied(k)
  }

  function Encode(mac: seq<nat>, vlan: nat): Key {
    mac + [vlan % 256, vlan / 256]
  }

  function Decode(k: Key): (seq<nat>, nat)
    requires IsKey(k)
  {
    (k[..6], k[6] + 256 * k[7])
  }

  /** Encoding and decoding are inverse on all 16-bit VLAN ids and all keys. */
  lemma EncodeDecode(mac: seq<nat>, vlan: nat, k: Key)
    requires IsMac(mac) && vlan < 0x1_0000 && IsKey(k)
    ensures IsKey(Encode(mac, vlan)) && Decode(Encode(mac, vlan)) == (mac, vlan)
    ensures Encode(Decode(k).0, Decode(k).1) == k
  {
    assert Encode(mac, vlan)[..6] == mac;
    assert k == k[..6] + [k[6], k[7]];
  }

  /**
   Bit 63, the flag of an unoccupied slot, is clear in a key exactly when the VLAN id is
   below 0x8000; the documented 12-bit ids are.
   */
  lemma OccupiedIffVlanFits(mac: seq<nat>, vlan: nat)
    requires IsMac(mac) && vlan < 0x1_0000
    ensures Live(Encode(mac, vlan)) <==> vlan < 0x8000
  {
    EncodeDecode(mac, vlan, Encode(mac, vlan));
  }

  /** The first id past the limit: this MAC and VLAN encode to the free marker itself. */
  lemma VlanCollidesWithFree()
    ensures Encode([0, 0, 0, 0, 0, 0], 0x8000) == KEY_FREE
  {
  }

  // ---- the slot array ------------------------------------------------------

  /** murmur over the VLAN id followed by the MAC. */
  function HashOf(hash: seq<nat> -> nat, k: Key): nat
    requires IsKey(k)
  {
    hash(k[6..] + k[..6])
  }

  function Step(hash: seq<nat> -> nat, size: nat, k: Key, n: nat): (r: nat)
    requires IsKey(k) && size > 0
    ensures r < size
  {
    Slot(HashOf(hash, k), n, size)
  }

  /** Probing for k meets no FREE slot before step n. */
  predicate NoFreeBefore(hash: seq<nat> -> nat, es: seq<Entry>, k: Key, n: nat) {
    IsKey(k) && |es| > 0 && forall m :: 0 <= m < n ==> es[Step(hash, |es|, k, m)].key != KEY_FREE
  }

  predicate Reached(hash: seq<nat> -> nat, es: seq<Entry>, k: Key, s: nat) {
    exists n :: 0 <= n < |es| && NoFreeBefore(hash, es, k, n) && Step(hash, |es|, k, n) == s
  }

  predicate SlotsOk(es: seq<Entry>) {
    forall s :: 0 <= s < |es| ==> es[s].key == KEY_FREE || es[s].key == KEY_DELETED || Live(es[s].key)
  }

  predicate UniqueKeys(es: seq<Entry>) {
    forall s, t :: 0 <= s < |es| && 0 <= t < |es| && Live(es[s].key) && es[s].key == es[t].key ==> s == t
  }

  predicate AllReached(hash: seq<nat> -> nat, es: seq<Entry>) {
    forall s :: 0 <= s < |es| && Live(es[s].key) ==> Reached(hash, es, es[s].key, s)
  }

  function LiveSlots(es: seq<Entry>): set<nat> {
    set s: nat | s < |es| && Live(es[s].key)
  }

  function DeletedSlots(es: seq<Entry>): set<nat> {
    set s: nat | s < |es| && es[s].key == KEY_DELETED
  }

  function FreeSlots(es: seq<Entry>): set<nat> {
    set s: nat | s < |es| && es[s].key == KEY_FREE
  }

  /** What the slot array holds. */
  ghost predicate ArrayOk(hash: seq<nat> -> nat, es: seq<Entry>, log: nat) {
    && |es| == Pow2(log)
    && SlotsOk(es)
    && UniqueKeys(es)
    && AllReached(hash, es)
  }

  /** The map the table stands for. */
  function Contents(es: seq<Entry>): map<Key, Value>
    requires UniqueKeys(es)
  {
    map s | 0 <= s < |es| && Live(es[s].key) :: es[s].key := es[s].value
  }

  /** With a slot to spare there is a FREE one, and every probe sequence meets one. */
  lemma FreeIsMet(hash: seq<nat> -> nat, es: seq<Entry>, log: nat, k: Key) returns (n: nat)
    requires |es| == Pow2(log) && SlotsOk(es) && IsKey(k)
    requires |LiveSlots(es)| + |DeletedSlots(es)| < |es|
    ensures n < |es| && es[Step(hash, |es|, k, n)].key == KEY_FREE
  {
    var used := LiveSlots(es) + DeletedSlots(es);
    RangeIs(|es|);
    if forall s: nat :: s < |es| ==> s in used {
      SubsetSize(Range(|es|), used);
      assert false;
    }
    var s: nat :| s < |es| && s !in used;
    ProbesCover(HashOf(hash, k), log, s);
    n :| n < |es| && Slot(HashOf(hash, k), n, |es|) == s;
  }

  predicate Absent(es: seq<Entry>, k: Key) {
    forall s :: 0 <= s < |es| ==> es[s].key != k
  }

  /** The loop that probes for k meets neither k nor FREE, however long it runs. */
  ghost predicate Endless(hash: seq<nat> -> nat, es: seq<Entry>, k: Key) {
    IsKey(k) && |es| > 0 &&
    forall n: nat :: es[Step(hash, |es|, k, n)].key != k && es[Step(hash, |es|, k, n)].key != KEY_FREE
  }

  /** It never ends exactly when k is nowhere and no slot is FREE. */
  lemma EndlessExactly(hash: seq<nat> -> nat, es: seq<Entry>, log: nat, k: Key)
    requires |es| == Pow2(log) && |es| > 0 && IsKey(k)
    ensures Endless(hash, es, k) <==> Absent(es, k) && FreeSlots(es) == {}
  {
    hide KEY_FREE, HashOf, IsKey;
    if Absent(es, k) && FreeSlots(es) == {} {
      forall n: nat ensures es[Step(hash, |es|, k, n)].key != k && es[Step(hash, |es|, k, n)].key != KEY_FREE {
        assert Step(hash, |es|, k, n) !in FreeSlots(es);
      }
    } else {
      var s: nat :| s < |es| && (es[s].key == k || es[s].key == KEY_FREE);
      ProbesCover(HashOf(hash, k), log, s);
      var n: nat :| n < |es| && Slot(HashOf(hash, k), n, |es|) == s;
      assert es[Step(hash, |es|, k, n)] == es[s];
    }
  }

  lemma FreeCount(es: seq<Entry>, i: nat, e: Entry)
    requires i < |es|
    ensures |FreeSlots(es[i := e])| == |FreeSlots(es)| + Flag(e.key == KEY_FREE) - Flag(es[i].key == KEY_FREE)
  {
    hide KEY_FREE;
    var r := es[i := e];
    assert FreeSlots(r) - {i} == FreeSlots(es) - {i};
    Without(FreeSlots(r), i);
    Without(FreeSlots(es), i);
  }

  /** No slot holds k; a tombstone's key may be elsewhere. */
  predicate Missing(es: seq<Entry>, k: Key) {
    k != KEY_FREE && (k == KEY_DELETED || Absent(es, k))
  }

  /** The answer of a lookup: the slot of k, or none when k is in no slot. */
  predicate LocatedAt(es: seq<Entry>, k: Key, r: Option<nat>) {
    if r.Some? then r.value < |es| && es[r.value].key == k else Missing(es, k)
  }

  /** The answer of a search for room: a reusable slot on k's probe path, or none when k is there already. */
  predicate VacancyFor(hash: seq<nat> -> nat, es: seq<Entry>, k: Key, r: Option<nat>) {
    if r.None? then !Absent(es, k)
    else
      r.value < |es| && !Live(es[r.value].key) && Reached(hash, es, k, r.value) && Missing(es, k)
  }

  /** A probe that ends at FREE without seeing k shows that k is nowhere. */
  lemma NotSeenNotThere(hash: seq<nat> -> nat, es: seq<Entry>, log: nat, k: Key, n: nat)
    requires ArrayOk(hash, es, log) && IsKey(k) && k != KEY_FREE && n < |es|
    requires es[Step(hash, |es|, k, n)].key == KEY_FREE && Passed(hash, es, k, n)
    ensures Missing(es, k)
  {
    hide KEY_DELETED, KEY_FREE;
    if k != KEY_DELETED {
      forall s | 0 <= s < |es| ensures es[s].key != k {
        assert Live(es[s].key) ==> Reached(hash, es, es[s].key, s);
      }
    }
  }

  /** n probes for k have met neither FREE nor k. */
  predicate Passed(hash: seq<nat> -> nat, es: seq<Entry>, k: Key, n: nat) {
    && NoFreeBefore(hash, es, k, n)
    && forall m :: 0 <= m < n ==> es[Step(hash, |es|, k, m)].key != k
  }

  lemma NotAbsent(es: seq<Entry>, k: Key, s: nat)
    requires s < |es| && es[s].key == k
    ensures !Absent(es, k)
  {
  }

  lemma NonePassed(hash: seq<nat> -> nat, es: seq<Entry>, k: Key)
    requires IsKey(k) && |es| > 0
    ensures Passed(hash, es, k, 0)
  {
  }

  lemma PassedNext(hash: seq<nat> -> nat, es: seq<Entry>, k: Key, n: nat)
    requires Passed(hash, es, k, n)
    requires es[Step(hash, |es|, k, n)].key != KEY_FREE && es[Step(hash, |es|, k, n)].key != k
    ensures Passed(hash, es, k, n + 1)
  {
  }

  lemma FreeNotPassed(hash: seq<nat> -> nat, es: seq<Entry>, k: Key, f: nat)
    requires IsKey(k) && |es| > 0 && es[Step(hash, |es|, k, f)].key == KEY_FREE
    ensures forall n: nat :: Passed(hash, es, k, n) ==> n <= f
  {
  }

  /** A slot that holds k holds the value of k, unless k is a marker. */
  lemma KeyOrMarker(es: seq<Entry>, k: Key)
    requires UniqueKeys(es) && SlotsOk(es)
    ensures Absent(es, k) <==> k !in Contents(es) && !(exists s :: 0 <= s < |es| && es[s].key == k && IsMarker(k))
    ensures k in Contents(es) ==> Live(k) && !IsMarker(k)
    ensures Live(k) ==> !IsMarker(k)
    ensures forall s :: 0 <= s < |es| && es[s].key == k ==>
      IsMarker(k) || (Live(k) && k in Contents(es) && Contents(es)[k] == es[s].value)
  {
    MarkersNotLive();
    hide Live, KEY_FREE, KEY_DELETED;
    InContents(es, k);
  }

  lemma Arrives(hash: seq<nat> -> nat, es: seq<Entry>, k: Key, n: nat)
    requires Passed(hash, es, k, n) && n < |es|
    ensures Reached(hash, es, k, Step(hash, |es|, k, n))
  {
  }

  lemma SlotIsKey(es: seq<Entry>, s: nat)
    requires SlotsOk(es) && s < |es|
    ensures IsKey(es[s].key) && (Unoccupied(es[s].key) <==> !Live(es[s].key))
  {
  }

  lemma StillReached(hash: seq<nat> -> nat, es: seq<Entry>, i: nat, e: Entry, k: Key, s: nat)
    requires i < |es| && e.key != KEY_FREE && Reached(hash, es, k, s)
    ensures Reached(hash, es[i := e], k, s)
  {
    var n :| 0 <= n < |es| && NoFreeBefore(hash, es, k, n) && Step(hash, |es|, k, n) == s;
    assert NoFreeBefore(hash, es[i := e], k, n);
  }

  lemma AllStillReached(hash: seq<nat> -> nat, es: seq<Entry>, i: nat, e: Entry)
    requires i < |es| && e.key != KEY_FREE && AllReached(hash, es)
    requires Live(e.key) ==> Reached(hash, es, e.key, i)
    ensures AllReached(hash, es[i := e])
  {
    hide Live, Reached;
    var r := es[i := e];
    forall s | 0 <= s < |r| && Live(r[s].key) ensures Reached(hash, r, r[s].key, s) {
      StillReached(hash, es, i, e, r[s].key, s);
    }
  }

  lemma InContents(es: seq<Entry>, k: Key)
    requires UniqueKeys(es)
    ensures k in Contents(es) <==> exists s :: 0 <= s < |es| && Live(es[s].key) && es[s].key == k
    ensures forall s :: 0 <= s < |es| && Live(es[s].key) ==> Contents(es)[es[s].key] == es[s].value
  {
    hide Live;
  }

  /** Away from slot i, the keys of es[i := e] and of es are the same. */
  lemma ContentsElsewhere(es: seq<Entry>, i: nat, e: Entry, k: Key)
    requires i < |es| && UniqueKeys(es) && UniqueKeys(es[i := e])
    requires k != e.key && k != es[i].key
    ensures k in Contents(es[i := e]) <==> k in Contents(es)
    ensures k in Contents(es) ==> Contents(es[i := e])[k] == Contents(es)[k]
  {
    hide Live;
    var r := es[i := e];
    InContents(es, k);
    InContents(r, k);
    assert forall s :: 0 <= s < |es| && s != i ==> r[s] == es[s];
  }

  lemma ContentsPut(es: seq<Entry>, i: nat, e: Entry)
    requires i < |es| && UniqueKeys(es) && UniqueKeys(es[i := e]) && Live(e.key) && !Live(es[i].key)
    requires Absent(es, e.key)
    ensures Contents(es[i := e]) == Contents(es)[e.key := e.value] && e.key !in Contents(es)
  {
    hide Live, Contents;
    var r := es[i := e];
    InContents(es, e.key);
    InContents(r, e.key);
    InContents(es, es[i].key);
    InContents(r, es[i].key);
    assert r[i] == e;
    forall k | k != e.key && k != es[i].key
      ensures k in Contents(r) <==> k in Contents(es)
      ensures k in Contents(es) ==> Contents(r)[k] == Contents(es)[k]
    {
      ContentsElsewhere(es, i, e, k);
    }
  }

  /** Slot i goes from one state to another: what the two counters must do. */
  lemma SlotCounts(es: seq<Entry>, i: nat, e: Entry)
    requires i < |es|
    ensures var r := es[i := e];
      && |LiveSlots(r)| == |LiveSlots(es)| + Flag(Live(e.key)) - Flag(Live(es[i].key))
      && |DeletedSlots(r)| == |DeletedSlots(es)| + Flag(e.key == KEY_DELETED) - Flag(es[i].key == KEY_DELETED)
  {
    hide Live;
    var r := es[i := e];
    assert LiveSlots(r) - {i} == LiveSlots(es) - {i};
    assert DeletedSlots(r) - {i} == DeletedSlots(es) - {i};
    Without(LiveSlots(r), i);
    Without(LiveSlots(es), i);
    Without(DeletedSlots(r), i);
    Without(DeletedSlots(es), i);
  }

  lemma Without(s: set<nat>, i: nat)
    ensures |s| == |s - {i}| + Flag(i in s)
  {
    if i in s {
      assert s == (s - {i}) + {i};
    } else {
      assert s == s - {i};
    }
  }

  function Flag(b: bool): nat {
    if b then 1 else 0
  }

  lemma MarkersNotLive()
    ensures !Live(KEY_FREE) && !Live(KEY_DELETED) && KEY_FREE != KEY_DELETED
  {
    assert KEY_FREE[7] != KEY_DELETED[7];
  }

  /** Writing a live key into the unoccupied slot that its probe reached. */
  lemma PutOk(hash: seq<nat> -> nat, es: seq<Entry>, log: nat, i: nat, e: Entry)
    requires ArrayOk(hash, es, log) && i < |es| && Live(e.key) && !Live(es[i].key)
    requires Reached(hash, es, e.key, i)
    requires Absent(es, e.key)
    ensures ArrayOk(hash, es[i := e], log) && UniqueKeys(es[i := e])
    ensures |LiveSlots(es[i := e])| == |LiveSlots(es)| + 1
    ensures |DeletedSlots(es[i := e])| == |DeletedSlots(es)| - Flag(es[i].key == KEY_DELETED)
    ensures Contents(es[i := e]) == Contents(es)[e.key := e.value] && e.key !in Contents(es)
  {
    MarkersNotLive();
    hide Live, Reached, Contents, LiveSlots, DeletedSlots, AllReached, KEY_FREE, KEY_DELETED;
    AllStillReached(hash, es, i, e);
    ContentsPut(es, i, e);
    SlotCounts(es, i, e);
  }

  lemma ContentsLost(es: seq<Entry>, i: nat, e: Entry)
    requires i < |es| && UniqueKeys(es) && !Live(e.key) && !Live(es[i].key)
    ensures UniqueKeys(es[i := e]) && Contents(es[i := e]) == Contents(es)
  {
    hide Live, Contents;
    var r := es[i := e];
    assert UniqueKeys(r);
    forall k {:trigger k in Contents(r)}
      ensures k in Contents(r) <==> k in Contents(es)
      ensures k in Contents(es) ==> Contents(r)[k] == Contents(es)[k]
    {
      InContents(es, k);
      InContents(r, k);
      assert forall s :: 0 <= s < |es| && s != i ==> r[s] == es[s];
    }
  }

  /** Writing a key that is not live over one that is not live: the number of live slots does not follow. */
  lemma PutLost(es: seq<Entry>, i: nat, e: Entry)
    requires i < |es| && UniqueKeys(es) && !Live(e.key) && !Live(es[i].key)
    ensures var r := es[i := e];
      && UniqueKeys(r) && Contents(r) == Contents(es) && |LiveSlots(r)| == |LiveSlots(es)|
      && |DeletedSlots(es)| >= Flag(es[i].key == KEY_DELETED)
  {
    hide Live, KEY_DELETED, UniqueKeys, Contents;
    ContentsLost(es, i, e);
    SlotCounts(es, i, e);
    Without(DeletedSlots(es), i);
  }

  /** A tombstone leaves the FREE slots as they were, or takes one of them. */
  lemma SlotFreed(es: seq<Entry>, i: nat, e: Entry)
    requires i < |es| && e.key == KEY_DELETED
    ensures es[i].key == KEY_FREE ==> |FreeSlots(es[i := e])| == |FreeSlots(es)| - 1
    ensures es[i].key != KEY_FREE ==> FreeSlots(es[i := e]) == FreeSlots(es)
  {
    MarkersNotLive();
    FreeCount(es, i, e);
    hide KEY_FREE, KEY_DELETED;
  }

  lemma ContentsDelete(es: seq<Entry>, i: nat, e: Entry)
    requires i < |es| && UniqueKeys(es) && UniqueKeys(es[i := e]) && !Live(e.key) && Live(es[i].key)
    ensures Contents(es[i := e]) == Contents(es) - {es[i].key}
  {
    hide Live, Contents;
    var r := es[i := e];
    InContents(es, es[i].key);
    InContents(r, es[i].key);
    InContents(es, e.key);
    InContents(r, e.key);
    assert forall s :: 0 <= s < |es| && s != i ==> r[s] == es[s];
    forall k | k != e.key && k != es[i].key
      ensures k in Contents(r) <==> k in Contents(es)
      ensures k in Contents(es) ==> Contents(r)[k] == Contents(es)[k]
    {
      ContentsElsewhere(es, i, e, k);
    }
  }

  /** Turning a live slot into a tombstone. */
  lemma DeleteOk(hash: seq<nat> -> nat, es: seq<Entry>, log: nat, i: nat, e: Entry)
    requires ArrayOk(hash, es, log) && i < |es| && Live(es[i].key) && e.key == KEY_DELETED
    ensures ArrayOk(hash, es[i := e], log) && UniqueKeys(es[i := e])
    ensures |LiveSlots(es[i := e])| == |LiveSlots(es)| - 1
    ensures |DeletedSlots(es[i := e])| == |DeletedSlots(es)| + 1
    ensures Contents(es[i := e]) == Contents(es) - {es[i].key}
  {
    MarkersNotLive();
    hide Live, Reached, Contents, LiveSlots, DeletedSlots, AllReached, KEY_FREE, KEY_DELETED;
    AllStillReached(hash, es, i, e);
    ContentsDelete(es, i, e);
    SlotCounts(es, i, e);
  }

  // ---- the table -----------------------------------------------------------

  class Table {
    const hash: seq<nat> -> nat
    var entries: array<Entry>
    var numOccupied: int
    var numDeleted: nat
    ghost var log: nat

    ghost predicate Valid()
      reads this, entries
    {
      && ArrayOk(hash, entries[..], log)
      && numOccupied == |LiveSlots(entries[..])|
      && numDeleted == |DeletedSlots(entries[..])|
      && 2 * (numOccupied + numDeleted) <= entries.Length
    }

    ghost function Model(): map<Key, Value>
      requires Valid()
      reads this, entries
    {
      Contents(entries[..])
    }

    constructor (hash: seq<nat> -> nat)
      ensures Valid() && fresh(entries) && this.hash == hash && Model() == map[]
      ensures entries.Length == 1 && entries[0].key == KEY_FREE
    {
      this.hash := hash;
      var es := new Entry[1](_ => Entry(KEY_FREE, Value(0, 0)));
      entries := es;
      numOccupied, numDeleted, log := 0, 0, 0;
      new;
      AllFree(hash, entries[..], 0);
    }

    /**
     l2table_find_internal__: the lookup case stops at the key or at FREE; the
     insertion case remembers the first unoccupied slot on the way.
     */
    method FindInternal(mac: seq<nat>, vlan: nat, findUnoccupied: bool) returns (r: Option<nat>)
      requires Valid() && IsMac(mac) && vlan < 0x1_0000
      ensures var k := Encode(mac, vlan);
        if findUnoccupied then VacancyFor(hash, entries[..], k, r) else LocatedAt(entries[..], k, r)
    {
      EncodeDecode(mac, vlan, KEY_FREE);
      MarkersNotLive();
      hide Live, KEY_FREE, KEY_DELETED, UniqueKeys, AllReached, Reached, LiveSlots, DeletedSlots;
      hide ArrayOk, SlotsOk, Encode, IsKey, Bytes, Passed, HashOf, Absent, Missing;
      var key := Encode(mac, vlan);
      var h := HashOf(hash, key);
      var stepSize, stepNum := 0, 0;
      ghost var es := entries[..];
      ArrayIs(hash, es, log);
      ghost var free := FreeIsMet(hash, es, log, key);
      var found: Option<nat> := None;
      FreeNotPassed(hash, es, key, free);
      NonePassed(hash, es, key);
      while true
        invariant stepNum <= free && stepSize == Triangle(stepNum)
        invariant Passed(hash, es, key, stepNum)
        invariant found.Some? ==>
          found.value < |es| && !Live(es[found.value].key) && Reached(hash, es, key, found.value)
        decreases free - stepNum
      {
        var idx := (h + stepSize) % entries.Length;
        assert idx == Step(hash, |es|, key, stepNum);
        var e := entries[idx];
        assert e == es[idx];
        Arrives(hash, es, key, stepNum);
        SlotIsKey(es, idx);
        if !findUnoccupied {
          if e.key == key {
            return Some(idx);
          } else if e.key == KEY_FREE {
            NotSeenNotThere(hash, es, log, key, stepNum);
            return None;
          }
        } else {
          if e.key == key {
            NotAbsent(es, key, idx);
            return None;
          } else if Unoccupied(e.key) {
            if found.None? {
              found := Some(idx);
            }
            if e.key == KEY_FREE {
              NotSeenNotThere(hash, es, log, key, stepNum);
              return found;
            }
          }
        }
        PassedNext(hash, es, key, stepNum);
        stepNum := stepNum + 1;
        stepSize := stepSize + stepNum;
      }
    }

    method Lookup(mac: seq<nat>, vlan: nat) returns (status: Status, value: Value)
      requires Valid() && IsMac(mac) && vlan < 0x1_0000
      ensures var k := Encode(mac, vlan);
        if k in Model() then status == Ok && value == Model()[k] else status == NotFound || (status == Ok && IsMarker(k))
      ensures Encode(mac, vlan) == KEY_FREE ==> status == Ok
    {
      ArrayIs(hash, entries[..], log);
      KeyOrMarker(entries[..], Encode(mac, vlan));
      hide ArrayOk, Contents, Live, KEY_FREE, KEY_DELETED;
      var e := FindInternal(mac, vlan, false);
      if e.None? {
        return NotFound, Value(0, 0);
      }
      return Ok, entries[e.value].value;
    }

    method Insert(mac: seq<nat>, vlan: nat, value: Value) returns (status: Status)
      requires Valid() && IsMac(mac) && vlan < 0x1_0000
      modifies this, entries
      ensures entries == old(entries) || fresh(entries)
      ensures Valid() <==> vlan < 0x8000 || status == Param
      ensures UniqueKeys(entries[..]) && var k, now := Encode(mac, vlan), Contents(entries[..]);
        if vlan >= 0x8000 then now == old(Model())
        else if k in old(Model()) then status == Param && now == old(Model())
        else status == Ok && now == old(Model())[k := value]
      ensures !IsMarker(Encode(mac, vlan)) && vlan >= 0x8000 ==> status == Ok
      ensures 2 * (old(numOccupied) + old(numDeleted) + 1) <= old(entries.Length) ==>
        entries == old(entries) && numDeleted <= old(numDeleted)
        && numOccupied + numDeleted <= old(numOccupied) + old(numDeleted) + 1
        && (status == Ok ==> numOccupied == old(numOccupied) + 1)
      decreases if 2 * (numOccupied + numDeleted + 1) > entries.Length then 2 else 0
    {
      hide ArrayOk, Contents, Live, Absent, Reached, LiveSlots, DeletedSlots, Encode, UniqueKeys, SlotsOk;
      hide KEY_FREE, KEY_DELETED;
      if 2 * (numOccupied + numDeleted + 1) > entries.Length {
        Resize();
      }
      var key := Encode(mac, vlan);
      OccupiedIffVlanFits(mac, vlan);
      ArrayIs(hash, entries[..], log);
      KeyOrMarker(entries[..], key);
      var e := FindInternal(mac, vlan, true);
      if e.None? {
        return Param;
      }
      var i := e.value;
      if Live(key) {
        PutOk(hash, entries[..], log, i, Entry(key, value));
      } else {
        PutLost(entries[..], i, Entry(key, value));
      }
      if entries[i].key == KEY_DELETED {
        numDeleted := numDeleted - 1;
      }
      numOccupied := numOccupied + 1;
      entries[i] := Entry(key, value);
      return Ok;
    }

    method Remove(mac: seq<nat>, vlan: nat) returns (status: Status)
      requires Valid() && IsMac(mac) && vlan < 0x1_0000
      modifies this, entries
      ensures entries == old(entries)
      ensures Valid() <==> vlan < 0x8000 || status == NotFound
      ensures UniqueKeys(entries[..]) && var k, now := Encode(mac, vlan), Contents(entries[..]);
        if k in old(Model()) then status == Ok && now == old(Model()) - {k}
        else now == old(Model()) && (status == NotFound || IsMarker(k))
      ensures Encode(mac, vlan) == KEY_FREE ==> status == Ok && |FreeSlots(entries[..])| == old(|FreeSlots(entries[..])|) - 1
      ensures Encode(mac, vlan) != KEY_FREE ==> FreeSlots(entries[..]) == old(FreeSlots(entries[..]))
    {
      hide ArrayOk, Contents, Live, Absent, LiveSlots, DeletedSlots, FreeSlots, Encode, UniqueKeys, SlotsOk;
      hide KEY_FREE, KEY_DELETED;
      var key := Encode(mac, vlan);
      OccupiedIffVlanFits(mac, vlan);
      ArrayIs(hash, entries[..], log);
      KeyOrMarker(entries[..], key);
      var e := FindInternal(mac, vlan, false);
      if e.None? {
        return NotFound;
      }
      var i := e.value;
      var tombstone := entries[i].(key := KEY_DELETED);
      SlotFreed(entries[..], i, tombstone);
      if Live(key) {
        DeleteOk(hash, entries[..], log, i, tombstone);
      } else {
        MarkersNotLive();
        PutLost(entries[..], i, tombstone);
      }
      numDeleted := numDeleted + 1;
      numOccupied := numOccupied - 1;
      entries[i] := tombstone;
      return Ok;
    }

    /** l2table_resize__: reinsert every live entry into a table twice the size. */
    method Resize()
      requires Valid() && 2 * (numOccupied + numDeleted + 1) > entries.Length
      modifies this
      ensures Valid() && fresh(entries) && Model() == old(Model())
      ensures 2 * (numOccupied + numDeleted + 1) <= entries.Length
      decreases 1
    {
      hide Live, KEY_FREE, KEY_DELETED, ArrayOk, Contents, LiveSlots, DeletedSlots, UniqueKeys;
      var size := entries.Length;
      var oldEntries := entries;
      ghost var es := entries[..];
      ArrayIs(hash, es, log);
      var newEntries := new Entry[2 * size](_ => Entry(KEY_FREE, Value(0, 0)));
      entries, numOccupied, numDeleted, log := newEntries, 0, 0, log + 1;
      AllFree(hash, entries[..], log);
      NothingYet(es);
      for i := 0 to size
        invariant entries == newEntries && oldEntries[..] == es
        invariant Valid() && numDeleted == 0 && numOccupied == |LiveSlots(es[..i])|
        invariant UniqueKeys(es[..i]) && Model() == Contents(es[..i])
      {
        var e := oldEntries[i];
        PrefixStep(es, i);
        SlotIsKey(es, i);
        if !Unoccupied(e.key) {
          var (mac, vlan) := Decode(e.key);
          DecodedFits(e.key);
          var status := Insert(mac, vlan, e.value);
          assert status == Ok;
        }
      }
      assert es[..size] == es;
    }
  }

  /** A new table, and one removal of the key that is the marker: after it no lookup ends. */
  method RemoveStopsLookups(hash: seq<nat> -> nat) returns (t: Table)
    ensures fresh(t) && t.hash == hash && t.entries.Length == 1 && !t.Valid()
    ensures forall k :: Live(k) ==> Endless(hash, t.entries[..], k)
  {
    hide Endless, KEY_FREE, KEY_DELETED, ArrayOk, Contents, FreeSlots;
    VlanCollidesWithFree();
    t := new Table(hash);
    OneFree(t.entries[..]);
    var status := t.Remove([0, 0, 0, 0, 0, 0], 0x8000);
    forall k | Live(k) ensures Endless(hash, t.entries[..], k) {
      NoneLive(t.entries[..], k);
      EndlessExactly(hash, t.entries[..], 0, k);
    }
  }

  lemma OneFree(es: seq<Entry>)
    requires |es| == 1 && es[0].key == KEY_FREE
    ensures |FreeSlots(es)| == 1 && Pow2(0) == 1
  {
    hide KEY_FREE;
    assert FreeSlots(es) == {0};
  }

  lemma NoneLive(es: seq<Entry>, k: Key)
    requires UniqueKeys(es) && Contents(es) == map[] && Live(k)
    ensures Absent(es, k)
  {
    hide Live;
    InContents(es, k);
  }

  predicate IsMarker(k: Key) {
    k == KEY_FREE || k == KEY_DELETED
  }

  lemma ArrayIs(hash: seq<nat> -> nat, es: seq<Entry>, log: nat)
    requires ArrayOk(hash, es, log)
    ensures |es| == Pow2(log) && 2 * |es| == Pow2(log + 1) && SlotsOk(es) && UniqueKeys(es)
  {
  }

  lemma NothingYet(es: seq<Entry>)
    ensures UniqueKeys(es[..0]) && Contents(es[..0]) == map[] && LiveSlots(es[..0]) == {}
  {
  }

  lemma DecodedFits(k: Key)
    requires Live(k)
    ensures var (mac, vlan) := Decode(k); IsMac(mac) && vlan < 0x8000 && Encode(mac, vlan) == k
  {
    EncodeDecode(k[..6], 0, k);
  }

  lemma PrefixUnique(es: seq<Entry>, i: nat)
    requires i <= |es| && UniqueKeys(es)
    ensures UniqueKeys(es[..i])
  {
    hide Live;
  }

  /** One more slot of the old array: at most one more key, never one already there. */
  lemma PrefixStep(es: seq<Entry>, i: nat)
    requires i < |es| && UniqueKeys(es)
    ensures UniqueKeys(es[..i]) && UniqueKeys(es[..i + 1])
    ensures |LiveSlots(es[..i + 1])| == |LiveSlots(es[..i])| + Flag(Live(es[i].key)) <= |LiveSlots(es)|
    ensures Live(es[i].key) ==> es[i].key !in Contents(es[..i])
    ensures Contents(es[..i + 1]) ==
            if Live(es[i].key) then Contents(es[..i])[es[i].key := es[i].value] else Contents(es[..i])
  {
    hide Live, Contents, LiveSlots;
    PrefixCount(es, i);
    PrefixUnique(es, i);
    PrefixUnique(es, i + 1);
    InContents(es[..i], es[i].key);
    forall k ensures k in Contents(es[..i + 1]) <==> k in Contents(es[..i]) || (Live(es[i].key) && k == es[i].key) {
      PrefixKey(es, i, k);
    }
    forall k | k in Contents(es[..i]) ensures Contents(es[..i + 1])[k] == Contents(es[..i])[k] {
      PrefixKey(es, i, k);
    }
    InContents(es[..i + 1], es[i].key);
    assert es[..i + 1][i] == es[i];
  }

  lemma PrefixCount(es: seq<Entry>, i: nat)
    requires i < |es|
    ensures |LiveSlots(es[..i + 1])| == |LiveSlots(es[..i])| + Flag(Live(es[i].key)) <= |LiveSlots(es)|
  {
    hide Live;
    var next := LiveSlots(es[..i + 1]);
    assert next - {i} == LiveSlots(es[..i]);
    Without(next, i);
    SubsetSize(next, LiveSlots(es));
  }

  lemma PrefixKey(es: seq<Entry>, i: nat, k: Key)
    requires i < |es| && UniqueKeys(es[..i]) && UniqueKeys(es[..i + 1])
    ensures k in Contents(es[..i + 1]) <==> k in Contents(es[..i]) || (Live(es[i].key) && k == es[i].key)
    ensures k in Contents(es[..i]) ==> Contents(es[..i + 1])[k] == Contents(es[..i])[k]
  {
    hide Live, Contents, UniqueKeys;
    var a, b := es[..i], es[..i + 1];
    InContents(a, k);
    InContents(b, k);
    assert b == a + [es[i]];
    if k in Contents(a) {
      var s :| 0 <= s < |a| && Live(a[s].key) && a[s].key == k;
      assert b[s] == a[s];
    }
    assert b[i] == es[i];
  }

  lemma AllFree(hash: seq<nat> -> nat, es: seq<Entry>, log: nat)
    requires |es| == Pow2(log) && forall s :: 0 <= s < |es| ==> es[s].key == KEY_FREE
    ensures ArrayOk(hash, es, log) && LiveSlots(es) == {} && DeletedSlots(es) == {} && Contents(es) == map[]
  {
  }
}
