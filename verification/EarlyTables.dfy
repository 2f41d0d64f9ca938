/**
 Flow tables of OpenFlow 1.0 can match on ports without a protocol, and then megaflows
 go wrong: the theorem, and tables and a packet that show it.
 */
module EarlyTables {
  import opened Cells
  import opened SoftTcam
  import opened Keys
  import opened Actions
  import opened Cfr
  import opened CfrSoundness
  import opened Pipeline
  import opened MegaflowExactness
  import opened Decision
  import opened FlowMatch
  import opened FlowTables
  import Tcam

  lemma {:induction false} OrMasksEmptyCell(shards: seq<Shard>, m: Cells, i: nat)
    requires Shaped(|m|, shards) && i < |m| && m[i] == {} && forall s :: 0 <= s < |shards| ==> shards[s].mask[i] == {}
    ensures OrMasks(shards, m)[i] == {}
  {
    if shards != [] {
      OrMasksEmptyCell(shards[..|shards| - 1], m, i);
    }
  }

  /** Some entry looks at ports, none at the protocol. */
  ghost predicate Unscoped(t: Table)
    reads t
  {
    && (exists x :: x in t.entries && |t.entries[x].mask| == CFR_CELLS && LooksAtPorts(t.entries[x].mask))
    && Ignores(t, F_NW_PROTO)
  }

  /** No entry looks at a cell. */
  ghost predicate Ignores(t: Table, i: nat)
    reads t
  {
    forall x :: x in t.entries ==> |t.entries[x].mask| == CFR_CELLS && i < CFR_CELLS && t.entries[x].mask[i] == {}
  }

  lemma IgnoredMask(t: Table, c: Config, i: nat)
    requires t.Valid() && Ignores(t, i) && ConfigOk(c) && c.tables[0] == t.Snapshot() && c.mm == t.tcam.mm && i < CFR_CELLS
    ensures TableMask(c, 0, Zeroes(CFR_CELLS))[i] == {}
  {
    var shards := t.tcam.shards;
    LayoutShaped(c.mm, CFR_CELLS, shards);
    hide InShard, Stored, OrMasks;
    forall s | 0 <= s < |shards| ensures shards[s].mask[i] == {} {
      IgnoredShard(t, s, i);
    }
    OrMasksEmptyCell(shards, Zeroes(CFR_CELLS), i);
  }

  lemma PortsMask(t: Table, c: Config)
    requires t.Valid() && Unscoped(t) && ConfigOk(c) && c.tables[0] == t.Snapshot() && c.mm == t.tcam.mm
    ensures LooksAtPorts(TableMask(c, 0, Zeroes(CFR_CELLS)))
  {
    var shards := t.tcam.shards;
    var z := Zeroes(CFR_CELLS);
    LayoutShaped(c.mm, CFR_CELLS, shards);
    OrMasksAbove(shards, z);
    var x :| x in t.entries && |t.entries[x].mask| == CFR_CELLS && LooksAtPorts(t.entries[x].mask);
    var e := t.entries[x];
    assert Stored(shards, e);
    var s :| 0 <= s < |shards| && InShard(shards[s], e);
    hide InShard, Stored, OrMasks, LooksAtPorts;
    MorePorts(e.mask, OrMasks(shards, z));
  }

  lemma IgnoredShard(t: Table, s: nat, i: nat)
    requires t.Valid() && Ignores(t, i) && s < |t.tcam.shards| && |t.tcam.shards[s].mask| == CFR_CELLS && i < CFR_CELLS
    ensures t.tcam.shards[s].mask[i] == {}
  {
    var shard := t.tcam.shards[s];
    assert ShardOk(t.tcam.mm, CFR_CELLS, shard) && Tcam.LoadOk(shard);
    var e := ShardInhabited(t.tcam.mm, CFR_CELLS, shard);
    assert Stored(t.tcam.shards, e);
  }

  lemma MorePorts(m: Cells, n: Cells)
    requires |m| == CFR_CELLS && Below(m, n) && LooksAtPorts(m)
    ensures LooksAtPorts(n)
  {
    assert PortBits(m) <= PortBits(n);
  }

  lemma NothingMatches(t: Table, c: Config, cfr: Cells)
    requires t.Valid() && ConfigOk(c) && c.tables[0] == t.Snapshot() && c.mm == t.tcam.mm && |cfr| == CFR_CELLS
    requires forall x :: x in t.entries ==> !Matches(t.entries[x], cfr)
    ensures Lookup(c, 0, cfr).None?
  {
    var shards := t.tcam.shards;
    LayoutShaped(c.mm, CFR_CELLS, shards);
    ScanIsBestMatch(c.mm, CFR_CELLS, shards, cfr);
    hide Scan, Stored, Matches;
  }

  /**
   A packet with a network but no transport header that such a table misses is decided
   wrongly for its megaflow; in ARP the sender's address shares the cells of the ports.
   */
  lemma UnscopedTableIsWrong(t: Table, c: Config, ib: Inband, k: Key)
    requires t.Valid() && Unscoped(t) && ConfigOk(c) && c.tables[0] == t.Snapshot() && c.mm == t.tcam.mm
    requires WellFormed(k) && Sized(k.cells) && NetworkPopulated(k.populated) && !L4Populated(k.populated)
    requires ARP in k.populated ==> forall i :: F_NW_SRC <= i < F_NW_DST ==> Ignores(t, i)
    requires RouteOf(ib, k).Tables? && forall x :: x in t.entries ==> !Matches(t.entries[x], KeyToCfr(k))
    ensures !Settled(c, ib, k) && !DecisionRight(c, ib, k)
  {
    PortsMask(t, c);
    IgnoredMask(t, c, F_NW_PROTO);
    NothingMatches(t, c, KeyToCfr(k));
    hide ConfigOk, WellFormed, RouteOf, Settled, DecisionRight, KeyToCfr, LooksAtPorts, TableMask, Table.Valid, Unscoped, Ignores;
    var cm := TableMask(c, 0, Zeroes(CFR_CELLS));
    if ARP in k.populated {
      forall i | F_NW_SRC <= i < F_NW_DST ensures cm[i] == {} {
        IgnoredMask(t, c, i);
      }
    }
    PortsShowPlainly(k.populated, cm);
    MissRightExactly(c, ib, k);
  }

  // ---- an instance ---------------------------------------------------------------

  /** tp_dst=1, whatever the protocol. */
  const PORT_ONE :=
    Match(V10, NO_FIELDS.(tcp := NO_PORTS.(dstLo := {0})), NO_FIELDS.(tcp := NO_PORTS.(dstHi := Ones(8), dstLo := Ones(8))))

  /** OVS_FRAG_TYPE_LATER */
  const FRAG_LATER: Bits := {1}

  /** A fragment of a TCP segment after the first: the kernel reports the protocol and no ports. */
  function Fragment(): Key {
    Key({ETHERNET, ETHERTYPE, IPV4},
        Zeroes(CELLS)[C_ETHERTYPE := ETH_P_IP][C_IP4_PROTO := IPPROTO_TCP][C_IP4_FRAG := FRAG_LATER])
  }

  lemma FragmentWidths()
    ensures InWidth(Fragment().cells)
  {
    assert ETH_P_IP <= Ones(Width(C_ETHERTYPE)) && IPPROTO_TCP <= Ones(Width(C_IP4_PROTO)) && FRAG_LATER <= Ones(Width(C_IP4_FRAG));
    hide Ones, Width, ETH_P_IP, IPPROTO_TCP;
  }

  lemma FragmentOk()
    ensures WellFormed(Fragment()) && IPV4 in Fragment().populated && ARP !in Fragment().populated
    ensures !L4Populated(Fragment().populated)
  {
    TypesDiffer();
    FragmentWidths();
    var k := Fragment();
    assert 11 in k.cells[C_ETHERTYPE] * {11, 12, 13, 14, 15};
    assert !IsLength(k.cells[C_ETHERTYPE]) && DlType(k) == ETH_P_IP;
    hide DlType, NwProto, ETH_P_IP, ETH_P_IPV6, ETH_P_ARP, InWidth;
  }

  lemma PortOneMask()
    ensures MaskOf(PORT_ONE)[F_TP_DST + 1] == Ones(8) && MaskOf(PORT_ONE)[F_NW_PROTO] == {} && LooksAtPorts(MaskOf(PORT_ONE))
    ensures KeyOf(PORT_ONE)[F_TP_DST + 1] == {0}
  {
    assert 0 in PortBits(MaskOf(PORT_ONE));
  }

  lemma FragmentMisses()
    ensures Sized(Fragment().cells)
    ensures !Agree(KeyToCfr(Fragment()), Normal(KeyOf(PORT_ONE), MaskOf(PORT_ONE)), MaskOf(PORT_ONE))
  {
    PortOneMask();
    hide MaskOf, KeyOf, DlType, NwProto, PORT_ONE, L2Cells, L3Cells, Ipv6Cells;
    var i := F_TP_DST + 1;
    assert KeyToCfr(Fragment())[i] == L4Cells(Fragment())[3] == {};
    assert Normal(KeyOf(PORT_ONE), MaskOf(PORT_ONE))[i] == {0} * Ones(8);
    assert 0 in {0} * Ones(8) * Ones(8);
    assert !CellAgree(KeyToCfr(Fragment())[i], Normal(KeyOf(PORT_ONE), MaskOf(PORT_ONE))[i], MaskOf(PORT_ONE)[i]);
  }

  /** One flow is enough. */
  method PortOneTable(mm: Murmur) returns (t: Table)
    ensures t.Valid() && t.id == 0 && t.tcam.mm == mm && Unscoped(t)
    ensures Sized(Fragment().cells) && forall x :: x in t.entries ==> !Matches(t.entries[x], KeyToCfr(Fragment()))
  {
    hide MaskOf, KeyOf, KeyToCfr, LooksAtPorts, Table.Valid, Normal, Agree, Fragment;
    PortOneMask();
    FragmentMisses();
    t := new Table(0, V10, mm, 0, 1);
    var ok := t.Create(7, PORT_ONE, 100, [Output({0})], None, 2);
    assert 7 in t.entries && t.entries.Keys == {7};
  }

  /** Sixteen tables, fifteen of them empty, and a packet whose megaflow is wrong. */
  method PortOneConfig(mm: Murmur, hash: Cells -> nat, ib: Inband) returns (tables: seq<Table>, ghost c: Config)
    requires ib.vlan.None?
    ensures |tables| == NUM_TABLES && ConfigOk(c) && |c.tables| == NUM_TABLES
    ensures forall t :: 0 <= t < NUM_TABLES ==> tables[t].Valid() && c.tables[t] == tables[t].Snapshot()
    ensures Sized(Fragment().cells) && WellFormed(Fragment()) && !DecisionRight(c, ib, Fragment())
  {
    hide Table.Valid, KeyToCfr, Unscoped, WellFormed, ConfigOk, DecisionRight, Matches, Fragment;
    var first := PortOneTable(mm);
    tables := [first];
    ghost var shots := [first.Snapshot()];
    while |tables| < NUM_TABLES
      invariant 1 <= |tables| == |shots| <= NUM_TABLES && tables[0] == first && Unscoped(first)
      invariant forall x :: x in first.entries ==> !Matches(first.entries[x], KeyToCfr(Fragment()))
      invariant forall t :: 0 <= t < |tables| ==>
                  tables[t].Valid() && tables[t].id == t && tables[t].tcam.mm == mm && shots[t] == tables[t].Snapshot()
    {
      var t := new Table(|tables|, V10, mm, 0, 1);
      tables, shots := tables + [t], shots + [t.Snapshot()];
    }
    c := Config(mm, false, shots, 0, hash);
    TablesMakeConfig(tables, c);
    FragmentOk();
    InTables(ib, Fragment());
    UnscopedTableIsWrong(first, c, ib, Fragment());
  }

  lemma InTables(ib: Inband, k: Key)
    requires ib.vlan.None? && Sized(k.cells)
    ensures RouteOf(ib, k).Tables?
  {
  }
}
