/**
 What the switch is for, said of packets: sixteen tables, the best matching entry of each,
 its actions applied to the packet one by one, and goto; around them the in-band
 management shortcut.  The kernel, running the actions of a decision, does just that.
 */
module TableMeaning {
  import opened Cells
  import opened Keys
  import opened Actions
  import opened ActionRefinement
  import opened SoftTcam
  import opened Cfr
  import opened FieldWrites
  import opened Pipeline
  import opened PipelineSoundness
  import opened MegaflowExactness
  import opened TtlRuns
  import opened Decision

  // ---- the reference ---------------------------------------------------------------

  ghost predicate Accepts(table: FlowTable, e: Entry, fields: Cells) {
    Stored(table.shards, e) && Agree(fields, e.key, e.mask)
  }

  /** An entry that matches, and no matching entry has a higher priority. */
  ghost predicate Wins(table: FlowTable, e: Entry, fields: Cells) {
    Accepts(table, e, fields) && forall x :: Accepts(table, x, fields) ==> x.priority <= e.priority
  }

  /** No entry matches: before version 1.3 the controller gets the packet, with reason 0. */
  function Unmatched(c: Config, table: FlowTable, t: Trip): Trip {
    Trip(if c.version13 then t.wire else Send(t.wire, Upcall(c.pktinPid, 0)), t.handles + [table.missed])
  }

  /** The entry's statistics, the table's and then its actions. */
  function Matched(table: FlowTable, flow: Flow, t: Trip, env: Env): (r: Trip)
    requires PacketOk(t.wire.packet)
    ensures PacketOk(r.wire.packet)
  {
    var counter := if flow.tableMiss then table.missed else table.matched;
    Eager(t.(handles := t.handles + [counter] + [flow.handle]), flow.actions, env)
  }

  /** From table n on, with these fields, the packet may end its trip so. */
  ghost predicate Journey(c: Config, n: nat, fields: Cells, t: Trip, env: Env, end: Trip)
    requires |c.tables| == 16 && n < 16 && PacketOk(t.wire.packet)
    decreases 16 - n
  {
    var table := c.tables[n];
    || ((forall e :: !Accepts(table, e, fields)) && end == Unmatched(c, table, t))
    || exists e: Entry ::
         && Wins(table, e, fields) && e.id in table.flows
         && Onward(c, n, fields, table.flows[e.id], Matched(table, table.flows[e.id], t, env), env, end)
  }

  /** After an entry: the end, or a later table with the fields the actions left. */
  ghost predicate Onward(c: Config, n: nat, fields: Cells, flow: Flow, t: Trip, env: Env, end: Trip)
    requires |c.tables| == 16 && n < 16 && PacketOk(t.wire.packet)
    decreases 16 - n, 0
  {
    match flow.next
    case None => end == t
    case Some(m) =>
      n < m < 16 && exists after :: Rewritten(fields, flow.actions, after) && Journey(c, m, after, t, env, end)
  }

  /** The group hash is taken over the Ethernet addresses. */
  function HashOf(c: Config, p: Packet): Env
    requires PacketOk(p)
  {
    Env(c.hash([p.cells[C_ETH_SRC], p.cells[C_ETH_DST]]), c.pktinPid)
  }

  /** A packet from an uplink on the in-band VLAN. */
  predicate InFromUplink(ib: Inband, p: Packet)
    requires PacketOk(p)
  {
    ib.vlan.Some? && ib.isUplink(p.cells[C_IN_PORT]) && IdOf(Outer(p)) == ib.vlan.value
  }

  /** A packet from the internal port, 1000. */
  predicate OutToUplink(ib: Inband, p: Packet)
    requires PacketOk(p)
  {
    ib.vlan.Some? && !ib.isUplink(p.cells[C_IN_PORT]) && p.cells[C_IN_PORT] == {3, 5, 6, 7, 8, 9}
  }

  /** The packet with the in-band VLAN's tag and the queue of in-band traffic. */
  function Tagged(ib: Inband, p: Packet): Packet
    requires PacketOk(p) && ib.vlan.Some?
  {
    var q := p.(tags := [Tag(ib.vlan.value, PriorityOf(Outer(p)))]);
    if ib.queue.Some? then q.(cells := q.cells[C_PRIORITY := ib.queue.value]) else q
  }

  /** What a decision makes the kernel do with the packet, and what it charges. */
  ghost predicate Means(c: Config, ib: Inband, p: Packet, v: Verdict)
    requires |c.tables| == 16 && PacketOk(p)
  {
    var sent := ExecuteAll(p, v.actions).sent;
    && v.populated == KeyOf(p).populated + {ETHERTYPE}
    && if InFromUplink(ib, p) then
         sent == [Sent(Port({3, 5, 6, 7, 8, 9}), p.(tags := []))] && v.stats == []
       else if OutToUplink(ib, p) then
         sent == (if ib.uplink.None? then [] else [Sent(Port(ib.uplink.value), Tagged(ib, p))]) && v.stats == []
       else exists end ::
         && Journey(c, 0, KeyToCfr(KeyOf(p)), Trip(Wire(p, []), []), HashOf(c, p), end)
         && sent == end.wire.sent && v.stats == end.handles
  }

  // ---- the tables -------------------------------------------------------------------

  /** The lookup finds a winner, or there is nothing to find. */
  lemma LookupWins(c: Config, n: nat, fields: Cells) returns (e: Option<Entry>)
    requires ConfigOk(c) && n < NUM_TABLES && |fields| == CFR_CELLS
    ensures |c.tables| == 16
    ensures var table, found := c.tables[n], Lookup(c, n, fields);
      if e.None? then found.None? && forall x :: !Accepts(table, x, fields)
      else Wins(table, e.value, fields) && e.value.id in table.flows && found == Some(table.flows[e.value.id])
  {
    var table := c.tables[n];
    assert TableOk(c.mm, n, table);
    LayoutShaped(c.mm, CFR_CELLS, table.shards);
    ScanIsBestMatch(c.mm, CFR_CELLS, table.shards, fields);
    e := Scan(c.mm, table.shards, fields);
    hide Scan, Stored, Agree;
  }

  lemma MissMeans(p0: Packet, c: Config, table: FlowTable, r: Run, t: Trip)
    requires OnTrip(p0, r, t)
    ensures Fits(r.ctx) && OnTrip(p0, Miss(c, table, r), Unmatched(c, table, t))
  {
    StepOk(p0, r.ctx, t.wire);
    hide InStep, Userspace;
    if !c.version13 {
      ApplyStep(p0, r.ctx, t.wire, Controller(0), c.pktinPid);
    }
  }

  lemma HitMeans(p0: Packet, table: FlowTable, flow: Flow, r: Run, t: Trip, env: Env)
    requires OnTrip(p0, r, t)
    ensures Fits(r.ctx) && PacketOk(t.wire.packet) && OnTrip(p0, Hit(table, flow, r, env), Matched(table, flow, t, env))
  {
    StepOk(p0, r.ctx, t.wire);
    hide InStep, Translate, Eager;
    var counter := if flow.tableMiss then table.missed else table.matched;
    assert r.stats + [counter, flow.handle] == r.stats + [counter] + [flow.handle];
    TranslateStep(p0, AddStats(r, [counter, flow.handle]), t.(handles := t.handles + [counter] + [flow.handle]), flow.actions, env);
  }

  lemma TripOk(p0: Packet, r: Run, t: Trip)
    requires OnTrip(p0, r, t)
    ensures Fits(r.ctx) && PacketOk(t.wire.packet)
  {
    StepOk(p0, r.ctx, t.wire);
  }

  /** The walk over the tables, in step with the packet's trip. */
  lemma {:induction false} WalkMeans(p0: Packet, c: Config, n: nat, w: Walk, t: Trip, env: Env) returns (end: Trip)
    requires ConfigOk(c) && n < NUM_TABLES && WalkFits(w) && OnTrip(p0, w.run, t)
    ensures |c.tables| == 16 && PacketOk(t.wire.packet) && Journey(c, n, w.cfr, t, env, end)
    ensures OnTrip(p0, WalkFrom(c, n, w, env).run, end)
    decreases NUM_TABLES - n
  {
    assert |c.tables| == NUM_TABLES;
    TripOk(p0, w.run, t);
    hide ConfigOk, Lookup, TableMask, Miss, Hit, UpdateCfr, OnTrip, Matched, Unmatched, Rewritten, Accepts, Wins, PacketOk, Onward;
    var e := LookupWins(c, n, w.cfr);
    var table := c.tables[n];
    if e.None? {
      end := Unmatched(c, table, t);
      MissMeans(p0, c, table, w.run, t);
    } else {
      var flow, m := table.flows[e.value.id], TableMask(c, n, w.cfrMask);
      var after := Matched(table, flow, t, env);
      HitMeans(p0, table, flow, w.run, t, env);
      if flow.next.None? {
        end := after;
        Arrives(c, n, w.cfr, flow, after, env);
      } else {
        var next := After(c, n, w, m, flow, env);
        UpdateRewrites(w.cfr, flow.actions);
        end := WalkMeans(p0, c, flow.next.value, next, after, env);
        GoesOn(c, n, w.cfr, flow, next.cfr, after, env, end);
      }
    }
  }

  lemma Arrives(c: Config, n: nat, fields: Cells, flow: Flow, t: Trip, env: Env)
    requires |c.tables| == 16 && n < 16 && PacketOk(t.wire.packet) && flow.next.None?
    ensures Onward(c, n, fields, flow, t, env, t)
  {
  }

  lemma GoesOn(c: Config, n: nat, fields: Cells, flow: Flow, after: Cells, t: Trip, env: Env, end: Trip)
    requires |c.tables| == 16 && n < 16 && PacketOk(t.wire.packet) && flow.next.Some? && n < flow.next.value < 16
    requires Rewritten(fields, flow.actions, after) && Journey(c, flow.next.value, after, t, env, end)
    ensures Onward(c, n, fields, flow, t, env, end)
  {
    hide Rewritten, Journey;
  }

  // ---- the whole decision -------------------------------------------------------------

  lemma RouteIs(ib: Inband, p: Packet)
    requires PacketOk(p)
    ensures RouteOf(ib, KeyOf(p)).Tables? <==> !InFromUplink(ib, p) && !OutToUplink(ib, p)
  {
    assert KeyOf(p).cells[C_VLAN] == Outer(p) && KeyOf(p).cells[C_IN_PORT] == p.cells[C_IN_PORT];
    assert IdOf(Outer(p)) == Outer(p) * VID;
    hide FromUplink, ToUplink, WithOnes, VID, IdOf;
  }

  /** An output sends the packet as it is by now. */
  lemma SendMeans(p0: Packet, x: Context, e: Wire, port: Bits)
    requires InStep(p0, x, e)
    ensures Sized(p0.cells) && Fits(x) && ExecuteAll(p0, OutputTo(x, port).msg).sent == e.sent + [Sent(Port(port), e.packet)]
  {
    StepOk(p0, x, e);
    hide InStep, OutputTo, ExecuteAll;
    ApplyStep(p0, x, e, Output(port), 0);
    SentSame(p0, OutputTo(x, port), Send(e, Port(port)));
  }

  lemma SetMeans(p0: Packet, x: Context, e: Wire, f: Field)
    requires InStep(p0, x, e)
    ensures Fits(x) && PacketOk(e.packet) && InStep(p0, SetField(x, f), Wire(Change(e.packet, f), e.sent))
  {
    StepOk(p0, x, e);
    hide InStep, SetField, Change;
    SetStep(p0, x, e, f);
  }

  lemma PopMeans(p: Packet)
    requires PacketOk(p) && |p.tags| <= 1
    ensures Change(p, PopVlan) == p.(tags := []) && INBAND_PORT == {3, 5, 6, 7, 8, 9}
  {
  }

  lemma UplinkSends(p: Packet, mask: Cells)
    requires PacketOk(p) && |p.tags| <= 1 && Sized(mask)
    ensures ExecuteAll(p, FromUplink(Context(KeyOf(p), {}, mask, [])).msg).sent == [Sent(Port({3, 5, 6, 7, 8, 9}), p.(tags := []))]
  {
    FreshStep(p, mask);
    PopMeans(p);
    hide SetField, OutputTo, ExecuteAll, InStep, Change, PacketOk, Fits, KeyOf, INBAND_PORT;
    var x := Context(KeyOf(p), {}, mask, []);
    SetMeans(p, x, Wire(p, []), PopVlan);
    SendMeans(p, SetField(x, PopVlan), Wire(Change(p, PopVlan), []), INBAND_PORT);
  }

  lemma PushThenSet(p: Packet, vlan: Bits)
    requires PacketOk(p) && |p.tags| <= 1
    ensures Change(Change(p, PushVlan), VlanVid(vlan)) == p.(tags := [Tag(vlan, PriorityOf(Outer(p)))])
  {
    assert PriorityOf(Tag({}, {})) == {} && PriorityOf({}) == {};
    hide Tag, PriorityOf;
  }

  lemma QueueMeans(p: Packet, v: Bits)
    requires PacketOk(p)
    ensures Change(p, Priority(v)) == p.(cells := p.cells[C_PRIORITY := v])
  {
  }

  lemma DownlinkSends(ib: Inband, p: Packet, mask: Cells)
    requires PacketOk(p) && |p.tags| <= 1 && Sized(mask) && ib.vlan.Some?
    ensures ExecuteAll(p, ToUplink(Context(KeyOf(p), {}, mask, []), ib.vlan.value, ib.uplink, ib.queue).msg).sent ==
            if ib.uplink.None? then [] else [Sent(Port(ib.uplink.value), Tagged(ib, p))]
  {
    FreshStep(p, mask);
    PushThenSet(p, ib.vlan.value);
    hide SetField, OutputTo, ExecuteAll, Tag, PriorityOf, InStep, Change, PacketOk, Fits;
    var x := Context(KeyOf(p), {}, mask, []);
    if ib.uplink.None? {
      SentSame(p, x, Wire(p, []));
    } else {
      SetMeans(p, x, Wire(p, []), PushVlan);
      var q := Change(p, PushVlan);
      SetMeans(p, SetField(x, PushVlan), Wire(q, []), VlanVid(ib.vlan.value));
      var y, z := SetField(SetField(x, PushVlan), VlanVid(ib.vlan.value)), Change(q, VlanVid(ib.vlan.value));
      if ib.queue.None? {
        SendMeans(p, y, Wire(z, []), ib.uplink.value);
      } else {
        SetMeans(p, y, Wire(z, []), Priority(ib.queue.value));
        QueueMeans(z, ib.queue.value);
        SendMeans(p, SetField(y, Priority(ib.queue.value)), Wire(Change(z, Priority(ib.queue.value)), []), ib.uplink.value);
      }
    }
  }

  lemma SentSame(p0: Packet, x: Context, e: Wire)
    requires InStep(p0, x, e)
    ensures Sized(p0.cells) && ExecuteAll(p0, x.msg).sent == e.sent
  {
  }

  lemma TablesMean(c: Config, ib: Inband, p: Packet) returns (end: Trip)
    requires ConfigOk(c) && PacketOk(p) && |p.tags| <= 1 && RouteOf(ib, KeyOf(p)).Tables?
    ensures |c.tables| == 16
    ensures Journey(c, 0, KeyToCfr(KeyOf(p)), Trip(Wire(p, []), []), HashOf(c, p), end)
    ensures var v := Decide(c, ib, KeyOf(p)); ExecuteAll(p, v.actions).sent == end.wire.sent && v.stats == end.handles
  {
    var k := KeyOf(p);
    var r := RouteOf(ib, k).run;
    RouteFresh(ib, k);
    TwoCells(k.cells);
    assert EnvFor(c, k) == HashOf(c, p);
    var s := StartWalk(k, r);
    FreshStep(p, s.run.ctx.mask);
    hide ConfigOk, RouteOf, KeyToCfr, OnTrip, WalkFrom, Journey, TranslateMask, ExecuteAll, EnvFor, HashOf;
    end := WalkMeans(p, c, 0, s, Trip(Wire(p, []), []), HashOf(c, p));
    TripSent(p, WalkFrom(c, 0, s, EnvFor(c, k)).run, end);
  }

  lemma TripSent(p0: Packet, r: Run, t: Trip)
    requires OnTrip(p0, r, t)
    ensures Sized(p0.cells) && ExecuteAll(p0, r.ctx.msg).sent == t.wire.sent && r.stats == t.handles
  {
  }

  /** Every decision on a packet with at most one tag means to the kernel what the tables mean. */
  lemma DecisionMeans(c: Config, ib: Inband, p: Packet)
    requires ConfigOk(c) && PacketOk(p) && |p.tags| <= 1
    ensures |c.tables| == 16 && Means(c, ib, p, Decide(c, ib, KeyOf(p)))
  {
    assert |c.tables| == NUM_TABLES;
    RouteIs(ib, p);
    var k := KeyOf(p);
    if RouteOf(ib, k).Tables? {
      hide ConfigOk, RouteOf, Journey, ExecuteAll, HashOf, Decide, InFromUplink, OutToUplink;
      DecidePopulated(c, ib, k);
      var end := TablesMean(c, ib, p);
    } else {
      ShortcutMeans(c, ib, p);
    }
  }

  lemma DecidePopulated(c: Config, ib: Inband, k: Key)
    requires ConfigOk(c) && Sized(k.cells)
    ensures Decide(c, ib, k).populated == k.populated + {ETHERTYPE}
  {
    hide ConfigOk, RouteOf, Process;
  }

  lemma ShortcutMeans(c: Config, ib: Inband, p: Packet)
    requires ConfigOk(c) && PacketOk(p) && |p.tags| <= 1 && |c.tables| == 16
    requires InFromUplink(ib, p) || OutToUplink(ib, p)
    ensures Means(c, ib, p, Decide(c, ib, KeyOf(p)))
  {
    var k := KeyOf(p);
    var x := InitRun(k).ctx;
    ShortcutIs(c, ib, p);
    UplinkSends(p, Mask(x, VLAN).mask);
    DownlinkSends(ib, p, x.mask);
    hide FromUplink, ToUplink, WithOnes, ExecuteAll, Decide, ConfigOk, Tagged, Journey, KeyOf;
  }

  lemma ShortcutIs(c: Config, ib: Inband, p: Packet)
    requires ConfigOk(c) && PacketOk(p) && (InFromUplink(ib, p) || OutToUplink(ib, p))
    ensures var k := KeyOf(p); var v, x := Decide(c, ib, k), InitRun(k).ctx;
      && v.populated == k.populated + {ETHERTYPE} && v.stats == []
      && v.actions == if InFromUplink(ib, p) then FromUplink(Mask(x, VLAN)).msg
                      else ToUplink(x, ib.vlan.value, ib.uplink, ib.queue).msg
  {
    var k := KeyOf(p);
    assert k.cells[C_VLAN] == Outer(p) && k.cells[C_IN_PORT] == p.cells[C_IN_PORT];
    assert IdOf(Outer(p)) == Outer(p) * VID;
    hide FromUplink, ToUplink, WithOnes, VID, IdOf, Process, ConfigOk;
  }

  // ---- corollaries ---------------------------------------------------------------------

  /** A packet that no entry of the first table matches. */
  lemma MissSends(c: Config, ib: Inband, p: Packet)
    requires ConfigOk(c) && PacketOk(p) && |p.tags| <= 1 && !InFromUplink(ib, p) && !OutToUplink(ib, p)
    requires |c.tables| == 16 && forall e :: !Accepts(c.tables[0], e, KeyToCfr(KeyOf(p)))
    ensures var v := Decide(c, ib, KeyOf(p));
      && ExecuteAll(p, v.actions).sent == (if c.version13 then [] else [Sent(Upcall(c.pktinPid, 0), p)])
      && v.stats == [c.tables[0].missed]
  {
    DecisionMeans(c, ib, p);
    hide ConfigOk, Decide, ExecuteAll, KeyToCfr, Accepts, HashOf, InFromUplink, OutToUplink;
  }

  /** Two entries of a table never tie. */
  ghost predicate NoTies(c: Config) {
    forall n, e, x, fields ::
      0 <= n < |c.tables| && Accepts(c.tables[n], e, fields) && Accepts(c.tables[n], x, fields) ==>
        e.priority == x.priority ==> e.id == x.id
  }

  /** Then the tables leave no choice. */
  lemma {:induction false} JourneyOnce(c: Config, n: nat, fields: Cells, t: Trip, env: Env, a: Trip, b: Trip)
    requires |c.tables| == 16 && n < 16 && PacketOk(t.wire.packet) && NoTies(c)
    requires Journey(c, n, fields, t, env, a) && Journey(c, n, fields, t, env, b)
    ensures a == b
    decreases 16 - n
  {
    hide Matched, Unmatched, Rewritten, Onward, PacketOk;
    var table := c.tables[n];
    if exists e :: Accepts(table, e, fields) {
      var e: Entry :| Wins(table, e, fields) && e.id in table.flows
        && Onward(c, n, fields, table.flows[e.id], Matched(table, table.flows[e.id], t, env), env, a);
      var x: Entry :| Wins(table, x, fields) && x.id in table.flows
        && Onward(c, n, fields, table.flows[x.id], Matched(table, table.flows[x.id], t, env), env, b);
      assert e.id == x.id by { SameWinner(c, n, e, x, fields); }
      OnwardOnce(c, n, fields, table.flows[e.id], Matched(table, table.flows[e.id], t, env), env, a, b);
    }
  }

  lemma SameWinner(c: Config, n: nat, e: Entry, x: Entry, fields: Cells)
    requires n < |c.tables| && NoTies(c) && Wins(c.tables[n], e, fields) && Wins(c.tables[n], x, fields)
    ensures e.id == x.id
  {
    hide Accepts;
  }

  lemma {:induction false} OnwardOnce(c: Config, n: nat, fields: Cells, flow: Flow, t: Trip, env: Env, a: Trip, b: Trip)
    requires |c.tables| == 16 && n < 16 && PacketOk(t.wire.packet) && NoTies(c)
    requires Onward(c, n, fields, flow, t, env, a) && Onward(c, n, fields, flow, t, env, b)
    ensures a == b
    decreases 16 - n, 0
  {
    hide Rewritten, Journey, NoTies, PacketOk;
    if flow.next.Some? {
      var f :| Rewritten(fields, flow.actions, f) && Journey(c, flow.next.value, f, t, env, a);
      var g :| Rewritten(fields, flow.actions, g) && Journey(c, flow.next.value, g, t, env, b);
      RewrittenOnce(fields, flow.actions, f, g);
      JourneyOnce(c, flow.next.value, f, t, env, a, b);
    }
  }
}
