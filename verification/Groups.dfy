/**
 Group references: every GROUP attribute in a live action buffer holds one
 reference to its group, taken when the buffer is translated and given back when
 it is cleaned up, also when a translation fails half way.
 */
module Groups {
  import opened Cells
  import Pipeline

  /** An OpenFlow action: a group, another that is supported, or one that is not. */
  datatype OfAction = OfGroup(id: nat) | OfPlain(kind: nat) | OfBad

  /** An attribute of a translated action buffer. */
  datatype Attribute = Group(id: nat) | Plain(kind: nat)

  type Buffer = seq<Attribute>

  datatype Instruction = Apply(actions: seq<OfAction>) | Write(actions: seq<OfAction>) | Clear | Goto(table: nat)
                       | Meter(id: nat) | Unknown

  /** struct flowtable_value; a next table of None is 255. */
  datatype Value = Value(apply: Buffer, write: Buffer, clear: bool, next: Option<nat>)

  datatype OfBucket = OfBucket(weight: nat, actions: seq<OfAction>)

  datatype GroupKind = Select | Indirect | Other

  datatype GroupEntry = GroupEntry(id: nat, kind: GroupKind, buckets: seq<Buffer>)

  datatype Status = Ok | BadAction | Range | Compat

  // ---- references held -----------------------------------------------------------

  function One(a: Attribute, g: nat): nat {
    if a == Group(g) then 1 else 0
  }

  /** GROUP attributes of group 'g' in a buffer. */
  function Held(b: Buffer, g: nat): nat {
    if b == [] then 0 else Held(b[..|b| - 1], g) + One(b[|b| - 1], g)
  }

  function BucketsHeld(bs: seq<Buffer>, g: nat): nat {
    if bs == [] then 0 else BucketsHeld(bs[..|bs| - 1], g) + Held(bs[|bs| - 1], g)
  }

  function ValueHeld(v: Value, g: nat): nat {
    Held(v.apply, g) + Held(v.write, g)
  }

  function FlowsHeld(fs: seq<Value>, g: nat): nat {
    if fs == [] then 0 else FlowsHeld(fs[..|fs| - 1], g) + ValueHeld(fs[|fs| - 1], g)
  }

  function GroupsHeld(gs: seq<GroupEntry>, g: nat): nat {
    if gs == [] then 0 else GroupsHeld(gs[..|gs| - 1], g) + BucketsHeld(gs[|gs| - 1].buckets, g)
  }

  lemma HeldAppend(b: Buffer, a: Attribute, g: nat)
    ensures Held(b + [a], g) == Held(b, g) + One(a, g)
  {
    assert (b + [a])[..|b|] == b;
  }

  lemma HeldStep(b: Buffer, i: nat, g: nat)
    requires i < |b|
    ensures Held(b[..i + 1], g) == Held(b[..i], g) + One(b[i], g)
  {
    assert b[..i + 1][..i] == b[..i];
  }

  lemma {:induction false} HeldWithin(b: Buffer, i: nat, g: nat)
    requires i <= |b|
    ensures Held(b[..i], g) <= Held(b, g)
    decreases |b| - i
  {
    if i < |b| {
      HeldWithin(b, i + 1, g);
      HeldStep(b, i, g);
    } else {
      assert b[..i] == b;
    }
  }

  lemma BucketsHeldAppend(bs: seq<Buffer>, b: Buffer, g: nat)
    ensures BucketsHeld(bs + [b], g) == BucketsHeld(bs, g) + Held(b, g)
  {
    assert (bs + [b])[..|bs|] == bs;
  }

  lemma BucketsHeldStep(bs: seq<Buffer>, i: nat, g: nat)
    requires i < |bs|
    ensures BucketsHeld(bs[..i + 1], g) == BucketsHeld(bs[..i], g) + Held(bs[i], g)
  {
    assert bs[..i + 1][..i] == bs[..i];
  }

  lemma {:induction false} BucketsHeldWithin(bs: seq<Buffer>, i: nat, g: nat)
    requires i <= |bs|
    ensures BucketsHeld(bs[..i], g) <= BucketsHeld(bs, g)
    decreases |bs| - i
  {
    if i < |bs| {
      BucketsHeldWithin(bs, i + 1, g);
      BucketsHeldStep(bs, i, g);
    } else {
      assert bs[..i] == bs;
    }
  }

  lemma Parts<T>(s: seq<T>, i: nat, x: T)
    requires i < |s|
    ensures s[i := x] == s[..i] + [x] + s[i + 1..] && s == s[..i] + [s[i]] + s[i + 1..]
  {
  }

  lemma {:induction false} FlowsHeldConcat(a: seq<Value>, b: seq<Value>, g: nat)
    ensures FlowsHeld(a + b, g) == FlowsHeld(a, g) + FlowsHeld(b, g)
  {
    hide ValueHeld;
    if b == [] {
      assert a + b == a;
    } else {
      assert (a + b)[..|a + b| - 1] == a + b[..|b| - 1];
      FlowsHeldConcat(a, b[..|b| - 1], g);
    }
  }

  lemma FlowsHeldUpdate(fs: seq<Value>, i: nat, v: Value, g: nat)
    requires i < |fs|
    ensures FlowsHeld(fs[i := v], g) + ValueHeld(fs[i], g) == FlowsHeld(fs, g) + ValueHeld(v, g)
    ensures FlowsHeld(fs[..i] + fs[i + 1..], g) + ValueHeld(fs[i], g) == FlowsHeld(fs, g)
  {
    hide FlowsHeld, ValueHeld;
    var a, b := fs[..i], fs[i + 1..];
    FlowsHeldAppend(a, v, g);
    FlowsHeldAppend(a, fs[i], g);
    FlowsHeldConcat(a, b, g);
    FlowsHeldConcat(a + [v], b, g);
    FlowsHeldConcat(a + [fs[i]], b, g);
    Parts(fs, i, v);
  }

  lemma {:induction false} GroupsHeldConcat(a: seq<GroupEntry>, b: seq<GroupEntry>, g: nat)
    ensures GroupsHeld(a + b, g) == GroupsHeld(a, g) + GroupsHeld(b, g)
  {
    hide BucketsHeld;
    if b == [] {
      assert a + b == a;
    } else {
      assert (a + b)[..|a + b| - 1] == a + b[..|b| - 1];
      GroupsHeldConcat(a, b[..|b| - 1], g);
    }
  }

  lemma GroupsHeldUpdate(gs: seq<GroupEntry>, i: nat, e: GroupEntry, g: nat)
    requires i < |gs|
    ensures GroupsHeld(gs[i := e], g) + BucketsHeld(gs[i].buckets, g) == GroupsHeld(gs, g) + BucketsHeld(e.buckets, g)
    ensures GroupsHeld(gs[..i] + gs[i + 1..], g) + BucketsHeld(gs[i].buckets, g) == GroupsHeld(gs, g)
  {
    hide GroupsHeld, BucketsHeld;
    var a, b := gs[..i], gs[i + 1..];
    GroupsHeldAppend(a, e, g);
    GroupsHeldAppend(a, gs[i], g);
    GroupsHeldConcat(a, b, g);
    GroupsHeldConcat(a + [e], b, g);
    GroupsHeldConcat(a + [gs[i]], b, g);
    Parts(gs, i, e);
  }

  lemma FlowsHeldAppend(fs: seq<Value>, v: Value, g: nat)
    ensures FlowsHeld(fs + [v], g) == FlowsHeld(fs, g) + ValueHeld(v, g)
  {
    hide ValueHeld;
    assert (fs + [v])[..|fs|] == fs;
  }

  lemma GroupsHeldAppend(gs: seq<GroupEntry>, e: GroupEntry, g: nat)
    ensures GroupsHeld(gs + [e], g) == GroupsHeld(gs, g) + BucketsHeld(e.buckets, g)
  {
    hide BucketsHeld;
    assert (gs + [e])[..|gs|] == gs;
  }

  function Count(refs: map<nat, nat>, g: nat): nat {
    if g in refs then refs[g] else 0
  }

  predicate GotoOk(table: nat, next: nat) {
    table < next < Pipeline.NUM_TABLES
  }

  // ---- what is parsed --------------------------------------------------------------

  /** The action can be translated: supported and, if it names a group, one that exists. */
  predicate Known(groups: seq<GroupEntry>, a: OfAction) {
    match a
    case OfGroup(id) => exists i :: 0 <= i < |groups| && groups[i].id == id
    case OfPlain(_) => true
    case OfBad => false
  }

  predicate AllKnown(groups: seq<GroupEntry>, actions: seq<OfAction>) {
    forall i :: 0 <= i < |actions| ==> Known(groups, actions[i])
  }

  function AttributeOf(a: OfAction): Attribute {
    match a
    case OfGroup(id) => Group(id)
    case OfPlain(kind) => Plain(kind)
    case OfBad => Plain(0)
  }

  /** One attribute per action, in order. */
  function Attributes(actions: seq<OfAction>): (b: Buffer)
    ensures |b| == |actions|
  {
    seq(|actions|, i requires 0 <= i < |actions| => AttributeOf(actions[i]))
  }

  lemma AttributesNext(actions: seq<OfAction>, i: nat)
    requires i < |actions|
    ensures Attributes(actions[..i + 1]) == Attributes(actions[..i]) + [AttributeOf(actions[i])]
  {
  }

  /** An instruction that does not fail; goto leads to a later one of sixteen tables. */
  predicate Good(groups: seq<GroupEntry>, table: nat, i: Instruction) {
    match i
    case Apply(actions) => AllKnown(groups, actions)
    case Write(actions) => AllKnown(groups, actions)
    case Goto(next) => table < next < 16
    case Unknown => false
    case _ => true
  }

  function FaultOf(i: Instruction): Status {
    if i.Goto? then Range else if i.Unknown? then Compat else BadAction
  }

  /** The first instruction that fails decides the status. */
  ghost predicate StatusIs(groups: seq<GroupEntry>, table: nat, instructions: seq<Instruction>, status: Status) {
    if status == Ok then forall i :: 0 <= i < |instructions| ==> Good(groups, table, instructions[i])
    else exists n :: 0 <= n < |instructions| && FailsAt(groups, table, instructions, n) && status == FaultOf(instructions[n])
  }

  predicate FailsAt(groups: seq<GroupEntry>, table: nat, instructions: seq<Instruction>, n: nat)
    requires n < |instructions|
  {
    !Good(groups, table, instructions[n]) && forall i :: 0 <= i < n ==> Good(groups, table, instructions[i])
  }

  /** The attributes of all apply-actions (or write-actions) instructions, in order. */
  function Collected(instructions: seq<Instruction>, apply: bool): Buffer {
    if instructions == [] then []
    else
      var last := instructions[|instructions| - 1];
      Collected(instructions[..|instructions| - 1], apply) +
      if (apply && last.Apply?) || (!apply && last.Write?) then Attributes(last.actions) else []
  }

  function LastGoto(instructions: seq<Instruction>): Option<nat> {
    if instructions == [] then None
    else
      var last := instructions[|instructions| - 1];
      if last.Goto? then Some(last.table) else LastGoto(instructions[..|instructions| - 1])
  }

  predicate Parsed(instructions: seq<Instruction>, v: Value) {
    && v.apply == Collected(instructions, true) && v.write == Collected(instructions, false)
    && (v.clear <==> Clear in instructions) && v.next == LastGoto(instructions)
  }

  lemma ParsedNext(instructions: seq<Instruction>, i: nat, v: Value, w: Value)
    requires i < |instructions| && Parsed(instructions[..i], v)
    requires match instructions[i]
      case Apply(a) => w == v.(apply := v.apply + Attributes(a))
      case Write(a) => w == v.(write := v.write + Attributes(a))
      case Clear => w == v.(clear := true)
      case Goto(n) => w == v.(next := Some(n))
      case _ => w == v
    ensures Parsed(instructions[..i + 1], w)
  {
    hide Attributes;
    var s := instructions[..i + 1];
    assert s[..i] == instructions[..i] && s[|s| - 1] == instructions[i];
    assert s == instructions[..i] + [instructions[i]];
  }

  lemma NothingParsed(instructions: seq<Instruction>)
    ensures Parsed(instructions[..0], Value([], [], false, None))
  {
  }

  /** A bucket of a select group has a weight, others have none, and an indirect group has one bucket. */
  predicate GoodBucket(groups: seq<GroupEntry>, kind: GroupKind, buckets: seq<OfBucket>, i: nat)
    requires i < |buckets|
  {
    && (buckets[i].weight > 0 <==> kind == Select) && (kind == Indirect ==> i == 0)
    && AllKnown(groups, buckets[i].actions)
  }

  predicate ParsedBuckets(buckets: seq<OfBucket>, bs: seq<Buffer>) {
    |bs| == |buckets| && forall i :: 0 <= i < |bs| ==> bs[i] == Attributes(buckets[i].actions)
  }

  class Tables {
    /** Acquires minus releases of each group, as the core counts them. */
    var refs: map<nat, nat>
    var flows: seq<Value>
    var groups: seq<GroupEntry>

    /** The balance. */
    ghost predicate Valid()
      reads this
    {
      forall g :: Count(refs, g) == FlowsHeld(flows, g) + GroupsHeld(groups, g)
    }

    constructor ()
      ensures Valid() && flows == [] && groups == []
    {
      refs, flows, groups := map[], [], [];
    }

    /** indigo_core_group_acquire */
    method Acquire(id: nat) returns (ok: bool)
      modifies this`refs
      ensures ok <==> exists i :: 0 <= i < |groups| && groups[i].id == id
      ensures forall g :: Count(refs, g) == old(Count(refs, g)) + if ok && g == id then 1 else 0
    {
      for i := 0 to |groups|
        invariant forall j :: 0 <= j < i ==> groups[j].id != id
      {
        if groups[i].id == id {
          refs := refs[id := Count(refs, id) + 1];
          assert groups[i].id == id;
          return true;
        }
      }
      return false;
    }

    /** indigo_core_group_release: only of what was acquired. */
    method Release(id: nat)
      requires Count(refs, id) > 0
      modifies this`refs
      ensures forall g :: Count(refs, g) == old(Count(refs, g)) - if g == id then 1 else 0
    {
      refs := refs[id := Count(refs, id) - 1];
    }

    /** pipeline_standard_translate_openflow_actions: what it appended stays when it fails. */
    method Translate(actions: seq<OfAction>, before: Buffer) returns (status: Status, buffer: Buffer)
      modifies this`refs
      ensures status == Ok || status == BadAction
      ensures status == Ok <==> AllKnown(groups, actions)
      ensures exists n :: 0 <= n <= |actions| && buffer == before + Attributes(actions[..n]) && AllKnown(groups, actions[..n])
                && (n < |actions| ==> !Known(groups, actions[n])) && (n == |actions| <==> status == Ok)
      ensures forall g :: Count(refs, g) + Held(before, g) == old(Count(refs, g)) + Held(buffer, g)
    {
      hide Held, Count, Attributes;
      buffer := before;
      assert Attributes(actions[..0]) == [];
      for i := 0 to |actions|
        invariant buffer == before + Attributes(actions[..i]) && AllKnown(groups, actions[..i])
        invariant forall g :: Count(refs, g) + Held(before, g) == old(Count(refs, g)) + Held(buffer, g)
      {
        var next: Attribute;
        match actions[i] {
          case OfBad => return BadAction, buffer;
          case OfPlain(kind) => next := Plain(kind);
          case OfGroup(id) =>
            var ok := Acquire(id);
            if !ok {
              return BadAction, buffer;
            }
            next := Group(id);
        }
        forall g ensures Held(buffer + [next], g) == Held(buffer, g) + One(next, g) {
          HeldAppend(buffer, next, g);
        }
        AttributesNext(actions, i);
        assert actions[..i + 1] == actions[..i] + [actions[i]];
        buffer := buffer + [next];
      }
      assert actions[..|actions|] == actions;
      return Ok, buffer;
    }

    /** pipeline_standard_cleanup_actions */
    method Cleanup(buffer: Buffer)
      requires forall g :: Held(buffer, g) <= Count(refs, g)
      modifies this`refs
      ensures forall g :: Count(refs, g) == old(Count(refs, g)) - Held(buffer, g)
    {
      assert forall g :: Held(buffer[..0], g) == 0;
      hide Held, Count;
      for i := 0 to |buffer|
        invariant forall g :: Count(refs, g) == old(Count(refs, g)) - Held(buffer[..i], g)
      {
        forall g ensures Held(buffer[..i + 1], g) == Held(buffer[..i], g) + One(buffer[i], g) <= Held(buffer, g) {
          HeldStep(buffer, i, g);
          HeldWithin(buffer, i + 1, g);
        }
        if buffer[i].Group? {
          assert One(buffer[i], buffer[i].id) == 1;
          Release(buffer[i].id);
        }
      }
      assert buffer[..|buffer|] == buffer;
    }

    /** parse_value: an error gives back everything taken so far. */
    method ParseValue(table: nat, instructions: seq<Instruction>) returns (status: Status, v: Value)
      modifies this`refs
      ensures status == Ok ==> forall g :: Count(refs, g) == old(Count(refs, g)) + ValueHeld(v, g)
      ensures status != Ok ==> forall g :: Count(refs, g) == old(Count(refs, g))
      ensures StatusIs(groups, table, instructions, status)
      ensures status == Ok ==> Parsed(instructions, v)
    {
      assert forall g :: Held([], g) == 0;
      hide Held, Count, Known, Attributes, Parsed, AllKnown;
      NothingParsed(instructions);
      v := Value([], [], false, None);
      status := Ok;
      var i := 0;
      while i < |instructions| && status == Ok
        invariant 0 <= i <= |instructions|
        invariant forall g :: Count(refs, g) == old(Count(refs, g)) + ValueHeld(v, g)
        invariant status == Ok ==> forall j :: 0 <= j < i ==> Good(groups, table, instructions[j])
        invariant status == Ok ==> Parsed(instructions[..i], v)
        invariant status != Ok ==> i > 0 && FailsAt(groups, table, instructions, i - 1) && status == FaultOf(instructions[i - 1])
      {
        ghost var was := v;
        match instructions[i] {
          case Apply(actions) =>
            var buffer: Buffer;
            status, buffer := Translate(actions, v.apply);
            v := v.(apply := buffer);
          case Write(actions) =>
            var buffer: Buffer;
            status, buffer := Translate(actions, v.write);
            v := v.(write := buffer);
          case Clear => v := v.(clear := true);
          case Goto(next) =>
            v := v.(next := Some(next));
            if !GotoOk(table, next) {
              status := Range;
            }
          case Meter(_) =>
          case Unknown => status := Compat;
        }
        if status == Ok {
          ParsedNext(instructions, i, was, v);
        }
        i := i + 1;
      }
      assert instructions[..|instructions|] == instructions;
      if status != Ok {
        Cleanup(v.apply);
        Cleanup(v.write);
      }
    }

    /** flowtable_entry_create */
    method CreateFlow(table: nat, instructions: seq<Instruction>) returns (status: Status)
      requires Valid()
      modifies this`refs, this`flows
      ensures Valid()
      ensures StatusIs(groups, table, instructions, status)
      ensures if status == Ok then exists v :: Parsed(instructions, v) && flows == old(flows) + [v] else flows == old(flows)
    {
      hide Count, ValueHeld, StatusIs, Parsed;
      var v: Value;
      status, v := ParseValue(table, instructions);
      if status == Ok {
        forall g ensures FlowsHeld(flows + [v], g) == FlowsHeld(flows, g) + ValueHeld(v, g) {
          FlowsHeldAppend(flows, v, g);
        }
        flows := flows + [v];
      }
    }

    /** flowtable_entry_modify */
    method ModifyFlow(i: nat, table: nat, instructions: seq<Instruction>) returns (status: Status)
      requires Valid() && i < |flows|
      modifies this`refs, this`flows
      ensures Valid()
      ensures StatusIs(groups, table, instructions, status)
      ensures if status == Ok then exists v :: Parsed(instructions, v) && flows == old(flows)[i := v] else flows == old(flows)
    {
      hide Count, Held, FlowsHeld, StatusIs, Parsed;
      var v: Value;
      status, v := ParseValue(table, instructions);
      if status == Ok {
        forall g ensures FlowsHeld(flows[i := v], g) + ValueHeld(flows[i], g) == FlowsHeld(flows, g) + ValueHeld(v, g)
                 ensures ValueHeld(flows[i], g) <= FlowsHeld(flows, g) {
          FlowsHeldUpdate(flows, i, v, g);
        }
        Cleanup(flows[i].apply);
        Cleanup(flows[i].write);
        flows := flows[i := v];
      }
    }

    /** flowtable_entry_delete */
    method DeleteFlow(i: nat)
      requires Valid() && i < |flows|
      modifies this`refs, this`flows
      ensures Valid() && flows == old(flows)[..i] + old(flows)[i + 1..]
    {
      hide Count, Held, FlowsHeld;
      var v := flows[i];
      forall g ensures FlowsHeld(flows[..i] + flows[i + 1..], g) + ValueHeld(v, g) == FlowsHeld(flows, g) {
        FlowsHeldUpdate(flows, i, v, g);
      }
      Cleanup(v.apply);
      Cleanup(v.write);
      flows := flows[..i] + flows[i + 1..];
    }

    /** cleanup_group_value */
    method CleanupBuckets(bs: seq<Buffer>)
      requires forall g :: BucketsHeld(bs, g) <= Count(refs, g)
      modifies this`refs
      ensures forall g :: Count(refs, g) == old(Count(refs, g)) - BucketsHeld(bs, g)
    {
      assert forall g :: BucketsHeld(bs[..0], g) == 0;
      hide Held, Count, BucketsHeld;
      for i := 0 to |bs|
        invariant forall g :: Count(refs, g) == old(Count(refs, g)) - BucketsHeld(bs[..i], g)
      {
        forall g ensures BucketsHeld(bs[..i + 1], g) == BucketsHeld(bs[..i], g) + Held(bs[i], g) <= BucketsHeld(bs, g) {
          BucketsHeldStep(bs, i, g);
          BucketsHeldWithin(bs, i + 1, g);
        }
        Cleanup(bs[i]);
      }
      assert bs[..|bs|] == bs;
    }

    /** parse_group_value: the bucket that fails is cleaned up with the others. */
    method ParseGroup(kind: GroupKind, buckets: seq<OfBucket>) returns (status: Status, bs: seq<Buffer>)
      modifies this`refs
      ensures status == Ok ==> forall g :: Count(refs, g) == old(Count(refs, g)) + BucketsHeld(bs, g)
      ensures status != Ok ==> forall g :: Count(refs, g) == old(Count(refs, g))
      ensures status == Ok <==> forall i :: 0 <= i < |buckets| ==> GoodBucket(old(groups), kind, buckets, i)
      ensures status == Ok ==> ParsedBuckets(buckets, bs)
    {
      assert forall g :: BucketsHeld([], g) == 0 && Held([], g) == 0;
      hide Held, Count, BucketsHeld, AllKnown, Known, Attributes;
      bs, status := [], Ok;
      var i := 0;
      ghost var bad: nat, known := 0, groups;
      while i < |buckets| && status == Ok
        invariant 0 <= i <= |buckets| && (status == Ok ==> |bs| == i && ParsedBuckets(buckets[..i], bs))
        invariant known == old(groups) == groups
        invariant if status == Ok then forall j :: 0 <= j < i ==> GoodBucket(known, kind, buckets, j)
                  else bad < |buckets| && !GoodBucket(known, kind, buckets, bad)
        invariant forall g :: Count(refs, g) == old(Count(refs, g)) + BucketsHeld(bs, g)
      {
        var buffer: Buffer := [];
        if (buckets[i].weight > 0) != (kind == Select) || (kind == Indirect && i + 1 > 1) {
          status := Compat;
        } else {
          status, buffer := Translate(buckets[i].actions, []);
        }
        forall g ensures BucketsHeld(bs + [buffer], g) == BucketsHeld(bs, g) + Held(buffer, g) {
          BucketsHeldAppend(bs, buffer, g);
        }
        bs := bs + [buffer];
        i, bad := i + 1, i;
      }
      assert buckets[..|buckets|] == buckets;
      assert status == Ok <==> forall j :: 0 <= j < |buckets| ==> GoodBucket(known, kind, buckets, j);
      assert known == old(groups);
      if status != Ok {
        CleanupBuckets(bs);
      }
    }

    /** group_create */
    method CreateGroup(id: nat, kind: GroupKind, buckets: seq<OfBucket>) returns (status: Status)
      requires Valid()
      modifies this`refs, this`groups
      ensures Valid()
      ensures status == Ok <==> forall i :: 0 <= i < |buckets| ==> GoodBucket(old(groups), kind, buckets, i)
      ensures if status == Ok then exists bs :: ParsedBuckets(buckets, bs) && groups == old(groups) + [GroupEntry(id, kind, bs)]
              else groups == old(groups)
    {
      hide Count, BucketsHeld, ParsedBuckets, GoodBucket;
      var bs: seq<Buffer>;
      status, bs := ParseGroup(kind, buckets);
      if status == Ok {
        var e := GroupEntry(id, kind, bs);
        forall g ensures GroupsHeld(groups + [e], g) == GroupsHeld(groups, g) + BucketsHeld(bs, g) {
          GroupsHeldAppend(groups, e, g);
        }
        groups := groups + [e];
      }
    }

    /** group_modify */
    method ModifyGroup(i: nat, buckets: seq<OfBucket>) returns (status: Status)
      requires Valid() && i < |groups|
      modifies this`refs, this`groups
      ensures Valid()
      ensures status == Ok <==> forall j :: 0 <= j < |buckets| ==> GoodBucket(old(groups), old(groups)[i].kind, buckets, j)
      ensures if status == Ok then exists bs :: ParsedBuckets(buckets, bs) && groups == old(groups)[i := old(groups)[i].(buckets := bs)]
              else groups == old(groups)
    {
      hide Count, BucketsHeld, GroupsHeld, ParsedBuckets, GoodBucket;
      var bs: seq<Buffer>;
      status, bs := ParseGroup(groups[i].kind, buckets);
      if status == Ok {
        var e := groups[i].(buckets := bs);
        forall g ensures GroupsHeld(groups[i := e], g) + BucketsHeld(groups[i].buckets, g) == GroupsHeld(groups, g) + BucketsHeld(bs, g)
                 ensures BucketsHeld(groups[i].buckets, g) <= GroupsHeld(groups, g) {
          GroupsHeldUpdate(groups, i, e, g);
        }
        CleanupBuckets(groups[i].buckets);
        groups := groups[i := e];
      }
    }

    /** group_delete */
    method DeleteGroup(i: nat)
      requires Valid() && i < |groups|
      modifies this`refs, this`groups
      ensures Valid() && groups == old(groups)[..i] + old(groups)[i + 1..]
    {
      hide Count, BucketsHeld, GroupsHeld;
      forall g ensures GroupsHeld(groups[..i] + groups[i + 1..], g) + BucketsHeld(groups[i].buckets, g) == GroupsHeld(groups, g) {
        GroupsHeldUpdate(groups, i, groups[i], g);
      }
      CleanupBuckets(groups[i].buckets);
      groups := groups[..i] + groups[i + 1..];
    }
  }
}
