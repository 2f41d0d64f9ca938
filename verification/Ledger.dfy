/**
 Packet and byte counters, 64 bits wide, and the account of which increase of
 which kernel flow was credited to which statistics handle.
 */
module Ledger {

  const WORD := 0x1_0000_0000_0000_0000

  type Word = x: int | 0 <= x < WORD

  datatype Tally = Tally(packets: Word, bytes: Word)

  const ZERO := Tally(0, 0)

  /** Addition of 64-bit words, modulo WORD. */
  function AddWord(a: Word, b: Word): Word {
    if a + b < WORD then a + b else a + b - WORD
  }

  function SubWord(a: Word, b: Word): Word {
    if a < b then a - b + WORD else a - b
  }

  function Plus(a: Tally, b: Tally): Tally {
    Tally(AddWord(a.packets, b.packets), AddWord(a.bytes, b.bytes))
  }

  function Minus(a: Tally, b: Tally): Tally {
    Tally(SubWord(a.packets, b.packets), SubWord(a.bytes, b.bytes))
  }

  lemma Group(a: Tally, b: Tally, c: Tally)
    ensures Plus(a, ZERO) == a && Plus(ZERO, a) == a
    ensures Plus(a, b) == Plus(b, a)
    ensures Plus(Plus(a, b), c) == Plus(a, Plus(b, c))
    ensures Minus(a, a) == ZERO && Plus(b, Minus(a, b)) == a
  {
  }

  /** What is due up to 'c' is what is due up to 'b' and the rest. */
  lemma Telescope(a: Tally, b: Tally, c: Tally)
    ensures Minus(c, a) == Plus(Minus(b, a), Minus(c, b))
    ensures Minus(Plus(c, b), a) == Plus(Minus(c, a), b)
  {
  }

  /** An increase of flow 'id' that went to each of 'handles'. */
  datatype Credit = Credit(id: nat, handles: seq<nat>, diff: Tally)

  /** What handle 'h' gets when 'd' goes to each of 'handles'. */
  function Share(handles: seq<nat>, h: nat, d: Tally): Tally {
    if handles == [] then ZERO
    else
      var n := |handles| - 1;
      Plus(Share(handles[..n], h, d), if handles[n] == h then d else ZERO)
  }

  lemma {:induction false} ShareZero(handles: seq<nat>, h: nat)
    ensures Share(handles, h, ZERO) == ZERO
  {
    if handles != [] {
      ShareZero(handles[..|handles| - 1], h);
    }
  }

  lemma Interchange(a: Tally, b: Tally, c: Tally, d: Tally)
    ensures Plus(Plus(a, b), Plus(c, d)) == Plus(Plus(a, c), Plus(b, d))
  {
    hide Plus;
    Group(Plus(a, b), c, d);
    Group(a, b, c);
    Group(b, c, c);
    Group(a, c, b);
    Group(Plus(a, c), b, d);
  }

  lemma {:induction false} ShareLinear(handles: seq<nat>, h: nat, a: Tally, b: Tally)
    ensures Share(handles, h, Plus(a, b)) == Plus(Share(handles, h, a), Share(handles, h, b))
  {
    hide Plus;
    Group(ZERO, ZERO, ZERO);
    if handles != [] {
      var n := |handles| - 1;
      ShareLinear(handles[..n], h, a, b);
      var pick := (d: Tally) => if handles[n] == h then d else ZERO;
      Interchange(Share(handles[..n], h, a), Share(handles[..n], h, b), pick(a), pick(b));
    }
  }

  /** What flow 'id' brought to handle 'h'. */
  function Paid(log: seq<Credit>, id: nat, h: nat): Tally {
    if log == [] then ZERO
    else
      var n := |log| - 1;
      Plus(Paid(log[..n], id, h), if log[n].id == id then Share(log[n].handles, h, log[n].diff) else ZERO)
  }

  /** What all flows brought to handle 'h'. */
  function TotalPaid(log: seq<Credit>, h: nat): Tally {
    if log == [] then ZERO
    else
      var n := |log| - 1;
      Plus(TotalPaid(log[..n], h), Share(log[n].handles, h, log[n].diff))
  }

  predicate IdsBelow(log: seq<Credit>, n: nat) {
    forall i :: 0 <= i < |log| ==> log[i].id < n
  }

  lemma PaidAppend(log: seq<Credit>, c: Credit, id: nat, h: nat)
    ensures Paid(log + [c], id, h) == Plus(Paid(log, id, h), if c.id == id then Share(c.handles, h, c.diff) else ZERO)
    ensures TotalPaid(log + [c], h) == Plus(TotalPaid(log, h), Share(c.handles, h, c.diff))
  {
    hide Plus;
    assert (log + [c])[..|log|] == log;
  }

  /** Flow by flow, for the first 'n' flows. */
  function SumPaid(log: seq<Credit>, h: nat, n: nat): Tally {
    if n == 0 then ZERO else Plus(SumPaid(log, h, n - 1), Paid(log, n - 1, h))
  }

  lemma {:induction false} SumPaidAppend(log: seq<Credit>, c: Credit, h: nat, n: nat)
    ensures SumPaid(log + [c], h, n) ==
            Plus(SumPaid(log, h, n), if c.id < n then Share(c.handles, h, c.diff) else ZERO)
  {
    hide Plus, Share;
    Group(ZERO, ZERO, ZERO);
    if n > 0 {
      SumPaidAppend(log, c, h, n - 1);
      PaidAppend(log, c, n - 1, h);
      var d := Share(c.handles, h, c.diff);
      Interchange(SumPaid(log, h, n - 1), if c.id < n - 1 then d else ZERO,
                  Paid(log, n - 1, h), if c.id == n - 1 then d else ZERO);
      Group(d, ZERO, ZERO);
    }
  }

  lemma {:induction false} SumPaidEmpty(h: nat, n: nat)
    ensures SumPaid([], h, n) == ZERO
  {
    if n > 0 {
      SumPaidEmpty(h, n - 1);
    }
  }

  lemma {:induction false} TotalIsSum(log: seq<Credit>, h: nat, n: nat)
    requires IdsBelow(log, n)
    ensures TotalPaid(log, h) == SumPaid(log, h, n)
  {
    hide Plus, Share;
    if log == [] {
      SumPaidEmpty(h, n);
    } else {
      var l := |log| - 1;
      assert log == log[..l] + [log[l]];
      TotalIsSum(log[..l], h, n);
      SumPaidAppend(log[..l], log[l], h, n);
    }
  }

  lemma {:induction false} SumPaidEqual(a: seq<Credit>, b: seq<Credit>, h: nat, n: nat)
    requires forall id: nat :: id < n ==> Paid(a, id, h) == Paid(b, id, h)
    ensures SumPaid(a, h, n) == SumPaid(b, h, n)
  {
    if n > 0 {
      SumPaidEqual(a, b, h, n - 1);
    }
  }

  /** Two accounts that agree flow by flow agree in total. */
  lemma TotalsAgree(a: seq<Credit>, b: seq<Credit>, h: nat, n: nat)
    requires IdsBelow(a, n) && IdsBelow(b, n)
    requires forall id: nat :: id < n ==> Paid(a, id, h) == Paid(b, id, h)
    ensures TotalPaid(a, h) == TotalPaid(b, h)
  {
    TotalIsSum(a, h, n);
    TotalIsSum(b, h, n);
    SumPaidEqual(a, b, h, n);
  }

  // ---- the counters behind the handles ---------------------------------------

  type Counters = map<nat, Tally>

  function Get(stats: Counters, h: nat): Tally {
    if h in stats then stats[h] else ZERO
  }

  /** The stats_inc loop of kflow_sync_stats. */
  method Increase(stats: Counters, handles: seq<nat>, diff: Tally) returns (r: Counters)
    ensures forall h :: Get(r, h) == Plus(Get(stats, h), Share(handles, h, diff))
  {
    hide Plus;
    r := stats;
    forall h ensures Plus(Get(stats, h), ZERO) == Get(stats, h) {
      Group(Get(stats, h), ZERO, ZERO);
    }
    for i := 0 to |handles|
      invariant forall h :: Get(r, h) == Plus(Get(stats, h), Share(handles[..i], h, diff))
    {
      var was := r;
      r := r[handles[i] := Plus(Get(r, handles[i]), diff)];
      assert handles[..i + 1][..i] == handles[..i];
      forall h ensures Get(r, h) == Plus(Get(stats, h), Share(handles[..i + 1], h, diff)) {
        var part := Share(handles[..i], h, diff);
        Group(Get(stats, h), part, if handles[i] == h then diff else ZERO);
        Group(part, ZERO, ZERO);
      }
    }
    assert handles[..|handles|] == handles;
  }
}
