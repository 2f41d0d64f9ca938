/**
 Rewriting the canonical fields for a whole action list, against reading them off the
 packet as the list leaves it.
 */
module ListRewrite {
  import opened Cells
  import opened Keys
  import opened Actions
  import opened Cfr
  import opened CfrSoundness
  import opened CfrRewrite
  import opened FieldWrites

  /** The context after all the set-field actions of a list. */
  function SetAll(x: Context, actions: seq<Action>): (r: Context)
    requires Fits(x)
    ensures Fits(r)
    decreases actions
  {
    if actions == [] then x
    else SetAll(if actions[0].Set? then SetField(x, actions[0].field) else x, actions[1..])
  }

  /** No action of the list meets a case where rewriting and reading again differ. */
  predicate Clean(x: Context, actions: seq<Action>)
    requires Fits(x)
    decreases actions
  {
    if actions == [] then true
    else if !actions[0].Set? then Clean(x, actions[1..])
    else
      var f := actions[0].field;
      && (if HasHeader(x.key, f) then SwapFree(x.key, f) else AlreadyThere(KeyToCfr(x.key), f))
      && Clean(SetField(x, f), actions[1..])
  }

  lemma StillPlain(x: Context, f: Field)
    requires Fits(x) && Plain(x.key)
    ensures Plain(SetField(x, f).key)
  {
    hide SetField;
    var y := SetField(x, f);
    StillPopulated(x.key, y.key, IPV4);
    StillPopulated(x.key, y.key, IPV6);
    StillPopulated(x.key, y.key, ARP);
    StillPopulated(x.key, y.key, TCP);
    StillPopulated(x.key, y.key, UDP);
  }

  /** Along such a list the fields are those of the packet as rewritten so far. */
  lemma {:induction false} ListIsReparse(x: Context, actions: seq<Action>)
    requires Fits(x) && Plain(x.key) && Clean(x, actions)
    ensures UpdateCfr(KeyToCfr(x.key), actions) == KeyToCfr(SetAll(x, actions).key)
    decreases actions
  {
    hide UpdateOne, KeyToCfr, SetField, HasHeader, SwapFree, AlreadyThere, Plain;
    if actions != [] {
      if actions[0].Set? {
        RewriteIsReparseExactly(x, actions[0].field);
        StillPlain(x, actions[0].field);
        ListIsReparse(SetField(x, actions[0].field), actions[1..]);
      } else {
        OtherActions(KeyToCfr(x.key), actions[0]);
        ListIsReparse(x, actions[1..]);
      }
    }
  }

  lemma OtherActions(c: Cells, a: Action)
    requires |c| == CFR_CELLS && !a.Set?
    ensures UpdateOne(c, a) == c
  {
  }

  // ---- exactly -----------------------------------------------------------------

  /** What an action does to bit b of field i when the packet is read again: bytes in wire order, tags seen. */
  function Shown(k: Key, f: Field, i: nat, b: nat): Option<bool> {
    if !HasHeader(k, f) then None
    else
      match f
      case Ipv4Dst(v) => if i == F_NW_DST then Bit(v, b) else None
      case Ipv4Src(b0, b1, b2, b3) =>
        if i == F_NW_SRC then Bit(b0, b)
        else if i == F_NW_SRC + 1 then Bit(b1, b)
        else if i == F_NW_SRC + 2 then Bit(b2, b)
        else if i == F_NW_SRC + 3 then Bit(b3, b)
        else None
      case TcpDst(hi, lo) => PortBit(i, F_TP_DST, lo, hi, b)
      case UdpDst(hi, lo) => PortBit(i, F_TP_DST, lo, hi, b)
      case TpDst(hi, lo) => PortBit(i, F_TP_DST, lo, hi, b)
      case TcpSrc(hi, lo) => PortBit(i, F_TP_SRC, lo, hi, b)
      case UdpSrc(hi, lo) => PortBit(i, F_TP_SRC, lo, hi, b)
      case TpSrc(hi, lo) => PortBit(i, F_TP_SRC, lo, hi, b)
      case PopVlan => if i == F_DL_VLAN then Some(false) else None
      case PushVlan => if i == F_DL_VLAN && VLAN !in k.populated then Some(b == 12) else None
      case _ => Written(Set(f), i, b)
  }

  /** The last action of the list that shows in the bit. */
  function LastShown(x: Context, actions: seq<Action>, i: nat, b: nat): Option<bool>
    requires Fits(x)
  {
    if actions == [] then None
    else
      var n := |actions| - 1;
      var last := if actions[n].Set? then Shown(SetAll(x, actions[..n]).key, actions[n].field, i, b) else None;
      if last.Some? then last else LastShown(x, actions[..n], i, b)
  }

  function Settle(write: Option<bool>, was: bool): bool {
    match write case None => was case Some(v) => v
  }

  /** The bit ends up the same by the last write and by the last action that shows in it. */
  predicate SameEnd(x: Context, actions: seq<Action>, i: nat, b: nat)
    requires Fits(x) && i < CFR_CELLS
  {
    var was := b in KeyToCfr(x.key)[i];
    Settle(LastWrite(actions, i, b), was) == Settle(LastShown(x, actions, i, b), was)
  }

  lemma TagGoes(x: Context, f: Field)
    requires Fits(x) && (f.PopVlan? || f.PushVlan?)
    ensures L2Cells(SetField(x, f).key) == L2Cells(x.key)[F_DL_VLAN :=
              if f.PopVlan? then {} else if VLAN in x.key.populated then L2Cells(x.key)[F_DL_VLAN] else CFI]
    ensures SameBut(x.key, SetField(x, f).key, {C_VLAN})
  {
    assert CFI + CFI == CFI;
    hide IsLength, NOT_ETH_TYPE, PORT_LOCAL, CFI;
  }

  lemma TagReparsed(x: Context, f: Field)
    requires Fits(x) && (f.PopVlan? || f.PushVlan?)
    ensures var c := KeyToCfr(x.key);
            Reparsed(x, f) == c[F_DL_VLAN := if f.PopVlan? then {} else if VLAN in x.key.populated then c[F_DL_VLAN] else CFI]
  {
    TagGoes(x, f);
    hide L2Cells, L3Cells, L4Cells, Ipv6Cells, Join, KeyToCfr, SetField, SameBut;
    var k := x.key;
    Regrouped(k, SetField(x, f).key, {C_VLAN}, 0);
    JoinSet(L2Cells(k), L3Cells(k), L4Cells(k), Ipv6Cells(k), F_DL_VLAN,
            if f.PopVlan? then {} else if VLAN in k.populated then L2Cells(k)[F_DL_VLAN] else CFI);
  }

  lemma NoHeaderShown(x: Context, f: Field)
    requires Fits(x) && !HasHeader(x.key, f)
    ensures Reparsed(x, f) == KeyToCfr(x.key)
  {
    assert SetField(x, f).key == x.key;
    hide KeyToCfr;
  }

  lemma SwappedShown(x: Context, f: Field, i: nat, b: nat)
    requires Fits(x) && Plain(x.key) && i < CFR_CELLS && HasHeader(x.key, f) && (f.Ipv4Dst? || f.Ipv4Src? || IsPortField(f))
    ensures b in Reparsed(x, f)[i] <==> Settle(Shown(x.key, f, i, b), b in KeyToCfr(x.key)[i])
  {
    hide KeyToCfr, Reparsed, UpdateOne, Swap32, Plain;
    if f.Ipv4Dst? {
      DstRewritesExactly(x, f.addr);
    } else if f.Ipv4Src? {
      SrcRewritesExactly(x, f.b0, f.b1, f.b2, f.b3);
    } else {
      PortRewritesExactly(x, f);
    }
  }

  lemma TagShown(x: Context, f: Field, i: nat, b: nat)
    requires Fits(x) && i < CFR_CELLS && (f.PopVlan? || f.PushVlan?)
    ensures b in Reparsed(x, f)[i] <==> Settle(Shown(x.key, f, i, b), b in KeyToCfr(x.key)[i])
  {
    hide KeyToCfr, Reparsed;
    TagReparsed(x, f);
  }

  /** Where rewriting and reading again agree on the one action. */
  lemma PlainShown(x: Context, f: Field, i: nat, b: nat)
    requires Fits(x) && Plain(x.key) && i < CFR_CELLS && HasHeader(x.key, f)
    requires !(f.Ipv4Dst? || f.Ipv4Src? || IsPortField(f) || f.PopVlan? || f.PushVlan?)
    ensures b in Reparsed(x, f)[i] <==> Settle(Shown(x.key, f, i, b), b in KeyToCfr(x.key)[i])
  {
    PresentHeader(x, f);
    OneWrite(KeyToCfr(x.key), Set(f), i, b);
    assert Shown(x.key, f, i, b) == Written(Set(f), i, b) by { hide Written; }
    hide KeyToCfr, Reparsed, UpdateOne, Written, Plain, HasHeader;
  }

  /** One action, read again. */
  lemma OneShown(x: Context, f: Field, i: nat, b: nat)
    requires Fits(x) && Plain(x.key) && i < CFR_CELLS
    ensures b in Reparsed(x, f)[i] <==> Settle(Shown(x.key, f, i, b), b in KeyToCfr(x.key)[i])
  {
    if !HasHeader(x.key, f) {
      NoHeaderShown(x, f);
    } else {
      hide Shown, KeyToCfr, Reparsed, Plain, HasHeader;
      if f.PopVlan? || f.PushVlan? {
        TagShown(x, f, i, b);
      } else if f.Ipv4Dst? || f.Ipv4Src? || IsPortField(f) {
        SwappedShown(x, f, i, b);
      } else {
        PlainShown(x, f, i, b);
      }
    }
  }

  lemma {:induction false} SetSnoc(x: Context, actions: seq<Action>, a: Action)
    requires Fits(x)
    ensures SetAll(x, actions + [a]) == var y := SetAll(x, actions); if a.Set? then SetField(y, a.field) else y
    decreases actions
  {
    hide SetField;
    var l := actions + [a];
    if actions == [] {
      assert l[1..] == [];
    } else {
      assert l[1..] == actions[1..] + [a];
      SetSnoc(if actions[0].Set? then SetField(x, actions[0].field) else x, actions[1..], a);
    }
  }

  lemma {:induction false} AllPlain(x: Context, actions: seq<Action>)
    requires Fits(x) && Plain(x.key)
    ensures Plain(SetAll(x, actions).key)
    decreases actions
  {
    hide SetField, Plain;
    if actions != [] {
      if actions[0].Set? {
        StillPlain(x, actions[0].field);
      }
      AllPlain(if actions[0].Set? then SetField(x, actions[0].field) else x, actions[1..]);
    }
  }

  /** What reading the packet again gives after a whole list. */
  lemma {:induction false} ListShows(x: Context, actions: seq<Action>, i: nat, b: nat)
    requires Fits(x) && Plain(x.key) && i < CFR_CELLS
    ensures b in KeyToCfr(SetAll(x, actions).key)[i] <==> Settle(LastShown(x, actions, i, b), b in KeyToCfr(x.key)[i])
    decreases |actions|
  {
    hide KeyToCfr, SetField, Shown, Plain;
    if actions != [] {
      var n := |actions| - 1;
      assert actions == actions[..n] + [actions[n]];
      ListShows(x, actions[..n], i, b);
      SetSnoc(x, actions[..n], actions[n]);
      AllPlain(x, actions[..n]);
      hide SetAll;
      if actions[n].Set? {
        OneShown(SetAll(x, actions[..n]), actions[n].field, i, b);
      }
    }
  }

  /**
   For every list: rewriting equals reading again exactly when every bit's last write and
   the last action that shows in it leave the same value.
   */
  lemma ListIsReparseExactly(x: Context, actions: seq<Action>)
    requires Fits(x) && Plain(x.key)
    ensures UpdateCfr(KeyToCfr(x.key), actions) == KeyToCfr(SetAll(x, actions).key) <==>
            forall i: nat, b: nat :: i < CFR_CELLS ==> SameEnd(x, actions, i, b)
  {
    hide KeyToCfr, SetAll, UpdateCfr, LastWrite, LastShown, Plain;
    var c, d := UpdateCfr(KeyToCfr(x.key), actions), KeyToCfr(SetAll(x, actions).key);
    forall i: nat, b: nat | i < CFR_CELLS ensures (b in c[i] <==> b in d[i]) <==> SameEnd(x, actions, i, b) {
      ListWrites(KeyToCfr(x.key), actions, i, b);
      ListShows(x, actions, i, b);
    }
    if forall i: nat, b: nat :: i < CFR_CELLS ==> SameEnd(x, actions, i, b) {
      hide SameEnd;
      forall i | 0 <= i < CFR_CELLS ensures c[i] == d[i] {
        forall b: nat ensures b in c[i] <==> b in d[i] {
          assert SameEnd(x, actions, i, b);
        }
      }
    }
  }
}
