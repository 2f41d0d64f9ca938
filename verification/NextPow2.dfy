/** next_pow2 of xbuf.c: smear the bits of x - 1 to the right and add one. */
module NextPow2 {
  import opened Probing

  const WIDTH: nat := 32

  /** The number whose ones below bit 'w' are those of 's'. */
  function Num(s: set<nat>, w: nat): nat {
    if w == 0 then 0 else Num(s, w - 1) + if w - 1 in s then Pow2(w - 1) else 0
  }

  function BitsOf(n: nat, w: nat): (s: set<nat>)
    requires n < Pow2(w)
    ensures (forall b :: b in s ==> b < w) && Num(s, w) == n
  {
    if w == 0 then {}
    else if n < Pow2(w - 1) then
      var s := BitsOf(n, w - 1); s
    else
      var s := BitsOf(n - Pow2(w - 1), w - 1);
      NumMore(s, w - 1);
      s + {w - 1}
  }

  lemma {:induction false} NumSame(s: set<nat>, t: set<nat>, w: nat)
    requires forall b :: b < w ==> (b in s <==> b in t)
    ensures Num(s, w) == Num(t, w)
  {
    if w > 0 {
      NumSame(s, t, w - 1);
    }
  }

  lemma NumMore(s: set<nat>, w: nat)
    ensures Num(s + {w}, w) == Num(s, w)
  {
    NumSame(s + {w}, s, w);
  }

  /** Bits 0..w-1 of the number shifted right by k. */
  function ShiftRight(s: set<nat>, k: nat, w: nat := WIDTH): (r: set<nat>)
    ensures forall b: nat :: b in r <==> b < w && b + k in s
  {
    if w == 0 then {} else ShiftRight(s, k, w - 1) + if w - 1 + k in s then {w - 1} else {}
  }

  function Smear(s: set<nat>): set<nat> {
    var a := s + ShiftRight(s, 1);
    var b := a + ShiftRight(a, 2);
    var c := b + ShiftRight(b, 4);
    var d := c + ShiftRight(c, 8);
    d + ShiftRight(d, 16)
  }

  /** Every bit of 's' has spread over itself and the k - 1 bits below it. */
  ghost predicate Spread(s: set<nat>, r: set<nat>, k: nat) {
    && (forall b :: b in r ==> exists c :: c in s && b <= c < b + k)
    && (forall b: nat, c :: b < WIDTH && c in s && b <= c < b + k ==> b in r)
  }

  lemma SpreadTwice(s: set<nat>, r: set<nat>, k: nat)
    requires Spread(s, r, k) && forall c :: c in s ==> c < WIDTH
    ensures Spread(s, r + ShiftRight(r, k), 2 * k)
  {
    hide WIDTH;
    var t := r + ShiftRight(r, k);
    forall b | b in t ensures exists c :: c in s && b <= c < b + 2 * k {
      if b in r {
        var c :| c in s && b <= c < b + k;
      } else {
        var c :| c in s && b + k <= c < b + k + k;
      }
    }
    forall b: nat, c | b < WIDTH && c in s && b <= c < b + 2 * k ensures b in t {
      if c >= b + k {
        assert b + k in r;
      }
    }
  }

  lemma SmearSpreads(s: set<nat>)
    requires forall c :: c in s ==> c < WIDTH
    ensures Spread(s, Smear(s), 32)
  {
    var a := s + ShiftRight(s, 1);
    var b := a + ShiftRight(a, 2);
    var c := b + ShiftRight(b, 4);
    var d := c + ShiftRight(c, 8);
    hide ShiftRight, Spread, WIDTH;
    assert Spread(s, s, 1) by { SpreadStart(s); }
    SpreadTwice(s, s, 1);
    SpreadTwice(s, a, 2);
    SpreadTwice(s, b, 4);
    SpreadTwice(s, c, 8);
    SpreadTwice(s, d, 16);
  }

  lemma SpreadStart(s: set<nat>)
    ensures Spread(s, s, 1)
  {
  }

  lemma {:induction false} NumOfRun(s: set<nat>, m: nat, w: nat)
    requires m <= w && forall b: nat :: b < w ==> (b in s <==> b < m)
    ensures Num(s, w) == Pow2(m) - 1
  {
    if w > 0 {
      NumOfRun(s, if m < w then m else w - 1, w - 1);
    }
  }

  /** The top bit of a number. */
  lemma {:induction false} TopBit(s: set<nat>, w: nat) returns (m: nat)
    requires Num(s, w) > 0
    ensures m < w && m in s && Pow2(m) <= Num(s, w) < Pow2(m + 1)
    ensures forall b :: m < b < w ==> b !in s
  {
    if w - 1 in s {
      m := w - 1;
      NumBelow(s, w - 1);
    } else {
      m := TopBit(s, w - 1);
    }
  }

  lemma {:induction false} NumBelow(s: set<nat>, w: nat)
    ensures Num(s, w) < Pow2(w)
  {
    if w > 0 {
      NumBelow(s, w - 1);
    }
  }

  lemma {:induction false} Pow2Grows(a: nat, b: nat)
    requires a <= b
    ensures Pow2(a) <= Pow2(b)
  {
    if a < b {
      Pow2Grows(a, b - 1);
    }
  }

  /** x - 1 and the last + 1 wrap at 32 bits. */
  function Next(x: nat): nat
    requires x < Pow2(WIDTH)
  {
    var n := Num(Smear(BitsOf(if x == 0 then Pow2(WIDTH) - 1 else x - 1, WIDTH)), WIDTH) + 1;
    if n == Pow2(WIDTH) then 0 else n
  }

  /** The ones of a smeared number are all the bits up to its top bit. */
  lemma SmearRun(s: set<nat>, m: nat)
    requires m in s && (forall c :: c in s ==> c <= m) && m < WIDTH
    ensures Num(Smear(s), WIDTH) == Pow2(m + 1) - 1
  {
    hide Smear, Pow2, Num;
    SmearSpreads(s);
    forall b: nat | b < WIDTH ensures b in Smear(s) <==> b < m + 1 {
      if b in Smear(s) {
        var c :| c in s && b <= c < b + 32;
      } else {
        assert !(m in s && b <= m < b + 32);
      }
    }
    NumOfRun(Smear(s), m + 1, WIDTH);
  }

  lemma SmearNothing()
    ensures Num(Smear({}), WIDTH) == 0
  {
    hide Smear, WIDTH, Num;
    SmearSpreads({});
    assert Smear({}) == {};
    NumOfRun(Smear({}), 0, WIDTH);
  }

  lemma WideEnough()
    ensures 0 < WIDTH && 0 < Pow2(WIDTH - 1) < Pow2(WIDTH)
  {
    Positive(WIDTH - 1);
  }

  lemma Pow2Strict(e: nat)
    requires e < WIDTH
    ensures Pow2(e) < Pow2(WIDTH)
  {
    Pow2Grows(e, WIDTH - 1);
    WideEnough();
  }

  /** For x up to 2^31 it is the least power of two that is not below x. */
  lemma NextIsLeast(x: nat) returns (e: nat)
    requires 0 < x <= Pow2(WIDTH - 1)
    ensures e < WIDTH && Next(x) == Pow2(e) >= x
    ensures forall f: nat :: Pow2(f) >= x ==> Pow2(f) >= Next(x)
  {
    hide WIDTH, Smear, Num;
    WideEnough();
    var s := BitsOf(x - 1, WIDTH);
    if x == 1 {
      NoBits(s, WIDTH);
      SmearNothing();
      e := 0;
      Pow2Strict(0);
    } else {
      var m := TopBit(s, WIDTH);
      SmearRun(s, m);
      e := m + 1;
      assert m != WIDTH - 1;
      Pow2Strict(e);
      forall f: nat | Pow2(f) >= x ensures Pow2(f) >= Pow2(e) {
        if f <= m {
          Pow2Grows(f, m);
        } else {
          Pow2Grows(e, f);
        }
      }
    }
  }

  /** From 2^31 on, and for zero, the top bit is set and the result wraps to zero. */
  lemma NextWraps(x: nat)
    requires x < Pow2(WIDTH)
    ensures Next(x) == 0 <==> x == 0 || x > Pow2(WIDTH - 1)
  {
    hide WIDTH, Smear, Num;
    WideEnough();
    if 0 < x <= Pow2(WIDTH - 1) {
      var e := NextIsLeast(x);
    } else {
      var y := if x == 0 then Pow2(WIDTH) - 1 else x - 1;
      var s := BitsOf(y, WIDTH);
      var m := TopBit(s, WIDTH);
      TopIs(m, Num(s, WIDTH));
      SmearRun(s, m);
    }
  }

  lemma TopIs(m: nat, n: nat)
    requires Pow2(WIDTH - 1) <= n < Pow2(m + 1) && m < WIDTH
    ensures m == WIDTH - 1
  {
    Pow2Grows(m + 1, WIDTH);
    if m + 1 < WIDTH {
      Pow2Grows(m + 1, WIDTH - 1);
    }
  }

  lemma {:induction false} NoBits(s: set<nat>, w: nat)
    requires Num(s, w) == 0 && forall b :: b in s ==> b < w
    ensures s == {}
  {
    if w > 0 {
      Positive(w - 1);
      NoBits(s, w - 1);
    }
  }

  lemma {:induction false} Positive(k: nat)
    ensures Pow2(k) > 0
  {
    if k > 0 {
      Positive(k - 1);
    }
  }
}
