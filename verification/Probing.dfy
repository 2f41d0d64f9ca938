/**
 Triangular probing: slots h, h+1, h+3, h+6, ... modulo a power of two.
 In a table of 2^k slots the first 2^k probes visit every slot exactly once.
 */
module Probing {
  import opened Arith

  function Pow2(k: nat): (r: nat)
    ensures r >= 1
  {
    if k == 0 then 1 else 2 * Pow2(k - 1)
  }

  /** 0, 1, 3, 6, ...: step_size after step_num steps. */
  function Triangle(n: nat): nat {
    if n == 0 then 0 else Triangle(n - 1) + n
  }

  function Slot(h: nat, n: nat, size: nat): (r: nat)
    requires size > 0
    ensures r < size
  {
    (h + Triangle(n)) % size
  }

  lemma {:induction false} TwiceTriangle(n: nat)
    ensures 2 * Triangle(n) == n * (n + 1)
  {
    if n > 0 {
      TwiceTriangle(n - 1);
      assert (n - 1) * n + 2 * n == n * (n + 1);
    }
  }

  ghost predicate Divides(p: nat, b: nat) {
    exists c: nat :: b == p * c
  }

  /** An odd factor does not help a power of two divide a product. */
  lemma {:induction false} OddFactor(a: nat, b: nat, m: nat, q: nat)
    requires a % 2 == 1 && a * b == Pow2(m) * q
    ensures Divides(Pow2(m), b)
    decreases m
  {
    if m == 0 {
      assert b == Pow2(0) * b;
    } else {
      MulAssoc(2, Pow2(m - 1), q);
      HalveProduct(a, b, Pow2(m - 1) * q);
      OddFactor(a, b / 2, m - 1, q);
      DoubleDivides(Pow2(m - 1), b);
    }
  }

  lemma HalveProduct(a: nat, b: nat, n: nat)
    requires a % 2 == 1 && a * b == 2 * n
    ensures b % 2 == 0 && a * (b / 2) == n
  {
    if b % 2 == 1 {
      OddProduct(a, b);
    } else {
      MulDouble(a, b / 2);
    }
  }

  lemma MulDouble(a: int, b: int)
    ensures a * (2 * b) == 2 * (a * b)
  {
  }

  lemma MulAssoc(a: int, b: int, c: int)
    ensures a * b * c == a * (b * c)
  {
  }

  lemma DoubleDivides(p: nat, b: nat)
    requires b % 2 == 0 && Divides(p, b / 2)
    ensures Divides(2 * p, b)
  {
    var c: nat :| b / 2 == p * c;
    MulAssoc(2, p, c);
    assert b == 2 * p * c;
  }

  lemma OddProduct(a: nat, b: nat)
    requires a % 2 == 1 && b % 2 == 1
    ensures (a * b) % 2 == 1
  {
    var x, y := a / 2, b / 2;
    assert a == 2 * x + 1 && b == 2 * y + 1;
    assert a * b == 2 * (x * b + y) + 1 by {
      assert a * b == 2 * x * b + b;
    }
  }

  lemma NoSmallMultiple(b: nat, p: nat)
    requires 0 < b < p
    ensures !Divides(p, b)
  {
    forall c: nat ensures b != p * c {
      if c > 0 {
        MulAtLeast(p, c);
      }
    }
  }

  lemma DifferenceOfTriangles(i: nat, j: nat)
    requires i < j
    ensures 2 * (Triangle(j) - Triangle(i)) == (j - i) * (j + i + 1)
  {
    TwiceTriangle(i);
    TwiceTriangle(j);
    assert (j - i) * (j + i + 1) == j * (j + 1) - i * (i + 1);
  }

  lemma SameRemainder(a: nat, b: nat, p: nat)
    requires p > 0 && a <= b && a % p == b % p
    ensures b - a == p * (b / p - a / p) && b / p >= a / p
  {
    assert a == p * (a / p) + a % p;
    assert b == p * (b / p) + b % p;
    MulSub(p, b / p, a / p);
    if b / p < a / p {
      MulSub(p, a / p, b / p);
      MulAtLeast(p, a / p - b / p);
    }
  }

  lemma {:induction false} TriangleMono(i: nat, j: nat)
    requires i <= j
    ensures Triangle(i) <= Triangle(j)
    decreases j
  {
    if i < j {
      TriangleMono(i, j - 1);
    }
  }

  lemma TriangleGap(h: nat, k: nat, i: nat, j: nat) returns (q: nat)
    requires i < j && Slot(h, i, Pow2(k)) == Slot(h, j, Pow2(k))
    ensures (j - i) * (j + i + 1) == Pow2(k + 1) * q
  {
    var p := Pow2(k);
    TriangleMono(i, j);
    SameRemainder(h + Triangle(i), h + Triangle(j), p);
    q := (h + Triangle(j)) / p - (h + Triangle(i)) / p;
    DifferenceOfTriangles(i, j);
    MulAssoc(2, p, q);
  }

  /** One even and one odd number below 2^m: their product is no multiple of 2^m. */
  lemma NoMultiple(x: nat, y: nat, m: nat, q: nat)
    requires 0 < x < Pow2(m) && 0 < y < Pow2(m) && x % 2 != y % 2
    ensures x * y != Pow2(m) * q
  {
    hide Pow2, Divides;
    NoSmallMultiple(x, Pow2(m));
    NoSmallMultiple(y, Pow2(m));
    if x * y == Pow2(m) * q {
      if x % 2 == 1 {
        OddFactor(x, y, m, q);
      } else {
        MulCommutes(x, y);
        OddFactor(y, x, m, q);
      }
    }
  }

  /** Two different steps below 2^k never probe the same slot. */
  lemma ProbesDistinct(h: nat, k: nat, i: nat, j: nat)
    requires i < j < Pow2(k)
    ensures Slot(h, i, Pow2(k)) != Slot(h, j, Pow2(k))
  {
    hide Slot;
    if Slot(h, i, Pow2(k)) == Slot(h, j, Pow2(k)) {
      var q := TriangleGap(h, k, i, j);
      NoMultiple(j - i, j + i + 1, k + 1, q);
    }
  }

  lemma MulCommutes(a: int, b: int)
    ensures a * b == b * a
  {
  }

  /** The slots probed in the first 'n' steps. */
  function Visited(h: nat, n: nat, size: nat): set<nat>
    requires size > 0
  {
    set i | 0 <= i < n :: Slot(h, i, size)
  }

  lemma {:induction false} VisitedCount(h: nat, k: nat, n: nat)
    requires n <= Pow2(k)
    ensures |Visited(h, n, Pow2(k))| == n
  {
    if n > 0 {
      var v := Visited(h, n - 1, Pow2(k));
      VisitedCount(h, k, n - 1);
      var s := Slot(h, n - 1, Pow2(k));
      if s in v {
        var i :| 0 <= i < n - 1 && Slot(h, i, Pow2(k)) == s;
        ProbesDistinct(h, k, i, n - 1);
      }
      assert Visited(h, n, Pow2(k)) == v + {s};
    }
  }

  function Range(n: nat): set<nat> {
    if n == 0 then {} else Range(n - 1) + {n - 1}
  }

  lemma {:induction false} RangeIs(n: nat)
    ensures |Range(n)| == n && forall i: nat :: i in Range(n) <==> i < n
  {
    if n > 0 {
      RangeIs(n - 1);
    }
  }

  lemma SubsetOfEqualSize<T>(a: set<T>, b: set<T>)
    requires a <= b && |a| == |b|
    ensures a == b
  {
    if x :| x in b && x !in a {
      assert a <= b - {x};
      SubsetSize(a, b - {x});
    }
  }

  lemma {:induction false} SubsetSize<T>(a: set<T>, b: set<T>)
    requires a <= b
    ensures |a| <= |b|
  {
    if x :| x in a {
      SubsetSize(a - {x}, b - {x});
    }
  }

  /** Every slot of a 2^k table is probed, once, within the first 2^k steps. */
  lemma ProbesCover(h: nat, k: nat, s: nat)
    requires s < Pow2(k)
    ensures exists n: nat :: n < Pow2(k) && Slot(h, n, Pow2(k)) == s
    ensures forall m: nat, n: nat :: m < n < Pow2(k) && Slot(h, m, Pow2(k)) == s ==> Slot(h, n, Pow2(k)) != s
  {
    hide Slot;
    var size := Pow2(k);
    VisitedCount(h, k, size);
    RangeIs(size);
    SubsetOfEqualSize(Visited(h, size, size), Range(size));
    assert s in Visited(h, size, size);
    forall m: nat, n: nat | m < n < size && Slot(h, m, size) == s ensures Slot(h, n, size) != s {
      ProbesDistinct(h, k, m, n);
    }
  }
}
