/**
 Packet keys and masks as memory: a sequence of cells, each the set of bit
 positions that are one in it.  Multi-byte cells hold the value the field has
 on the wire, so htons and ntohs disappear; code that skips a byte swap gets an
 explicit one.  The C code compares and ORs 32-bit words; here a cell is a struct
 field (or the piece of a union that one member occupies).
 */
module Cells {

  type Bits = set<nat>

  type Cells = seq<Bits>

  datatype Option<+T> = None | Some(value: T)

  /** 'a' and 'b' carry the same bits wherever 'm' has a one. */
  predicate CellAgree(a: Bits, b: Bits, m: Bits) {
    a * m == b * m
  }

  predicate Agree(a: Cells, b: Cells, m: Cells) {
    |a| == |b| == |m| && forall i :: 0 <= i < |m| ==> CellAgree(a[i], b[i], m[i])
  }

  /** Every one of 'm' is a one of 'n'. */
  predicate Below(m: Cells, n: Cells) {
    |m| == |n| && forall i :: 0 <= i < |m| ==> m[i] <= n[i]
  }

  function Or(a: Cells, b: Cells): (r: Cells)
    requires |a| == |b|
    ensures |r| == |a| && Below(a, r) && Below(b, r)
  {
    seq(|a|, i requires 0 <= i < |a| => a[i] + b[i])
  }

  function Zeroes(n: nat): (r: Cells)
    ensures |r| == n && forall m: Cells :: |m| == n ==> Below(r, m)
  {
    seq(n, i => {})
  }

  /** Agreement on a mask gives agreement on every smaller mask. */
  lemma AgreeMono(a: Cells, b: Cells, m: Cells, n: Cells)
    requires Below(m, n) && Agree(a, b, n)
    ensures Agree(a, b, m)
  {
    forall i | 0 <= i < |m| ensures CellAgree(a[i], b[i], m[i]) {
      assert a[i] * m[i] == (a[i] * n[i]) * m[i];
      assert b[i] * m[i] == (b[i] * n[i]) * m[i];
    }
  }

  function Xor(a: Bits, b: Bits): Bits {
    (a - b) + (b - a)
  }

  lemma XorAgree(a: Bits, b: Bits, m: Bits)
    ensures Xor(a, b) * m == {} <==> CellAgree(a, b, m)
  {
    if Xor(a, b) * m == {} {
      forall x | x in m ensures x in a <==> x in b {
        assert x !in Xor(a, b) * m;
      }
      assert a * m == b * m;
    }
    if CellAgree(a, b, m) {
      forall x | x in m ensures x !in Xor(a, b) {
        assert x in a * m <==> x in b * m;
      }
    }
  }

  /** memcmp_masked: chunk by chunk, stopping at the first masked difference. */
  method MemcmpMasked(a: Cells, b: Cells, m: Cells) returns (differs: bool)
    requires |a| == |b| == |m|
    ensures differs <==> !Agree(a, b, m)
  {
    var i := 0;
    while i < |m|
      invariant 0 <= i <= |m|
      invariant forall j :: 0 <= j < i ==> CellAgree(a[j], b[j], m[j])
    {
      XorAgree(a[i], b[i], m[i]);
      if Xor(a[i], b[i]) * m[i] != {} {
        return true;
      }
      i := i + 1;
    }
    return false;
  }

  /** memor: OR the source into the destination, one chunk at a time. */
  method Memor(dst: Cells, src: Cells) returns (r: Cells)
    requires |dst| == |src|
    ensures r == Or(dst, src)
  {
    r := dst;
    var i := 0;
    while i < |src|
      invariant 0 <= i <= |src| && |r| == |dst|
      invariant forall j :: 0 <= j < i ==> r[j] == dst[j] + src[j]
      invariant forall j :: i <= j < |r| ==> r[j] == dst[j]
    {
      r := r[i := r[i] + src[i]];
      i := i + 1;
    }
  }
}
