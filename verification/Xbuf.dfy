/**
 xbuf: a growing byte buffer that holds a forest of netlink-style attributes,
 each a length, a type and a payload padded to four bytes.
 */
module Xbuf {
  import opened Cells

  type Byte = x: int | 0 <= x < 256

  const HDRLEN: nat := 4
  const LIMIT: nat := 65536
  const INITIAL_LEN: nat := 64

  /** A payload, or attributes inside an attribute. */
  datatype Node = Leaf(kind: nat, payload: seq<Byte>) | Nest(kind: nat, children: seq<Node>)

  /** NLA_ALIGN */
  function Align(n: nat): (r: nat)
    ensures n <= r < n + 4 && r % 4 == 0 && (n % 4 == 0 ==> r == n)
  {
    (n + 3) / 4 * 4
  }

  /** A 16-bit field, truncated as the C assignment does. */
  function Short(n: nat): (b: seq<Byte>)
    ensures |b| == 2
  {
    [n % 256, n / 256 % 256]
  }

  function Number(lo: Byte, hi: Byte): nat {
    lo + 256 * hi
  }

  lemma ShortNumber(n: nat)
    requires n < LIMIT
    ensures Number(Short(n)[0], Short(n)[1]) == n
  {
  }

  function Header(len: nat, kind: nat): (b: seq<Byte>)
    ensures |b| == HDRLEN
  {
    Short(len) + Short(kind)
  }

  function Zeros(n: nat): (b: seq<Byte>)
    ensures |b| == n
  {
    seq(n, i => 0)
  }

  /** Header, payload and padding; the attributes inside a nested one need no padding. */
  function Block(kind: nat, p: seq<Byte>): (b: seq<Byte>)
    ensures |b| == HDRLEN + Align(|p|) && |b| % 4 == 0
  {
    Header(HDRLEN + |p|, kind) + p + Zeros(Align(|p|) - |p|)
  }

  /** The bytes of a tree. */
  function Encode(t: Node): (b: seq<Byte>)
    ensures |b| % 4 == 0 && |b| >= HDRLEN
    decreases t, 0
  {
    match t
    case Leaf(kind, p) => Block(kind, p)
    case Nest(kind, children) => Block(kind, EncodeAll(children))
  }

  function EncodeAll(ts: seq<Node>): (b: seq<Byte>)
    ensures |b| % 4 == 0
    decreases ts, 0
  {
    if ts == [] then [] else Encode(ts[0]) + EncodeAll(ts[1..])
  }

  /** Every length and type fits its 16 bits. */
  predicate Fits(t: Node)
    decreases t, 0
  {
    && t.kind < LIMIT
    && match t
       case Leaf(_, p) => HDRLEN + |p| < LIMIT
       case Nest(_, children) => HDRLEN + |EncodeAll(children)| < LIMIT && AllFit(children)
  }

  predicate AllFit(ts: seq<Node>)
    decreases ts, 0
  {
    ts == [] || (Fits(ts[0]) && AllFit(ts[1..]))
  }

  // ---- reading -----------------------------------------------------------------

  datatype Attr = Attr(kind: nat, payload: seq<Byte>)

  /** The first attribute of a buffer, if one is there. */
  function First(b: seq<Byte>): (r: Option<Attr>)
    ensures r.Some? ==> |b| >= HDRLEN && |r.value.payload| + HDRLEN <= |b|
  {
    if |b| < HDRLEN then None
    else
      var len := Number(b[0], b[1]);
      if len < HDRLEN || |b| < len then None
      else Some(Attr(Number(b[2], b[3]), b[HDRLEN..len]))
  }

  /** Where the cursor of XBUF_FOREACH goes next. */
  function Rest(b: seq<Byte>, a: Attr): (r: seq<Byte>)
    requires |a.payload| + HDRLEN <= |b|
    ensures |r| < |b|
  {
    var next := Align(HDRLEN + |a.payload|);
    if next < |b| then b[next..] else []
  }

  /** XBUF_FOREACH; None where the loop would run off the buffer. */
  function Attrs(b: seq<Byte>): Option<seq<Attr>>
    decreases |b|
  {
    if b == [] then Some([])
    else
      match First(b)
      case None => None
      case Some(a) =>
        match Attrs(Rest(b, a))
        case None => None
        case Some(more) => Some([a] + more)
  }

  /** Read a forest back, going down with XBUF_FOREACH_CHILD where the type says so. */
  function Decode(b: seq<Byte>, nested: nat -> bool): Option<seq<Node>>
    decreases |b|
  {
    if b == [] then Some([])
    else
      match First(b)
      case None => None
      case Some(a) =>
        match Decode(Rest(b, a), nested)
        case None => None
        case Some(more) =>
          if nested(a.kind) then
            match Decode(a.payload, nested)
            case None => None
            case Some(children) => Some([Nest(a.kind, children)] + more)
          else Some([Leaf(a.kind, a.payload)] + more)
  }

  /** Types tell nested attributes from plain ones. */
  predicate Typed(t: Node, nested: nat -> bool)
    decreases t, 0
  {
    match t
    case Leaf(kind, _) => !nested(kind)
    case Nest(kind, children) => nested(kind) && AllTyped(children, nested)
  }

  predicate AllTyped(ts: seq<Node>, nested: nat -> bool)
    decreases ts, 0
  {
    ts == [] || (Typed(ts[0], nested) && AllTyped(ts[1..], nested))
  }

  function Payload(t: Node): seq<Byte> {
    match t
    case Leaf(_, p) => p
    case Nest(_, children) => EncodeAll(children)
  }

  /** Reading what was just written: the attribute comes back, and the cursor stands behind it. */
  lemma ReadsBack(t: Node, tail: seq<Byte>)
    requires Fits(t)
    ensures First(Encode(t) + tail) == Some(Attr(t.kind, Payload(t)))
    ensures Rest(Encode(t) + tail, Attr(t.kind, Payload(t))) == tail
  {
    var p := Payload(t);
    assert Encode(t) == Block(t.kind, p);
    ShortNumber(HDRLEN + |p|);
    ShortNumber(t.kind);
    hide Encode, Short, Align;
    var b := Encode(t) + tail;
    var h := Header(HDRLEN + |p|, t.kind);
    assert b == h + p + Zeros(Align(|p|) - |p|) + tail;
    assert b[0] == h[0] && b[1] == h[1] && b[2] == h[2] && b[3] == h[3];
    assert b[HDRLEN..HDRLEN + |p|] == p;
    AlignHeader(|p|);
    assert |Encode(t)| == Align(HDRLEN + |p|);
    assert b[|Encode(t)|..] == tail;
  }

  /** A payload that a 16-bit length can name reads back exactly when header and payload fit 16 bits. */
  lemma LeafReadsBackExactly(kind: nat, p: seq<Byte>, tail: seq<Byte>)
    requires kind < LIMIT && |p| < LIMIT
    ensures First(Block(kind, p) + tail) == Some(Attr(kind, p)) <==> HDRLEN + |p| < LIMIT
  {
    hide Short, Align, Number;
    var b, n := Block(kind, p) + tail, HDRLEN + |p|;
    if n < LIMIT {
      ReadsBack(Leaf(kind, p), tail);
      assert Encode(Leaf(kind, p)) == Block(kind, p);
    } else {
      ShortWraps(n);
      assert b[0] == Short(n)[0] && b[1] == Short(n)[1];
    }
  }

  lemma ShortWraps(n: nat)
    requires LIMIT <= n < LIMIT + HDRLEN
    ensures Number(Short(n)[0], Short(n)[1]) < HDRLEN
  {
  }

  lemma AlignHeader(n: nat)
    ensures Align(HDRLEN + n) == HDRLEN + Align(n)
  {
  }

  /** The round trip. */
  lemma {:induction false} RoundTrip(ts: seq<Node>, nested: nat -> bool)
    requires AllFit(ts) && AllTyped(ts, nested)
    ensures Decode(EncodeAll(ts), nested) == Some(ts)
    decreases ts
  {
    if ts != [] {
      var t, tail := ts[0], EncodeAll(ts[1..]);
      ReadsBack(t, tail);
      RoundTrip(ts[1..], nested);
      assert ts == [t] + ts[1..];
      if t.Nest? {
        RoundTrip(t.children, nested);
      }
      hide Encode, First, Rest;
    }
  }

  /** The attributes at the top of a forest. */
  function Tops(ts: seq<Node>): seq<Attr> {
    if ts == [] then [] else [Attr(ts[0].kind, Payload(ts[0]))] + Tops(ts[1..])
  }

  /** Walking a forest yields its roots in order, each with its payload. */
  lemma {:induction false} AttrsOfForest(ts: seq<Node>)
    requires AllFit(ts)
    ensures Attrs(EncodeAll(ts)) == Some(Tops(ts))
    decreases ts
  {
    if ts != [] {
      ReadsBack(ts[0], EncodeAll(ts[1..]));
      AttrsOfForest(ts[1..]);
      hide Encode, First, Rest;
    }
  }
}
