/** The xbuf object: appending, nesting and reallocation, and the reading loop. */
module XbufBuffer {
  import opened Cells
  import opened Probing
  import opened Xbuf
  import N = NextPow2

  /** Sizes up to 2^31 have a next power of two in 32 bits. */
  ghost predicate Sane(n: nat) {
    n <= Pow2(N.WIDTH - 1)
  }

  lemma SaneFits(n: nat)
    requires Sane(n)
    ensures n < Pow2(N.WIDTH)
  {
    N.WideEnough();
  }

  /** aim_realloc */
  method Copy(from: array<Byte>, n: nat, size: nat) returns (to: array<Byte>)
    requires n <= from.Length && n <= size
    ensures fresh(to) && to.Length == size && to[..n] == from[..n]
  {
    to := new Byte[size](i => 0);
    for i := 0 to n
      invariant to[..i] == from[..i]
    {
      to[i] := from[i];
    }
  }

  class Buffer {
    var data: array<Byte>
    var length: nat

    ghost predicate Valid()
      reads this, data
    {
      length <= data.Length
    }

    ghost function Contents(): seq<Byte>
      requires Valid()
      reads this, data
    {
      data[..length]
    }

    /** xbuf_init */
    constructor ()
      ensures Valid() && Contents() == [] && fresh(data)
    {
      length := 0;
      data := new Byte[INITIAL_LEN](i => 0);
    }

    /**
     xbuf_resize: the smallest power of two that holds 'n' bytes; a smaller one cuts the
     buffer off.  Where that power wraps to zero nothing is allocated and the program dies.
     */
    method Resize(n: nat) returns (alive: bool)
      requires Valid() && n < Pow2(N.WIDTH)
      modifies this`data
      ensures alive <==> 0 < n && Sane(n)
      ensures !alive ==> data == old(data)
      ensures alive ==> fresh(data) && n <= data.Length
      ensures alive ==> (exists e: nat :: data.Length == Pow2(e)) && forall f: nat :: Pow2(f) >= n ==> Pow2(f) >= data.Length
      ensures alive ==>
                var kept := if data.Length < old(data.Length) then data.Length else old(data.Length);
                data[..kept] == old(data[..kept])
      ensures Valid() <==> length <= data.Length
      ensures Valid() ==> Contents() == old(Contents())
    {
      hide N.Next, N.WIDTH, Pow2;
      N.WideEnough();
      N.NextWraps(n);
      var size := N.Next(n);
      if size == 0 {
        return false;
      }
      ghost var e := N.NextIsLeast(n);
      var kept := if size < data.Length then size else data.Length;
      data := Copy(data, kept, size);
      assert length <= size ==> data[..length] == data[..kept][..length];
      return true;
    }

    /** xbuf_resize_check */
    method ResizeCheck(n: nat)
      requires Valid() && length <= n && Sane(n)
      modifies this`data
      ensures Valid() && n <= data.Length && Contents() == old(Contents())
      ensures data == old(data) || fresh(data)
    {
      hide Pow2, N.WIDTH;
      if n > data.Length {
        SaneFits(n);
        var alive := Resize(n);
        assert alive;
      }
    }

    /** xbuf_append__: there must be room. */
    method Put(b: seq<Byte>)
      requires Valid() && length + |b| <= data.Length
      modifies this`length, data
      ensures Valid() && Contents() == old(Contents()) + b
    {
      var to, at := data, length;
      for i := 0 to |b|
        invariant to[..at] == old(to[..at]) && to[at..at + i] == b[..i] && length == at
      {
        to[at + i] := b[i];
      }
      assert to[..at + |b|] == old(data[..length]) + b;
      length := length + |b|;
    }

    /** xbuf_append_attr */
    method AppendAttr(kind: nat, p: seq<Byte>)
      requires Valid() && Sane(length + HDRLEN + Align(|p|))
      modifies this, data
      ensures Valid() && Contents() == old(Contents()) + Block(kind, p)
      ensures data == old(data) || fresh(data)
    {
      hide Sane, Header, Align;
      ResizeCheck(length + HDRLEN + Align(|p|));
      Put(Header(HDRLEN + |p|, kind));
      if |p| > 0 {
        Put(p);
        Put(Zeros(Align(|p|) - |p|));
      }
      assert |p| == 0 ==> Zeros(Align(|p|) - |p|) == [];
      assert Contents() == old(Contents()) + (Header(HDRLEN + |p|, kind) + p + Zeros(Align(|p|) - |p|));
    }

    /** xbuf_start_nest: the length is filled in later. */
    method StartNest(kind: nat) returns (offset: nat)
      requires Valid() && Sane(length + HDRLEN)
      modifies this, data
      ensures Valid() && Contents() == old(Contents()) + Header(0, kind) && offset == old(length)
      ensures data == old(data) || fresh(data)
    {
      hide Sane, Header;
      ResizeCheck(length + HDRLEN);
      Put(Header(0, kind));
      offset := length - HDRLEN;
    }

    /** xbuf_end_nest */
    method EndNest(offset: nat)
      requires Valid() && offset + HDRLEN <= length
      modifies data
      ensures Valid()
      ensures Contents() == old(Contents())[..offset] + Short(old(length) - offset) + old(Contents())[offset + 2..]
    {
      hide Short;
      var b := Short(length - offset);
      data[offset] := b[0];
      data[offset + 1] := b[1];
    }

    /** xbuf_compact */
    method Compact()
      requires Valid()
      modifies this`data
      ensures Valid() && fresh(data) && data.Length == length && Contents() == old(Contents())
    {
      data := Copy(data, length, length);
    }

    /** Build a tree with the calls above, whatever reallocations that takes. */
    method AppendTree(t: Node)
      requires Valid() && Sane(length + |Encode(t)|)
      modifies this, data
      ensures Valid() && Contents() == old(Contents()) + Encode(t)
      ensures data == old(data) || fresh(data)
      decreases t, 0
    {
      match t
      case Leaf(kind, p) =>
        AppendAttr(kind, p);
      case Nest(kind, children) =>
        ghost var before, body := Contents(), EncodeAll(children);
        var offset := StartNest(kind);
        AppendTrees(children);
        assert Contents() == before + Header(0, kind) + body;
        EndNest(offset);
        assert Contents() == before + Block(kind, body) by { Patched(before, kind, body); }
    }

    method AppendTrees(ts: seq<Node>)
      requires Valid() && Sane(length + |EncodeAll(ts)|)
      modifies this, data
      ensures Valid() && Contents() == old(Contents()) + EncodeAll(ts)
      ensures data == old(data) || fresh(data)
      decreases ts, 0
    {
      hide Encode;
      ghost var before := Contents();
      ghost var done: seq<Byte> := [];
      for i := 0 to |ts|
        invariant Valid() && Contents() == before + done && done + EncodeAll(ts[i..]) == EncodeAll(ts)
        invariant data == old(data) || fresh(data)
      {
        assert ts[i..][0] == ts[i] && ts[i..][1..] == ts[i + 1..];
        assert |done| + |Encode(ts[i])| <= |EncodeAll(ts)|;
        AppendTree(ts[i]);
        done := done + Encode(ts[i]);
      }
      assert done == EncodeAll(ts);
    }
  }

  lemma Patched(before: seq<Byte>, kind: nat, body: seq<Byte>)
    requires |body| % 4 == 0
    ensures var b := before + Header(0, kind) + body;
            b[..|before|] + Short(|b| - |before|) + b[|before| + 2..] == before + Block(kind, body)
  {
    hide Short, Align;
    var b := before + Header(0, kind) + body;
    assert b[..|before|] == before;
    assert b[|before| + 2..] == Short(kind) + body;
    assert Zeros(Align(|body|) - |body|) == [];
  }

  /** The attribute at a cursor, as the loop reads it; None where it would run off the buffer. */
  method At(b: seq<Byte>, at: nat, end: nat) returns (a: Option<Attr>, next: nat)
    requires at < end <= |b|
    ensures a == First(b[at..end])
    ensures a.Some? ==> at < next && Rest(b[at..end], a.value) == if next < end then b[next..end] else []
  {
    hide Align;
    a, next := None, at;
    if at + HDRLEN <= end {
      var len := Number(b[at], b[at + 1]);
      if HDRLEN <= len && at + len <= end {
        a := Some(Attr(Number(b[at + 2], b[at + 3]), b[at + HDRLEN..at + len]));
        next := at + Align(len);
        assert b[at..end][HDRLEN..len] == b[at + HDRLEN..at + len];
        assert next < end ==> b[at..end][Align(len)..] == b[next..end];
      }
    }
  }

  lemma ForestAttrs(b: seq<Byte>)
    ensures forall ts :: AllFit(ts) && b == EncodeAll(ts) ==> Attrs(b) == Some(Tops(ts))
  {
    hide Attrs, EncodeAll, AllFit, Tops;
    forall ts | AllFit(ts) && b == EncodeAll(ts) ensures Attrs(b) == Some(Tops(ts)) {
      AttrsOfForest(ts);
    }
  }

  /** XBUF_FOREACH: over a forest the loop meets its roots in order. */
  method ForEach(b: seq<Byte>) returns (attrs: Option<seq<Attr>>)
    ensures forall ts :: AllFit(ts) && b == EncodeAll(ts) ==> attrs == Some(Tops(ts))
  {
    hide First, Rest, EncodeAll, AllFit, Tops, Attrs;
    ForestAttrs(b);
    var met: seq<Attr> := [];
    var at, end := 0, |b|;
    assert b[0..end] == b && b[end..end] == [];
    AheadStart(b);
    while at < end
      invariant 0 <= at && Ahead(met, b[(if at < end then at else end)..end]) == Attrs(b)
      decreases end - at
    {
      var a, next := At(b, at, end);
      if a.None? {
        NoAttrs(b[at..end]);
        return None;
      }
      AheadStep(met, b[at..end], a.value);
      met, at := met + [a.value], next;
    }
    AheadEnd(met);
    return Some(met);
  }

  /** What was met, and what the walk over the rest will meet. */
  function Ahead(met: seq<Attr>, rest: seq<Byte>): Option<seq<Attr>> {
    match Attrs(rest)
    case None => None
    case Some(more) => Some(met + more)
  }

  lemma AheadStep(met: seq<Attr>, rest: seq<Byte>, a: Attr)
    requires First(rest) == Some(a)
    ensures Ahead(met, rest) == Ahead(met + [a], Rest(rest, a))
  {
    hide First, Rest;
    var more := Attrs(Rest(rest, a));
    if more.Some? {
      assert met + ([a] + more.value) == (met + [a]) + more.value;
    }
  }

  lemma NoAttrs(b: seq<Byte>)
    requires b != [] && First(b).None?
    ensures Attrs(b).None?
  {
  }

  lemma AheadStart(b: seq<Byte>)
    ensures Ahead([], b) == Attrs(b)
  {
    hide First, Rest;
    var more := Attrs(b);
    assert more.Some? ==> [] + more.value == more.value;
  }

  lemma AheadEnd(met: seq<Attr>)
    ensures Ahead(met, []) == Some(met)
  {
    assert met + [] == met;
  }

  // ---- trees ---------------------------------------------------------------------

  /** What was read, and what reading the rest will give. */
  function Reading(done: seq<Node>, rest: seq<Byte>, nested: nat -> bool): Option<seq<Node>> {
    match Decode(rest, nested)
    case None => None
    case Some(more) => Some(done + more)
  }

  function NodeOf(a: Attr, nested: nat -> bool): Option<Node> {
    if !nested(a.kind) then Some(Leaf(a.kind, a.payload))
    else
      match Decode(a.payload, nested)
      case None => None
      case Some(children) => Some(Nest(a.kind, children))
  }

  lemma ReadingStep(done: seq<Node>, rest: seq<Byte>, a: Attr, nested: nat -> bool)
    requires First(rest) == Some(a)
    ensures var t := NodeOf(a, nested);
            Reading(done, rest, nested) == if t.Some? then Reading(done + [t.value], Rest(rest, a), nested) else None
  {
    hide First, Rest;
    var t, more := NodeOf(a, nested), Decode(Rest(rest, a), nested);
    if t.Some? && more.Some? {
      assert done + ([t.value] + more.value) == (done + [t.value]) + more.value;
    }
  }

  lemma ReadingEnds(done: seq<Node>, b: seq<Byte>, nested: nat -> bool)
    ensures Reading(done, [], nested) == Some(done) && Reading([], b, nested) == Decode(b, nested)
  {
    hide First, Rest;
    assert done + [] == done;
    var more := Decode(b, nested);
    assert more.Some? ==> [] + more.value == more.value;
  }

  /** XBUF_FOREACH and XBUF_FOREACH_CHILD together: one cursor per level, on the same bytes. */
  method Walk(b: seq<Byte>, from: nat, end: nat, nested: nat -> bool) returns (r: Option<seq<Node>>)
    requires from <= end <= |b|
    ensures r == Decode(b[from..end], nested)
    decreases end - from
  {
    hide First, Rest, Decode;
    var done: seq<Node> := [];
    var at := from;
    ReadingEnds([], b[from..end], nested);
    assert b[end..end] == [];
    while at < end
      invariant from <= at
      invariant Reading(done, b[(if at < end then at else end)..end], nested) == Decode(b[from..end], nested)
      decreases end - at
    {
      var a, next := At(b, at, end);
      if a.None? {
        assert Decode(b[at..end], nested) == None by { NoFirst(b[at..end], nested); }
        return None;
      }
      ReadingStep(done, b[at..end], a.value, nested);
      assert Reading(done, b[at..end], nested) == Decode(b[from..end], nested);
      var t := Leaf(a.value.kind, a.value.payload);
      if nested(a.value.kind) {
        var inner := at + HDRLEN + |a.value.payload|;
        assert inner <= end && b[at + HDRLEN..inner] == a.value.payload by { PayloadAt(b, at, end); }
        var children := Walk(b, at + HDRLEN, inner, nested);
        if children.None? {
          return None;
        }
        t := Nest(a.value.kind, children.value);
      }
      done, at := done + [t], next;
    }
    ReadingEnds(done, [], nested);
    return Some(done);
  }

  lemma NoFirst(b: seq<Byte>, nested: nat -> bool)
    requires b != [] && First(b).None?
    ensures Decode(b, nested) == None
  {
  }

  lemma PayloadAt(b: seq<Byte>, at: nat, end: nat)
    requires at < end <= |b| && First(b[at..end]).Some?
    ensures var p := First(b[at..end]).value.payload;
            at + HDRLEN + |p| <= end && b[at + HDRLEN..at + HDRLEN + |p|] == p
  {
    var p := First(b[at..end]).value.payload;
    assert b[at..end][HDRLEN..HDRLEN + |p|] == p;
  }

  /** Build a forest with the buffer's calls, walk it with the loops: the same forest comes back. */
  method BuildAndWalk(ts: seq<Node>, nested: nat -> bool) returns (r: Option<seq<Node>>)
    requires AllFit(ts) && AllTyped(ts, nested) && Sane(|EncodeAll(ts)|)
    ensures r == Some(ts)
  {
    hide Sane, Decode, EncodeAll;
    var buffer := new Buffer();
    buffer.AppendTrees(ts);
    RoundTrip(ts, nested);
    var b := buffer.data[..buffer.length];
    assert b == EncodeAll(ts) && b[0..|b|] == b;
    r := Walk(b, 0, |b|, nested);
  }
}
