/** The canonical writer and the sticky reader of payloads. */
module Fields {
  import opened Bytes
  import opened Grammar
  import opened Topology

  // ----- Writing -----

  class ByteWriter {
    var data: seq<byte>

    constructor ()
      ensures data == []
    {
      data := [];
    }

    method Put(value: nat, width: nat)
      modifies this
      ensures data == old(data) + LittleEndian(value, width)
    {
      data := data + LittleEndian(value, width);
    }

    method Raw(bytes: seq<byte>)
      modifies this
      ensures data == old(data) + bytes
    {
      data := data + bytes;
    }

    method PutRow(vs: seq<nat>, shapes: seq<Shape>)
      requires |vs| == |shapes|
      modifies this
      ensures data == old(data) + RowBytes(vs, shapes)
    {
      for k := 0 to |vs|
        invariant data + RowBytes(vs[k..], shapes[k..]) == old(data) + RowBytes(vs, shapes)
      {
        assert vs[k..][1..] == vs[k + 1..] && shapes[k..][1..] == shapes[k + 1..];
        Joined(data, LittleEndian(vs[k], shapes[k].width), RowBytes(vs[k + 1..], shapes[k + 1..]));
        Put(vs[k], shapes[k].width);
      }
      assert data + RowBytes([], []) == data;
    }
  }

  lemma Joined(a: seq<byte>, b: seq<byte>, c: seq<byte>)
    ensures (a + b) + c == a + (b + c)
  {
  }

  /** Writes a payload field by field; a sized part is written on its own and put behind its size. */
  method PutTree(w: ByteWriter, s: Schema, t: Tree)
    modifies w
    ensures w.data == old(w.data) + BytesOf(s, t)
    decreases s
  {
    match s
    case Values(shapes) =>
      if t.Row? && |t.values| == |shapes| {
        w.PutRow(t.values, shapes);
      }
    case All(parts) =>
      if t.Node? && |t.parts| == |parts| {
        PutParts(w, s, t.parts);
      }
    case Many(width, _, _) =>
      if t.Node? {
        w.Put(|t.parts|, width);
        PutParts(w, s, t.parts);
        Joined(old(w.data), LittleEndian(|t.parts|, width), PartsBytes(s, 0, t.parts));
      }
    case Sized(_, inner, _) =>
      var part := new ByteWriter();
      PutTree(part, inner, t);
      assert [] + BytesOf(inner, t) == BytesOf(inner, t);
      w.Put(|part.data|, 4);
      w.Raw(part.data);
      Joined(old(w.data), LittleEndian(|part.data|, 4), part.data);
  }

  method PutParts(w: ByteWriter, s: Schema, ts: seq<Tree>)
    requires s.IsList() && (s.All? ==> |ts| == |s.parts|)
    modifies w
    ensures w.data == old(w.data) + PartsBytes(s, 0, ts)
    decreases s, 0
  {
    for k := 0 to |ts|
      invariant w.data + PartsBytes(s, k, ts[k..]) == old(w.data) + PartsBytes(s, 0, ts)
    {
      assert ts[k..][1..] == ts[k + 1..];
      Joined(w.data, BytesOf(Part(s, k), ts[k]), PartsBytes(s, k + 1, ts[k + 1..]));
      PutTree(w, Part(s, k), ts[k]);
    }
    assert w.data + PartsBytes(s, |ts|, []) == w.data;
  }

  // ----- Reading -----

  class ByteReader {
    const bytes: seq<byte>
    var position: nat
    var ok: bool

    ghost predicate Valid()
      reads this
    {
      position <= |bytes|
    }

    /** What has not been read yet. */
    ghost function Ahead(): seq<byte>
      requires Valid()
      reads this
    {
      bytes[position..]
    }

    constructor (bytes: seq<byte>)
      ensures Valid() && this.bytes == bytes && ok && Ahead() == bytes
    {
      this.bytes := bytes;
      position, ok := 0, true;
    }

    /** Reads a field that stays below its bound: an enumeration, a truth value, a count, or a whole number. A failure
        is for good. */
    method Read(sh: Shape) returns (v: nat)
      requires Valid()
      modifies this
      ensures Valid()
      ensures ok <==> old(ok) && |old(Ahead())| >= sh.width && ValueOf(old(Ahead())[..sh.width]) < sh.bound
      ensures ok ==> v == ValueOf(old(Ahead())[..sh.width]) && Ahead() == old(Ahead())[sh.width..]
    {
      v := 0;
      if !ok {
        return;
      }
      if position + sh.width > |bytes| {
        ok := false;
        return;
      }
      assert bytes[position..][..sh.width] == bytes[position..position + sh.width];
      v := ValueOf(bytes[position..position + sh.width]);
      if v >= sh.bound {
        ok := false;
        return;
      }
      position := position + sh.width;
    }

    method AtEnd() returns (r: bool)
      requires Valid()
      ensures r <==> ok && Ahead() == []
    {
      r := ok && position == |bytes|;
    }
  }

  /** What is read behind values that have been read already. */
  function Behind<T>(before: seq<T>, later: Taken<seq<T>>): Taken<seq<T>> {
    if later.NotTaken? then NotTaken else Taken(before + later.value, later.rest)
  }

  lemma BehindNothing<T>(later: Taken<seq<T>>)
    ensures Behind([], later) == later
  {
    assert later.Taken? ==> [] + later.value == later.value;
  }

  lemma BehindOneMore<T>(before: seq<T>, x: T, later: Taken<seq<T>>)
    ensures Behind(before, Behind([x], later)) == Behind(before + [x], later)
  {
    assert later.Taken? ==> before + ([x] + later.value) == (before + [x]) + later.value;
  }

  /** Reads fields until one fails. */
  method TakeRow(r: ByteReader, shapes: seq<Shape>) returns (vs: seq<nat>)
    requires r.Valid()
    modifies r
    ensures r.Valid()
    ensures var p := ParseRow(shapes, old(r.Ahead()));
            if old(r.ok) && p.Taken? then r.ok && vs == p.value && r.Ahead() == p.rest else !r.ok
  {
    vs := [];
    ghost var p := ParseRow(shapes, r.Ahead());
    BehindNothing(p);
    assert shapes[0..] == shapes;
    for k := 0 to |shapes|
      invariant r.Valid() && |vs| == k && r.ok == old(r.ok)
      invariant r.ok ==> p == Behind(vs, ParseRow(shapes[k..], r.Ahead()))
    {
      assert shapes[k..][1..] == shapes[k + 1..];
      var v := r.Read(shapes[k]);
      if !r.ok {
        return;
      }
      BehindOneMore(vs, v, ParseRow(shapes[k + 1..], r.Ahead()));
      vs := vs + [v];
    }
  }

  /** Reads a payload field by field; a sized part is cut out and read on its own. */
  method TakeTree(r: ByteReader, s: Schema) returns (t: Tree)
    requires r.Valid()
    modifies r
    ensures r.Valid()
    ensures var p := Parse(s, old(r.Ahead()));
            if old(r.ok) && p.Taken? then r.ok && t == p.value && r.Ahead() == p.rest else !r.ok
    decreases s
  {
    t := Row([]);
    match s
    case Values(shapes) =>
      var vs := TakeRow(r, shapes);
      t := Row(vs);
    case All(parts) =>
      var ts := TakeParts(r, s, |parts|);
      t := Node(ts);
    case Many(width, most, _) =>
      var count := r.Read(Shape(width, most + 1));
      if r.ok {
        var ts := TakeParts(r, s, count);
        t := Node(ts);
      }
    case Sized(_, _, _) =>
      t := TakeSized(r, s);
  }

  method TakeSized(r: ByteReader, s: Schema) returns (t: Tree)
    requires r.Valid() && s.Sized?
    modifies r
    ensures r.Valid()
    ensures var p := Parse(s, old(r.Ahead()));
            if old(r.ok) && p.Taken? then r.ok && t == p.value && r.Ahead() == p.rest else !r.ok
    decreases s, 0
  {
    t := Row([]);
    var size := r.Read(Shape(4, s.most + 1));
    if !r.ok {
      return;
    }
    if size > |r.bytes| - r.position {
      r.ok := false;
      return;
    }
    assert r.Ahead()[..size] == r.bytes[r.position..r.position + size] == old(r.Ahead())[4..4 + size];
    assert r.Ahead()[size..] == old(r.Ahead())[4 + size..];
    var part := new ByteReader(r.bytes[r.position..r.position + size]);
    t := TakeTree(part, s.inner);
    var whole := part.AtEnd();
    r.position := r.position + size;
    r.ok := part.ok && (whole || !s.exact);
  }

  method TakeParts(r: ByteReader, s: Schema, n: nat) returns (ts: seq<Tree>)
    requires r.Valid() && s.IsList() && (s.All? ==> n == |s.parts|)
    modifies r
    ensures r.Valid()
    ensures var p := ParseParts(s, 0, n, old(r.Ahead()));
            if old(r.ok) && p.Taken? then r.ok && ts == p.value && r.Ahead() == p.rest else !r.ok
    decreases s, 0
  {
    ts := [];
    ghost var p := ParseParts(s, 0, n, r.Ahead());
    BehindNothing(p);
    for k := 0 to n
      invariant r.Valid() && |ts| == k && r.ok == old(r.ok)
      invariant r.ok ==> p == Behind(ts, ParseParts(s, k, n, r.Ahead()))
    {
      var t := TakeTree(r, Part(s, k));
      if !r.ok {
        return;
      }
      BehindOneMore(ts, t, ParseParts(s, k + 1, n, r.Ahead()));
      ts := ts + [t];
    }
  }

  // ----- Whole payloads -----

  method Encode(s: Schema, t: Tree) returns (bytes: seq<byte>)
    ensures bytes == BytesOf(s, t)
  {
    var w := new ByteWriter();
    PutTree(w, s, t);
    assert [] + BytesOf(s, t) == BytesOf(s, t);
    return w.data;
  }

  /** Reads bytes that are nothing but a payload of the format. */
  method Decode(s: Schema, bytes: seq<byte>) returns (t: Option<Tree>)
    ensures t == Whole(s, bytes)
  {
    var r := new ByteReader(bytes);
    var tree := TakeTree(r, s);
    var whole := r.AtEnd();
    return if whole then Some(tree) else None;
  }
}
