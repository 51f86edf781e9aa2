/** Payload formats: how fields, counted lists and sized parts become bytes, and how they are read back. */
module Grammar {
  import opened Bytes
  import opened Topology

  /** How wide a field is, and what its value stays below: an enumeration, a truth value, a count, or a whole number. */
  datatype Shape = Shape(width: nat, bound: nat)

  predicate IsShape(sh: Shape) {
    sh.width > 0 && sh.bound <= Pow256(sh.width)
  }

  predicate AreShapes(shapes: seq<Shape>) {
    forall i {:trigger IsShape(shapes[i])} :: 0 <= i < |shapes| ==> IsShape(shapes[i])
  }

  /** A format: fields, parts one behind the other, a counted list, or a part behind its size. What a sized part leaves
      of its bytes is an error, unless the part is not exact. */
  datatype Schema =
    | Values(shapes: seq<Shape>)
    | All(parts: seq<Schema>)
    | Many(width: nat, most: nat, item: Schema)
    | Sized(most: nat, inner: Schema, exact: bool)
  {
    predicate IsList() { All? || Many? }
  }

  /** What a payload says. */
  datatype Tree = Row(values: seq<nat>) | Node(parts: seq<Tree>)

  predicate IsSchema(s: Schema) {
    match s
    case Values(shapes) => AreShapes(shapes)
    case All(parts) => forall k :: 0 <= k < |parts| ==> IsSchema(parts[k])
    case Many(width, most, item) => width > 0 && most < Pow256(width) && IsSchema(item)
    case Sized(most, inner, _) => most < Pow256(4) && IsSchema(inner)
  }

  /** The format of one part of a list. */
  function Part(s: Schema, k: nat): (r: Schema)
    requires s.IsList() && (s.All? ==> k < |s.parts|)
    ensures r < s
    ensures IsSchema(s) ==> IsSchema(r)
  {
    if s.All? then s.parts[k] else s.item
  }

  // ----- Writing -----

  function RowBytes(vs: seq<nat>, shapes: seq<Shape>): seq<byte>
    requires |vs| == |shapes|
  {
    if vs == [] then [] else LittleEndian(vs[0], shapes[0].width) + RowBytes(vs[1..], shapes[1..])
  }

  /** The bytes of a payload; nothing is written of what does not have the form of its format. */
  function BytesOf(s: Schema, t: Tree): seq<byte>
    decreases s
  {
    match s
    case Values(shapes) => if t.Row? && |t.values| == |shapes| then RowBytes(t.values, shapes) else []
    case All(parts) => if t.Node? && |t.parts| == |parts| then PartsBytes(s, 0, t.parts) else []
    case Many(width, _, _) => if t.Node? then LittleEndian(|t.parts|, width) + PartsBytes(s, 0, t.parts) else []
    case Sized(_, inner, _) =>
      var bytes := BytesOf(inner, t);
      LittleEndian(|bytes|, 4) + bytes
  }

  /** The bytes of the parts from the `k`-th on. */
  function PartsBytes(s: Schema, k: nat, ts: seq<Tree>): seq<byte>
    requires s.IsList() && (s.All? ==> k + |ts| == |s.parts|)
    decreases s, |ts|
  {
    if ts == [] then [] else BytesOf(Part(s, k), ts[0]) + PartsBytes(s, k + 1, ts[1..])
  }

  predicate IsRow(vs: seq<nat>, shapes: seq<Shape>) {
    |vs| == |shapes| && forall i {:trigger vs[i]} :: 0 <= i < |vs| ==> vs[i] < shapes[i].bound
  }

  /** What a reader of the format accepts. */
  predicate Fits(s: Schema, t: Tree)
    decreases s
  {
    match s
    case Values(shapes) => t.Row? && IsRow(t.values, shapes)
    case All(parts) => t.Node? && |t.parts| == |parts| && forall k {:trigger t.parts[k]} :: 0 <= k < |parts| ==>
      Fits(parts[k], t.parts[k])
    case Many(_, most, item) => t.Node? && |t.parts| <= most && forall k {:trigger t.parts[k]} :: 0 <= k < |t.parts| ==>
      Fits(item, t.parts[k])
    case Sized(most, inner, _) => Fits(inner, t) && |BytesOf(inner, t)| <= most
  }

  // ----- Reading -----

  datatype Taken<+T> = Taken(value: T, rest: seq<byte>) | NotTaken

  function ParseRow(shapes: seq<Shape>, bytes: seq<byte>): (r: Taken<seq<nat>>)
    ensures r.Taken? ==> |r.value| == |shapes|
  {
    if shapes == [] then Taken([], bytes)
    else if |bytes| < shapes[0].width || ValueOf(bytes[..shapes[0].width]) >= shapes[0].bound then NotTaken
    else
      var later := ParseRow(shapes[1..], bytes[shapes[0].width..]);
      if later.NotTaken? then NotTaken else Taken([ValueOf(bytes[..shapes[0].width])] + later.value, later.rest)
  }

  /** Reads a payload of the format from the front of the bytes. */
  function Parse(s: Schema, bytes: seq<byte>): Taken<Tree>
    decreases s
  {
    match s
    case Values(shapes) =>
      var row := ParseRow(shapes, bytes);
      if row.NotTaken? then NotTaken else Taken(Row(row.value), row.rest)
    case All(parts) =>
      var all := ParseParts(s, 0, |parts|, bytes);
      if all.NotTaken? then NotTaken else Taken(Node(all.value), all.rest)
    case Many(width, most, _) =>
      if |bytes| < width || ValueOf(bytes[..width]) > most then NotTaken
      else
        var all := ParseParts(s, 0, ValueOf(bytes[..width]), bytes[width..]);
        if all.NotTaken? then NotTaken else Taken(Node(all.value), all.rest)
    case Sized(most, inner, exact) =>
      if |bytes| < 4 || ValueOf(bytes[..4]) > most || ValueOf(bytes[..4]) > |bytes| - 4 then NotTaken
      else
        var size := ValueOf(bytes[..4]);
        var part := Parse(inner, bytes[4..4 + size]);
        if part.NotTaken? || (exact && part.rest != []) then NotTaken else Taken(part.value, bytes[4 + size..])
  }

  /** Reads the parts from the `k`-th to the `n`-th. */
  function ParseParts(s: Schema, k: nat, n: nat, bytes: seq<byte>): (r: Taken<seq<Tree>>)
    requires s.IsList() && (s.All? ==> n == |s.parts|) && k <= n
    ensures r.Taken? ==> |r.value| == n - k
    decreases s, n - k
  {
    if k == n then Taken([], bytes) else
      var first := Parse(Part(s, k), bytes);
      if first.NotTaken? then NotTaken else
        var later := ParseParts(s, k + 1, n, first.rest);
        if later.NotTaken? then NotTaken else Taken([first.value] + later.value, later.rest)
  }

  // ----- What was written is read -----

  lemma {:induction false} RowReads(vs: seq<nat>, shapes: seq<Shape>, rest: seq<byte>)
    requires AreShapes(shapes) && IsRow(vs, shapes)
    ensures ParseRow(shapes, RowBytes(vs, shapes) + rest) == Taken(vs, rest)
    decreases |vs|
  {
    if vs != [] {
      assert IsShape(shapes[0]);
      var width := shapes[0].width;
      var first, later := LittleEndian(vs[0], width), RowBytes(vs[1..], shapes[1..]);
      ReadsBack(vs[0], width);
      ShapesBehind(shapes);
      RowReads(vs[1..], shapes[1..], rest);
      Regrouped(first, later, rest);
      assert vs == [vs[0]] + vs[1..];
    }
  }

  lemma ShapesBehind(shapes: seq<Shape>)
    requires AreShapes(shapes) && shapes != []
    ensures AreShapes(shapes[1..])
  {
    forall i | 0 <= i < |shapes[1..]|
      ensures IsShape(shapes[1..][i])
    {
      assert IsShape(shapes[i + 1]);
    }
  }

  lemma Regrouped(a: seq<byte>, b: seq<byte>, c: seq<byte>)
    ensures ((a + b) + c)[..|a|] == a && ((a + b) + c)[|a|..] == b + c
    ensures (a + b) + c == a + (b + c)
  {
  }

  /** A number, something behind it, and the rest. */
  lemma NumberInFront(x: nat, width: nat, b: seq<byte>, rest: seq<byte>)
    requires x < Pow256(width)
    ensures var bytes := (LittleEndian(x, width) + b) + rest;
            && |bytes| == width + |b| + |rest| && ValueOf(bytes[..width]) == x && bytes[width..] == b + rest
            && bytes[width..width + |b|] == b && bytes[width + |b|..] == rest
  {
    ReadsBack(x, width);
    Regrouped(LittleEndian(x, width), b, rest);
  }

  /** Whatever fits its format is read back as written, and what is behind it is left. */
  lemma {:induction false} TreeReads(s: Schema, t: Tree, rest: seq<byte>)
    requires IsSchema(s) && Fits(s, t)
    ensures Parse(s, BytesOf(s, t) + rest) == Taken(t, rest)
    decreases s
  {
    match s
    case Values(shapes) => RowReads(t.values, shapes, rest);
    case All(parts) => PartsRead(s, 0, t.parts, rest);
    case Many(width, most, _) =>
      PartsRead(s, 0, t.parts, rest);
      NumberInFront(|t.parts|, width, PartsBytes(s, 0, t.parts), rest);
    case Sized(most, inner, _) =>
      var bytes := BytesOf(inner, t);
      TreeReads(inner, t, []);
      assert bytes + [] == bytes;
      NumberInFront(|bytes|, 4, bytes, rest);
  }

  predicate PartsFit(s: Schema, k: nat, ts: seq<Tree>)
    requires s.IsList() && (s.All? ==> k + |ts| == |s.parts|)
  {
    forall i {:trigger ts[i]} :: 0 <= i < |ts| ==> Fits(Part(s, k + i), ts[i])
  }

  lemma FitBehind(s: Schema, k: nat, ts: seq<Tree>)
    requires s.IsList() && (s.All? ==> k + |ts| == |s.parts|) && PartsFit(s, k, ts) && ts != []
    ensures Fits(Part(s, k), ts[0]) && PartsFit(s, k + 1, ts[1..])
  {
    assert ts[0] == ts[0];
    forall i | 0 <= i < |ts[1..]|
      ensures Fits(Part(s, k + 1 + i), ts[1..][i])
    {
      assert ts[1..][i] == ts[i + 1];
    }
  }

  /** The first of several parts, read. */
  lemma PartRead(s: Schema, k: nat, ts: seq<Tree>, bytes: seq<byte>, later: seq<byte>, rest: seq<byte>)
    requires s.IsList() && (s.All? ==> k + |ts| == |s.parts|) && ts != []
    requires Parse(Part(s, k), bytes) == Taken(ts[0], later)
    requires ParseParts(s, k + 1, k + |ts|, later) == Taken(ts[1..], rest)
    ensures ParseParts(s, k, k + |ts|, bytes) == Taken(ts, rest)
  {
    assert ts == [ts[0]] + ts[1..];
  }

  lemma {:induction false} PartsRead(s: Schema, k: nat, ts: seq<Tree>, rest: seq<byte>)
    requires s.IsList() && IsSchema(s) && (s.All? ==> k + |ts| == |s.parts|) && PartsFit(s, k, ts)
    ensures ParseParts(s, k, k + |ts|, PartsBytes(s, k, ts) + rest) == Taken(ts, rest)
    decreases s, |ts|
  {
    if ts != [] {
      FitBehind(s, k, ts);
      var later := PartsBytes(s, k + 1, ts[1..]);
      TreeReads(Part(s, k), ts[0], later + rest);
      PartsRead(s, k + 1, ts[1..], rest);
      Regrouped(BytesOf(Part(s, k), ts[0]), later, rest);
      PartRead(s, k, ts, PartsBytes(s, k, ts) + rest, later + rest, rest);
    } else {
      assert PartsBytes(s, k, ts) + rest == rest;
    }
  }

  // ----- What is read was written so -----

  /** Nothing is passed over in a sized part. */
  predicate IsTight(s: Schema) {
    match s
    case Values(_) => true
    case All(parts) => forall k :: 0 <= k < |parts| ==> IsTight(parts[k])
    case Many(_, _, item) => IsTight(item)
    case Sized(_, inner, exact) => exact && IsTight(inner)
  }

  lemma {:induction false} RowIsWritten(shapes: seq<Shape>, bytes: seq<byte>)
    requires AreShapes(shapes)
    ensures var r := ParseRow(shapes, bytes);
            r.Taken? ==> IsRow(r.value, shapes) && bytes == RowBytes(r.value, shapes) + r.rest
    decreases |shapes|
  {
    var r := ParseRow(shapes, bytes);
    if shapes == [] {
      assert r.Taken? ==> RowBytes(r.value, shapes) + r.rest == bytes;
    } else if r.Taken? {
      var width := shapes[0].width;
      WritesBack(bytes[..width]);
      ShapesBehind(shapes);
      RowIsWritten(shapes[1..], bytes[width..]);
      assert r.value[1..] == ParseRow(shapes[1..], bytes[width..]).value;
      assert bytes == bytes[..width] + bytes[width..];
      Regrouped(bytes[..width], RowBytes(r.value[1..], shapes[1..]), r.rest);
    }
  }

  lemma NumberIsRead(bytes: seq<byte>, width: nat, size: nat)
    requires width + size <= |bytes|
    ensures (LittleEndian(ValueOf(bytes[..width]), width) + bytes[width..width + size]) + bytes[width + size..] == bytes
    ensures bytes[width..] == bytes[width..width + size] + bytes[width + size..]
  {
    WritesBack(bytes[..width]);
  }

  /** The bytes read, when nothing was passed over, are the ones `written`; otherwise there were at least as many. */
  predicate IsWritten(s: Schema, written: seq<byte>, bytes: seq<byte>, rest: seq<byte>) {
    |written| + |rest| <= |bytes| && (IsTight(s) ==> bytes == written + rest)
  }

  /** Whatever is read fits its format, and, when nothing was passed over, the bytes read are the ones it is written
      as. */
  lemma {:induction false} TreeIsWritten(s: Schema, bytes: seq<byte>)
    requires IsSchema(s)
    ensures var r := Parse(s, bytes); r.Taken? ==> Fits(s, r.value) && IsWritten(s, BytesOf(s, r.value), bytes, r.rest)
    decreases s
  {
    var r := Parse(s, bytes);
    match s
    case Values(shapes) => RowIsWritten(shapes, bytes);
    case All(parts) => PartsAreWritten(s, 0, |parts|, bytes);
    case Many(width, most, _) =>
      if r.Taken? {
        PartsAreWritten(s, 0, ValueOf(bytes[..width]), bytes[width..]);
        NumberIsRead(bytes, width, |bytes| - width - |r.rest|);
      }
    case Sized(most, inner, _) =>
      if r.Taken? {
        var size := ValueOf(bytes[..4]);
        TreeIsWritten(inner, bytes[4..4 + size]);
        assert BytesOf(inner, r.value) + [] == BytesOf(inner, r.value);
        NumberIsRead(bytes, 4, size);
      }
  }

  lemma FitFirst(s: Schema, k: nat, ts: seq<Tree>)
    requires s.IsList() && (s.All? ==> k + |ts| == |s.parts|) && ts != []
    requires Fits(Part(s, k), ts[0]) && PartsFit(s, k + 1, ts[1..])
    ensures PartsFit(s, k, ts)
  {
    forall i | 0 <= i < |ts|
      ensures Fits(Part(s, k + i), ts[i])
    {
      assert i > 0 ==> ts[i] == ts[1..][i - 1] && Part(s, k + i) == Part(s, k + 1 + (i - 1));
    }
  }

  lemma {:induction false} PartsAreWritten(s: Schema, k: nat, n: nat, bytes: seq<byte>)
    requires s.IsList() && IsSchema(s) && (s.All? ==> n == |s.parts|) && k <= n
    ensures var r := ParseParts(s, k, n, bytes);
            r.Taken? ==> PartsFit(s, k, r.value) && IsWritten(s, PartsBytes(s, k, r.value), bytes, r.rest)
    decreases s, n - k
  {
    var r := ParseParts(s, k, n, bytes);
    if k == n {
      assert r.Taken? ==> PartsBytes(s, k, r.value) + r.rest == bytes;
    } else if r.Taken? {
      var first := Parse(Part(s, k), bytes);
      TreeIsWritten(Part(s, k), bytes);
      PartsAreWritten(s, k + 1, n, first.rest);
      var later := ParseParts(s, k + 1, n, first.rest);
      assert r.value[1..] == later.value;
      FitFirst(s, k, r.value);
      Regrouped(BytesOf(Part(s, k), first.value), PartsBytes(s, k + 1, later.value), r.rest);
    }
  }

  // ----- Whole payloads -----

  /** What the bytes say, when they are nothing but a payload of the format. */
  function Whole(s: Schema, bytes: seq<byte>): Option<Tree> {
    var r := Parse(s, bytes);
    if r.Taken? && r.rest == [] then Some(r.value) else None
  }

  lemma WholeReads(s: Schema, t: Tree)
    requires IsSchema(s) && Fits(s, t)
    ensures Whole(s, BytesOf(s, t)) == Some(t)
  {
    TreeReads(s, t, []);
    assert BytesOf(s, t) + [] == BytesOf(s, t);
  }

  lemma WholeIsWritten(s: Schema, bytes: seq<byte>)
    requires IsSchema(s)
    ensures Whole(s, bytes).Some? ==> Fits(s, Whole(s, bytes).value)
    ensures Whole(s, bytes).Some? && IsTight(s) ==> bytes == BytesOf(s, Whole(s, bytes).value)
  {
    TreeIsWritten(s, bytes);
    var r := Parse(s, bytes);
    assert r.Taken? ==> BytesOf(s, r.value) + [] == BytesOf(s, r.value);
  }

  /** The same fields, of which `w` accepts at least as much. */
  predicate Looser(s: Schema, w: Schema) {
    match (s, w)
    case (Values(a), Values(b)) => |a| == |b| && forall i {:trigger a[i]} :: 0 <= i < |a| ==>
      a[i].width == b[i].width && a[i].bound <= b[i].bound
    case (All(a), All(b)) => |a| == |b| && forall k {:trigger a[k]} :: 0 <= k < |a| ==> Looser(a[k], b[k])
    case (Many(n, most, a), Many(m, more, b)) => n == m && most <= more && Looser(a, b)
    case (Sized(most, a, x), Sized(more, b, y)) => x == y && most <= more && Looser(a, b)
    case _ => false
  }

  lemma {:induction false} LooserRow(vs: seq<nat>, a: seq<Shape>, b: seq<Shape>)
    requires |vs| == |a| == |b| && forall i {:trigger a[i]} :: 0 <= i < |a| ==> a[i].width == b[i].width
    ensures RowBytes(vs, a) == RowBytes(vs, b)
    decreases |vs|
  {
    if vs != [] {
      LooserRow(vs[1..], a[1..], b[1..]);
    }
  }

  /** Only what is accepted differs, not what is written. */
  lemma {:induction false} LooserWrites(s: Schema, w: Schema, t: Tree)
    requires Looser(s, w)
    ensures BytesOf(s, t) == BytesOf(w, t)
    ensures Fits(s, t) ==> Fits(w, t)
    decreases s
  {
    match s
    case Values(shapes) =>
      if t.Row? && |t.values| == |shapes| {
        LooserRow(t.values, shapes, w.shapes);
      }
    case All(parts) =>
      if t.Node? && |t.parts| == |parts| {
        LooserParts(s, w, 0, t.parts);
      }
    case Many(_, _, _) =>
      if t.Node? {
        LooserParts(s, w, 0, t.parts);
      }
    case Sized(_, inner, _) => LooserWrites(inner, w.inner, t);
  }

  lemma {:induction false} LooserParts(s: Schema, w: Schema, k: nat, ts: seq<Tree>)
    requires Looser(s, w) && s.IsList() && (s.All? ==> k + |ts| == |s.parts|)
    ensures PartsBytes(s, k, ts) == PartsBytes(w, k, ts)
    ensures forall i {:trigger ts[i]} :: 0 <= i < |ts| ==> Fits(Part(s, k + i), ts[i]) ==> Fits(Part(w, k + i), ts[i])
    decreases s, |ts|
  {
    if ts != [] {
      LooserWrites(Part(s, k), Part(w, k), ts[0]);
      LooserParts(s, w, k + 1, ts[1..]);
      forall i | 0 <= i < |ts| && Fits(Part(s, k + i), ts[i])
        ensures Fits(Part(w, k + i), ts[i])
      {
        assert i > 0 ==> ts[i] == ts[1..][i - 1] && Part(s, k + i) == Part(s, k + 1 + (i - 1));
      }
    }
  }

  lemma {:induction false} LooserRowReads(a: seq<Shape>, b: seq<Shape>, bytes: seq<byte>)
    requires |a| == |b| && forall i {:trigger a[i]} :: 0 <= i < |a| ==>
             a[i].width == b[i].width && a[i].bound <= b[i].bound
    ensures ParseRow(a, bytes).Taken? ==> ParseRow(b, bytes) == ParseRow(a, bytes)
    decreases |a|
  {
    if a != [] && |bytes| >= a[0].width {
      LooserRowReads(a[1..], b[1..], bytes[a[0].width..]);
    }
  }

  /** Whatever is read with a format is read so with a looser one. */
  lemma {:induction false} LooserReads(s: Schema, w: Schema, bytes: seq<byte>)
    requires Looser(s, w)
    ensures Parse(s, bytes).Taken? ==> Parse(w, bytes) == Parse(s, bytes)
    decreases s
  {
    match s
    case Values(shapes) => LooserRowReads(shapes, w.shapes, bytes);
    case All(parts) => LooserPartsRead(s, w, 0, |parts|, bytes);
    case Many(width, most, _) =>
      if |bytes| >= width {
        LooserPartsRead(s, w, 0, ValueOf(bytes[..width]), bytes[width..]);
      }
    case Sized(_, inner, _) =>
      if |bytes| >= 4 && ValueOf(bytes[..4]) <= |bytes| - 4 {
        LooserReads(inner, w.inner, bytes[4..4 + ValueOf(bytes[..4])]);
      }
  }

  lemma {:induction false} LooserPartsRead(s: Schema, w: Schema, k: nat, n: nat, bytes: seq<byte>)
    requires Looser(s, w) && s.IsList() && (s.All? ==> n == |s.parts|) && k <= n
    ensures ParseParts(s, k, n, bytes).Taken? ==> ParseParts(w, k, n, bytes) == ParseParts(s, k, n, bytes)
    decreases s, n - k
  {
    if k < n {
      LooserReads(Part(s, k), Part(w, k), bytes);
      var first := Parse(Part(s, k), bytes);
      if first.Taken? {
        LooserPartsRead(s, w, k + 1, n, first.rest);
      }
    }
  }

  /** What was written is read back as written exactly when it fits the reader's format, and is refused otherwise. */
  lemma WholeDecides(s: Schema, w: Schema, t: Tree)
    requires IsSchema(s) && IsSchema(w) && Looser(s, w) && Fits(w, t)
    ensures Whole(s, BytesOf(w, t)) == if Fits(s, t) then Some(t) else None
  {
    LooserWrites(s, w, t);
    if Fits(s, t) {
      WholeReads(s, t);
    } else {
      LooserReads(s, w, BytesOf(w, t));
      WholeReads(w, t);
      WholeIsWritten(s, BytesOf(w, t));
    }
  }

  // ----- Sizes -----

  /** A list takes as many bytes when each of its parts does. */
  lemma {:induction false} PartsAsLong(s: Schema, k: nat, a: seq<Tree>, b: seq<Tree>)
    requires s.IsList() && |a| == |b| && (s.All? ==> k + |a| == |s.parts|)
    requires forall i {:trigger a[i]} :: 0 <= i < |a| ==>
             |BytesOf(Part(s, k + i), a[i])| == |BytesOf(Part(s, k + i), b[i])|
    ensures |PartsBytes(s, k, a)| == |PartsBytes(s, k, b)|
    decreases |a|
  {
    if a != [] {
      forall i | 0 <= i < |a[1..]|
        ensures |BytesOf(Part(s, k + 1 + i), a[1..][i])| == |BytesOf(Part(s, k + 1 + i), b[1..][i])|
      {
        assert a[1..][i] == a[i + 1] && Part(s, k + 1 + i) == Part(s, k + (i + 1));
      }
      assert a[0] == a[0];
      PartsAsLong(s, k + 1, a[1..], b[1..]);
    }
  }

  predicate EachAtMost(s: Schema, k: nat, ts: seq<Tree>, most: nat)
    requires s.IsList() && (s.All? ==> k + |ts| == |s.parts|)
  {
    forall i {:trigger ts[i]} :: 0 <= i < |ts| ==> |BytesOf(Part(s, k + i), ts[i])| <= most
  }

  lemma EachBehind(s: Schema, k: nat, ts: seq<Tree>, most: nat)
    requires s.IsList() && (s.All? ==> k + |ts| == |s.parts|) && ts != [] && EachAtMost(s, k, ts, most)
    ensures |BytesOf(Part(s, k), ts[0])| <= most && EachAtMost(s, k + 1, ts[1..], most)
  {
    assert ts[0] == ts[0];
    forall i | 0 <= i < |ts[1..]|
      ensures |BytesOf(Part(s, k + 1 + i), ts[1..][i])| <= most
    {
      assert ts[1..][i] == ts[i + 1] && Part(s, k + 1 + i) == Part(s, k + (i + 1));
    }
  }

  lemma {:induction false} PartsAtMost(s: Schema, k: nat, ts: seq<Tree>, most: nat)
    requires s.IsList() && (s.All? ==> k + |ts| == |s.parts|) && EachAtMost(s, k, ts, most)
    ensures |PartsBytes(s, k, ts)| <= most * |ts|
    decreases |ts|
  {
    if ts != [] {
      EachBehind(s, k, ts, most);
      PartsAtMost(s, k + 1, ts[1..], most);
      assert most * |ts| == most + most * |ts[1..]|;
    }
  }

  lemma ListAtMost(width: nat, most: nat, item: Schema, ts: seq<Tree>, each: nat)
    requires forall i {:trigger ts[i]} :: 0 <= i < |ts| ==> |BytesOf(item, ts[i])| <= each
    ensures |BytesOf(Many(width, most, item), Node(ts))| <= width + each * |ts|
  {
    PartsAtMost(Many(width, most, item), 0, ts, each);
  }

  lemma EightAtMost(parts: seq<Schema>, ts: seq<Tree>, most: nat)
    requires |parts| == |ts| == 8
    requires |BytesOf(parts[0], ts[0])| <= most && |BytesOf(parts[1], ts[1])| <= most
             && |BytesOf(parts[2], ts[2])| <= most
    requires |BytesOf(parts[3], ts[3])| <= most && |BytesOf(parts[4], ts[4])| <= most
             && |BytesOf(parts[5], ts[5])| <= most
    requires |BytesOf(parts[6], ts[6])| <= most && |BytesOf(parts[7], ts[7])| <= most
    ensures |BytesOf(All(parts), Node(ts))| <= 8 * most
  {
    PartsAtMost(All(parts), 0, ts, most);
  }

  lemma EightFit(parts: seq<Schema>, ts: seq<Tree>)
    requires |parts| == |ts| == 8
    ensures Fits(All(parts), Node(ts)) <==>
            Fits(parts[0], ts[0]) && Fits(parts[1], ts[1]) && Fits(parts[2], ts[2]) && Fits(parts[3], ts[3])
            && Fits(parts[4], ts[4]) && Fits(parts[5], ts[5]) && Fits(parts[6], ts[6]) && Fits(parts[7], ts[7])
  {
    var t := Node(ts);
    assert forall k {:trigger t.parts[k]} :: 0 <= k < 8 ==>
           k == 0 || k == 1 || k == 2 || k == 3 || k == 4 || k == 5 || k == 6 || k == 7;
  }
}
