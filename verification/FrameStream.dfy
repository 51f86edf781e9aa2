/** A stream parsed by looking at its front: what frames it holds, whatever a frame is. */
module FrameStream {
  import opened Bytes

  datatype Look<F, E> = NeedMore | Refuse(why: E) | Got(frame: F, size: nat)

  datatype End<E> = Open | Broken(why: E)

  /** The frames of a stream, the bytes left over, and the fault that ended it. */
  datatype Stream<F, E> = Stream(frames: seq<F>, rest: seq<byte>, end: End<E>)

  ghost function Parsed<F, E>(look: seq<byte> -> Look<F, E>, bytes: seq<byte>): Stream<F, E>
    decreases |bytes|
  {
    var seen := look(bytes);
    if seen.Refuse? then Stream([], bytes, Broken(seen.why))
    else if seen.NeedMore? || seen.size == 0 || seen.size > |bytes| then Stream([], bytes, Open)
    else
      var later := Parsed(look, bytes[seen.size..]);
      later.(frames := [seen.frame] + later.frames)
  }

  ghost predicate AdvancesAt<F(!new), E(!new)>(look: seq<byte> -> Look<F, E>, bytes: seq<byte>) {
    look(bytes).Got? ==> 0 < look(bytes).size <= |bytes|
  }

  ghost predicate Advances<F(!new), E(!new)>(look: seq<byte> -> Look<F, E>) {
    forall bytes {:trigger AdvancesAt(look, bytes)} :: AdvancesAt(look, bytes)
  }

  ghost predicate StableAt<F(!new), E(!new)>(look: seq<byte> -> Look<F, E>, a: seq<byte>, b: seq<byte>) {
    !look(a).NeedMore? ==> look(a + b) == look(a)
  }

  /** More bytes do not change what was made of those before. */
  ghost predicate IsStable<F(!new), E(!new)>(look: seq<byte> -> Look<F, E>) {
    forall a, b {:trigger StableAt(look, a, b)} :: StableAt(look, a, b)
  }

  /** A stream behind frames already handed out. */
  ghost function Behind<F, E>(out: seq<F>, s: Stream<F, E>): Stream<F, E> {
    s.(frames := out + s.frames)
  }

  lemma NextFrame<F(!new), E(!new)>(look: seq<byte> -> Look<F, E>, bytes: seq<byte>, out: seq<F>)
    requires Advances(look) && look(bytes).Got?
    ensures var seen := look(bytes);
            && 0 < seen.size <= |bytes|
            && Behind(out, Parsed(look, bytes)) == Behind(out + [seen.frame], Parsed(look, bytes[seen.size..]))
  {
    assert AdvancesAt(look, bytes);
    var seen := look(bytes);
    var later := Parsed(look, bytes[seen.size..]).frames;
    assert out + ([seen.frame] + later) == (out + [seen.frame]) + later;
  }

  /** Where a stream is cut does not matter: the second part is parsed behind what the first left over. */
  lemma {:induction false} CutsDoNotMatter<F(!new), E(!new)>(look: seq<byte> -> Look<F, E>, a: seq<byte>, b: seq<byte>)
    requires Advances(look) && IsStable(look)
    ensures var first, all := Parsed(look, a), Parsed(look, a + b);
            && (first.end == Open ==>
                  var second := Parsed(look, first.rest + b); all == second.(frames := first.frames + second.frames))
            && (first.end != Open ==> all.frames == first.frames && all.end == first.end && all.rest == first.rest + b)
    decreases |a|
  {
    var seen := look(a);
    assert AdvancesAt(look, a) && StableAt(look, a, b);
    if seen.Got? {
      CutsDoNotMatter(look, a[seen.size..], b);
      assert (a + b)[seen.size..] == a[seen.size..] + b;
    }
  }

  lemma {:induction false} SameLook<F(!new), E(!new)>(f: seq<byte> -> Look<F, E>, g: seq<byte> -> Look<F, E>,
                                                      bytes: seq<byte>)
    requires forall b {:trigger f(b)} :: f(b) == g(b)
    ensures Parsed(f, bytes) == Parsed(g, bytes)
    decreases |bytes|
  {
    var seen := f(bytes);
    if seen.Got? && 0 < seen.size <= |bytes| {
      SameLook(f, g, bytes[seen.size..]);
    }
  }
}
