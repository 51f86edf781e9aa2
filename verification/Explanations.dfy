/** The reasons a finding carries: kept in order, bounded in number, and their texts cut where they are too long. */
module Explanations {
  import opened Lists

  /** A code, what it is about, and a text; both are strings of bytes. */
  datatype Reason = Reason(code: nat, subject: seq<nat>, detail: seq<nat>)

  const SUBJECT_BYTES: nat := 128
  const DETAIL_BYTES: nat := 192

  // ----- Texts -----

  /** A byte in the middle of a character of several bytes. */
  predicate IsContinuation(b: nat) {
    b / 64 % 4 == 2
  }

  /** Where a text is cut: at the bound, or before the character that lies across it. */
  function CutAt(text: seq<nat>, cut: nat): (r: nat)
    requires cut < |text|
    ensures r <= cut && (r > 0 ==> !IsContinuation(text[r]))
    ensures forall i :: r < i <= cut ==> IsContinuation(text[i])
  {
    if cut > 0 && IsContinuation(text[cut]) then CutAt(text, cut - 1) else cut
  }

  const DOT: nat := 46
  const DOTS: seq<nat> := [DOT, DOT, DOT]

  function Bounded(text: seq<nat>, most: nat): (r: seq<nat>)
    ensures |r| <= most + 3 && (|text| <= most ==> r == text)
  {
    if |text| <= most then text else text[..CutAt(text, most)] + DOTS
  }

  /** A text that was cut is not cut differently when it is bounded again exactly when the cut fell on the bound, or
      left room for the dots: one or two bytes before it the text grows. */
  lemma CutAgain(text: seq<nat>, most: nat)
    requires |text| > most
    ensures var cut, once := CutAt(text, most), Bounded(text, most);
            Bounded(once, most) == once <==> cut == most || cut + 3 <= most
  {
    var cut, once := CutAt(text, most), Bounded(text, most);
    if cut + 3 > most {
      assert once[most] == DOT && !IsContinuation(DOT);
      assert CutAt(once, most) == most;
      assert Bounded(once, most) == once[..most] + DOTS;
      if cut == most {
        assert once[..most] == text[..most];
      }
    }
  }

  /** A text of one letter and one character of two bytes, bounded at two, and bounded again. */
  lemma CutGrows()
    ensures Bounded([65, 0xC3, 0xA9], 2) == [65, DOT, DOT, DOT]
    ensures Bounded(Bounded([65, 0xC3, 0xA9], 2), 2) == [65, DOT, DOT, DOT, DOT]
  {
    assert IsContinuation(0xA9) && !IsContinuation(0xC3) && !IsContinuation(DOT);
    assert CutAt([65, 0xC3, 0xA9], 2) == 1;
    assert CutAt([65, DOT, DOT, DOT], 2) == 2;
  }

  // ----- Order -----

  predicate ReasonLess(a: Reason, b: Reason) {
    if a.code != b.code then a.code < b.code
    else if a.subject != b.subject then LexLess(a.subject, b.subject)
    else LexLess(a.detail, b.detail)
  }

  /** By code, then by subject, then by text: of two strings the one that ends first, or holds the smaller byte where
      they first differ. */
  lemma ReasonsDecide(a: Reason, b: Reason)
    ensures ReasonLess(a, b) <==>
            || a.code < b.code
            || (a.code == b.code && GoesBefore(a.subject, b.subject))
            || (a.code == b.code && a.subject == b.subject && GoesBefore(a.detail, b.detail))
  {
    LexMeans(a.subject, b.subject);
    LexMeans(a.detail, b.detail);
    LexIsIrreflexive(a.subject);
  }

  lemma TextsDiffer(a: seq<nat>, b: seq<nat>)
    ensures LexLess(a, b) ==> !LexLess(b, a) && a != b
    ensures a != b ==> LexLess(a, b) || LexLess(b, a)
  {
    if LexLess(a, b) {
      LexIsAsymmetric(a, b);
    } else if !LexLess(b, a) {
      LexIsTotal(a, b);
    }
  }

  lemma ReasonsDiffer(a: Reason, b: Reason)
    ensures ReasonLess(a, b) ==> !ReasonLess(b, a) && a != b
    ensures a != b ==> ReasonLess(a, b) || ReasonLess(b, a)
  {
    TextsDiffer(a.subject, b.subject);
    TextsDiffer(a.detail, b.detail);
  }

  /** What is not above one that is not above another is not above it either. */
  lemma ReasonsClimb(a: Reason, b: Reason, c: Reason)
    requires !ReasonLess(b, a) && !ReasonLess(c, b)
    ensures !ReasonLess(c, a)
  {
    ReasonsDiffer(a, b);
    ReasonsDiffer(b, c);
    ReasonsDiffer(a, c);
    if a != b && b != c {
      LessClimbs(a, b, c);
    }
  }

  lemma LessClimbs(a: Reason, b: Reason, c: Reason)
    requires ReasonLess(a, b) && ReasonLess(b, c)
    ensures ReasonLess(a, c)
  {
    TextsDiffer(a.subject, c.subject);
    TextsDiffer(a.subject, b.subject);
    if a.code == b.code == c.code {
      if a.subject == b.subject == c.subject {
        LexIsTransitive(a.detail, b.detail, c.detail);
      } else if a.subject != b.subject && b.subject != c.subject {
        LexIsTransitive(a.subject, b.subject, c.subject);
      }
    }
  }

  predicate InPlace(reasons: seq<Reason>, i: nat, j: nat)
    requires i < |reasons| && j < |reasons|
  {
    !ReasonLess(reasons[j], reasons[i])
  }

  predicate AreSorted(reasons: seq<Reason>) {
    forall i, j {:trigger InPlace(reasons, i, j)} :: 0 <= i < j < |reasons| ==> InPlace(reasons, i, j)
  }

  // ----- Adding -----

  function WithBounds(r: Reason): Reason {
    Reason(r.code, Bounded(r.subject, SUBJECT_BYTES), Bounded(r.detail, DETAIL_BYTES))
  }

  /** In its place among the reasons there are. */
  function Inserted(reasons: seq<Reason>, r: Reason): (s: seq<Reason>)
    ensures |s| == |reasons| + 1
  {
    if reasons == [] || ReasonLess(reasons[|reasons| - 1], r) then reasons + [r]
    else Inserted(reasons[..|reasons| - 1], r) + [reasons[|reasons| - 1]]
  }

  /** A reason over the bound is left out. */
  function Added(most: nat, reasons: seq<Reason>, r: Reason): (s: seq<Reason>)
    ensures |reasons| <= |s| <= |reasons| + 1 && (|reasons| <= most ==> |s| <= most)
  {
    if |reasons| >= most then reasons else Inserted(reasons, WithBounds(r))
  }

  /** The reasons, added one by one. */
  function AddedUp(reasons: seq<Reason>): (s: seq<Reason>)
    ensures |s| == |reasons|
  {
    if reasons == [] then [] else Inserted(AddedUp(reasons[..|reasons| - 1]), reasons[|reasons| - 1])
  }

  /** What a reader makes of the reasons written: it adds them one by one, and bounds their texts again. */
  function Reread(reasons: seq<Reason>): (s: seq<Reason>)
    ensures |s| == |reasons|
  {
    AddedUp(seq(|reasons|, i requires 0 <= i < |reasons| => WithBounds(reasons[i])))
  }

  /** In order, and no text would be cut again. */
  predicate IsSettled(reasons: seq<Reason>) {
    AreSorted(reasons) && forall i {:trigger reasons[i]} :: 0 <= i < |reasons| ==> WithBounds(reasons[i]) == reasons[i]
  }

  lemma {:induction false} InsertedLast(reasons: seq<Reason>, r: Reason)
    requires AreSorted(reasons + [r])
    ensures Inserted(reasons, r) == reasons + [r]
    decreases |reasons|
  {
    if reasons != [] {
      var front, last, all := reasons[..|reasons| - 1], reasons[|reasons| - 1], reasons + [r];
      assert InPlace(all, |reasons| - 1, |reasons|);
      ReasonsDiffer(last, r);
      if !ReasonLess(last, r) {
        forall i, j | 0 <= i < j < |front + [r]|
          ensures InPlace(front + [r], i, j)
        {
          assert InPlace(all, i, j);
        }
        InsertedLast(front, r);
        assert front + [last] == reasons;
      }
    }
  }

  lemma FrontIsSorted(reasons: seq<Reason>)
    requires AreSorted(reasons) && reasons != []
    ensures AreSorted(reasons[..|reasons| - 1])
  {
    var front := reasons[..|reasons| - 1];
    forall i, j | 0 <= i < j < |front|
      ensures InPlace(front, i, j)
    {
      assert InPlace(reasons, i, j);
    }
  }

  lemma {:induction false} SortedStays(reasons: seq<Reason>)
    requires AreSorted(reasons)
    ensures AddedUp(reasons) == reasons
    decreases |reasons|
  {
    if reasons != [] {
      FrontIsSorted(reasons);
      SortedStays(reasons[..|reasons| - 1]);
      assert reasons[..|reasons| - 1] + [reasons[|reasons| - 1]] == reasons;
      InsertedLast(reasons[..|reasons| - 1], reasons[|reasons| - 1]);
    }
  }

  /** Settled reasons are read back as they were written. */
  lemma SettledComesBack(reasons: seq<Reason>)
    requires IsSettled(reasons)
    ensures Reread(reasons) == reasons
  {
    assert seq(|reasons|, i requires 0 <= i < |reasons| => WithBounds(reasons[i])) == reasons;
    SortedStays(reasons);
  }

  lemma {:induction false} InsertedAre(reasons: seq<Reason>, r: Reason, i: nat)
    requires i <= |reasons|
    ensures Inserted(reasons, r)[i] == r || Inserted(reasons, r)[i] in reasons
    decreases |reasons|
  {
    if reasons != [] && !ReasonLess(reasons[|reasons| - 1], r) && i < |reasons| {
      InsertedAre(reasons[..|reasons| - 1], r, i);
    }
  }

  lemma {:induction false} InsertedIsSorted(reasons: seq<Reason>, r: Reason)
    requires AreSorted(reasons)
    ensures AreSorted(Inserted(reasons, r))
    decreases |reasons|
  {
    if reasons != [] {
      var n := |reasons| - 1;
      var front, last := reasons[..n], reasons[n];
      forall i, j | 0 <= i < j < |front|
        ensures InPlace(front, i, j)
      {
        assert InPlace(reasons, i, j);
      }
      if ReasonLess(last, r) {
        GoesLast(reasons, r);
      } else {
        InsertedIsSorted(front, r);
        forall i | 0 <= i < |Inserted(front, r)|
          ensures !ReasonLess(last, Inserted(front, r)[i])
        {
          InsertedAre(front, r, i);
          NoneAboveLast(reasons, Inserted(front, r)[i], r);
        }
        StaysSorted(Inserted(front, r), last);
      }
    }
  }

  lemma GoesLast(reasons: seq<Reason>, r: Reason)
    requires AreSorted(reasons) && reasons != [] && ReasonLess(reasons[|reasons| - 1], r)
    ensures AreSorted(reasons + [r])
  {
    var n := |reasons| - 1;
    ReasonsDiffer(reasons[n], r);
    forall i | 0 <= i < |reasons|
      ensures !ReasonLess(r, reasons[i])
    {
      if i < n {
        assert InPlace(reasons, i, n);
        ReasonsClimb(reasons[i], reasons[n], r);
      }
    }
    StaysSorted(reasons, r);
  }

  lemma StaysSorted(reasons: seq<Reason>, r: Reason)
    requires AreSorted(reasons) && forall i {:trigger reasons[i]} :: 0 <= i < |reasons| ==> !ReasonLess(r, reasons[i])
    ensures AreSorted(reasons + [r])
  {
    var all := reasons + [r];
    forall i, j | 0 <= i < j < |all|
      ensures InPlace(all, i, j)
    {
      assert j < |reasons| ==> InPlace(reasons, i, j);
    }
  }

  lemma NoneAboveLast(reasons: seq<Reason>, x: Reason, r: Reason)
    requires AreSorted(reasons) && reasons != [] && !ReasonLess(reasons[|reasons| - 1], r)
    requires x == r || x in reasons[..|reasons| - 1]
    ensures !ReasonLess(reasons[|reasons| - 1], x)
  {
    if x != r {
      var i :| 0 <= i < |reasons| - 1 && reasons[i] == x;
      assert InPlace(reasons, i, |reasons| - 1);
    }
  }

  /** Adding a reason whose texts are not cut leaves reasons settled. */
  lemma AddedIsSettled(most: nat, reasons: seq<Reason>, r: Reason)
    requires IsSettled(reasons) && WithBounds(r) == r
    ensures IsSettled(Added(most, reasons, r))
  {
    if |reasons| < most {
      InsertedIsSorted(reasons, r);
      forall i | 0 <= i <= |reasons|
        ensures WithBounds(Inserted(reasons, r)[i]) == Inserted(reasons, r)[i]
      {
        InsertedAre(reasons, r, i);
      }
    }
  }

  // ----- Only settled reasons come back -----

  function Size(r: Reason): nat {
    |r.subject| + |r.detail|
  }

  function Total(reasons: seq<Reason>): nat {
    if reasons == [] then 0 else Total(reasons[..|reasons| - 1]) + Size(reasons[|reasons| - 1])
  }

  lemma TotalGrows(reasons: seq<Reason>, r: Reason)
    ensures Total(reasons + [r]) == Total(reasons) + Size(r)
  {
    assert (reasons + [r])[..|reasons|] == reasons;
  }

  lemma {:induction false} InsertedTotal(reasons: seq<Reason>, r: Reason)
    ensures Total(Inserted(reasons, r)) == Total(reasons) + Size(r)
    decreases |reasons|
  {
    if reasons == [] || ReasonLess(reasons[|reasons| - 1], r) {
      TotalGrows(reasons, r);
    } else {
      InsertedTotal(reasons[..|reasons| - 1], r);
      TotalGrows(Inserted(reasons[..|reasons| - 1], r), reasons[|reasons| - 1]);
    }
  }

  lemma {:induction false} AddedUpTotal(reasons: seq<Reason>)
    ensures Total(AddedUp(reasons)) == Total(reasons) && AreSorted(AddedUp(reasons))
    decreases |reasons|
  {
    if reasons != [] {
      AddedUpTotal(reasons[..|reasons| - 1]);
      InsertedTotal(AddedUp(reasons[..|reasons| - 1]), reasons[|reasons| - 1]);
      InsertedIsSorted(AddedUp(reasons[..|reasons| - 1]), reasons[|reasons| - 1]);
    }
  }

  lemma {:induction false} AddedUpAre(reasons: seq<Reason>, i: nat)
    requires i < |reasons|
    ensures AddedUp(reasons)[i] in reasons
    decreases |reasons|
  {
    var front, last := reasons[..|reasons| - 1], reasons[|reasons| - 1];
    InsertedAre(AddedUp(front), last, i);
    if AddedUp(reasons)[i] != last {
      var k :| 0 <= k < |front| && AddedUp(front)[k] == AddedUp(reasons)[i];
      AddedUpAre(front, k);
    }
  }

  /** A text bounded once only grows when it is bounded again, unless it stays. */
  lemma BoundedGrows(text: seq<nat>, most: nat)
    ensures var once := Bounded(text, most);
            |Bounded(once, most)| >= |once| && (|Bounded(once, most)| == |once| ==> Bounded(once, most) == once)
  {
    if |text| > most {
      var cut, once := CutAt(text, most), Bounded(text, most);
      if cut + 3 > most {
        assert once[most] == DOT && !IsContinuation(DOT);
        assert CutAt(once, most) == most;
        CutAgain(text, most);
      }
    }
  }

  lemma BoundsGrow(r: Reason)
    ensures Size(WithBounds(WithBounds(r))) >= Size(WithBounds(r))
    ensures Size(WithBounds(WithBounds(r))) == Size(WithBounds(r)) ==> WithBounds(WithBounds(r)) == WithBounds(r)
  {
    BoundedGrows(r.subject, SUBJECT_BYTES);
    BoundedGrows(r.detail, DETAIL_BYTES);
  }

  lemma {:induction false} TotalsDecide(a: seq<Reason>, b: seq<Reason>)
    requires |a| == |b| && forall i :: 0 <= i < |a| ==> Size(a[i]) <= Size(b[i])
    ensures Total(a) <= Total(b)
    ensures Total(a) == Total(b) ==> forall i :: 0 <= i < |a| ==> Size(a[i]) == Size(b[i])
    decreases |a|
  {
    if a != [] {
      TotalsDecide(a[..|a| - 1], b[..|b| - 1]);
    }
  }

  /** Reasons are read back as they were written exactly when they are in order and no text would be cut again. */
  lemma RereadDecides(reasons: seq<Reason>)
    ensures Reread(reasons) == reasons <==> IsSettled(reasons)
  {
    if Reread(reasons) == reasons {
      var bounded := seq(|reasons|, i requires 0 <= i < |reasons| => WithBounds(reasons[i]));
      AddedUpTotal(bounded);
      forall i | 0 <= i < |reasons|
        ensures Size(reasons[i]) <= Size(bounded[i])
        ensures Size(reasons[i]) == Size(bounded[i]) ==> bounded[i] == reasons[i]
      {
        AddedUpAre(bounded, i);
        var k :| 0 <= k < |bounded| && bounded[k] == reasons[i];
        BoundsGrow(reasons[k]);
      }
      TotalsDecide(reasons, bounded);
    }
    if IsSettled(reasons) {
      SettledComesBack(reasons);
    }
  }

  // ----- Numbers as text -----

  function Digits(n: nat): (text: seq<nat>)
    ensures forall i :: 0 <= i < |text| ==> 48 <= text[i] < 58
  {
    if n < 10 then [48 + n] else Digits(n / 10) + [48 + n % 10]
  }

  function Pow10(k: nat): (r: nat)
    ensures r > 0
  {
    if k == 0 then 1 else 10 * Pow10(k - 1)
  }

  lemma {:induction false} DigitsAreFew(n: nat, k: nat)
    requires 0 < k && n < Pow10(k)
    ensures |Digits(n)| <= k
    decreases k
  {
    if n >= 10 {
      assert k > 1 by {
        assert Pow10(1) == 10 * Pow10(0);
      }
      assert n / 10 < Pow10(k - 1);
      DigitsAreFew(n / 10, k - 1);
    }
  }
}
