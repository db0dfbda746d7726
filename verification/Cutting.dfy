/**
 Cutting the markers out of an accepted text: what is left is accepted as well, and putting
 the markers back gives the text again.
 */
module Cutting {
  import opened Results
  import opened Bytes
  import opened Bounds
  import opened Markers

  /** `b` without the two bytes at `m`. */
  function CutOne(b: seq<byte>, m: nat): seq<byte>
    requires m + 2 <= |b|
  {
    b[..m] + b[m + 2..]
  }

  predicate InOrder(marks: seq<nat>, end: nat) {
    && (forall k :: 0 <= k < |marks| ==> marks[k] + 2 <= end)
    && (forall k :: 0 <= k < |marks| - 1 ==> marks[k] + 2 <= marks[k + 1])
  }

  /** The pieces of `b` from `from` on, between the markers from the `k`th on. */
  function Cut(b: seq<byte>, from: nat, marks: seq<nat>, k: nat): seq<byte>
    requires InOrder(marks, |b|) && from <= |b| && k <= |marks| && (k < |marks| ==> from <= marks[k])
    decreases |marks| - k
  {
    if k == |marks| then b[from..] else b[from..marks[k]] + Cut(b, marks[k] + 2, marks, k + 1)
  }

  /** The loop of `disabled_in` that copies a text without its markers. */
  method CutMarkers(b: seq<byte>, marks: seq<nat>) returns (bare: seq<byte>)
    requires InOrder(marks, |b|)
    ensures bare == Cut(b, 0, marks, 0)
  {
    bare := [];
    var cut: nat := 0;
    var k: nat := 0;
    while k < |marks|
      invariant k <= |marks| && cut <= |b| && (k < |marks| ==> cut <= marks[k])
      invariant Cut(b, 0, marks, 0) == bare + Cut(b, cut, marks, k)
    {
      bare := bare + b[cut..marks[k]];
      cut := marks[k] + 2;
      k := k + 1;
    }
    bare := bare + b[cut..];
  }

  /** `/-` written back at each marker from the `k`th on; `bare` is what follows offset `from`. */
  function PutBack(bare: seq<byte>, from: nat, marks: seq<nat>, k: nat): Option<seq<byte>>
    requires k <= |marks|
    decreases |marks| - k
  {
    if k == |marks| then Some(bare)
    else if marks[k] < from || marks[k] - from > |bare| then None
    else
      var n := marks[k] - from;
      var rest :- PutBack(bare[n..], marks[k] + 2, marks, k + 1);
      Some(bare[..n] + [SLASH, DASH] + rest)
  }

  /** Nothing but the markers is lost. */
  lemma {:induction false} PutBackRestores(b: seq<byte>, from: nat, marks: seq<nat>, k: nat)
    requires InOrder(marks, |b|) && from <= |b| && k <= |marks| && (k < |marks| ==> from <= marks[k])
    requires forall i :: 0 <= i < |marks| ==> MarkerText(b, marks[i])
    ensures PutBack(Cut(b, from, marks, k), from, marks, k) == Some(b[from..])
    decreases |marks| - k
  {
    if k < |marks| {
      var m := marks[k];
      PutBackRestores(b, m + 2, marks, k + 1);
      var bare := Cut(b, from, marks, k);
      assert bare[..m - from] == b[from..m] && bare[m - from..] == Cut(b, m + 2, marks, k + 1);
      assert b[from..] == b[from..m] + [SLASH, DASH] + b[m + 2..];
    }
  }

  // ----- one marker cut out -----

  predicate SameFrom(a: seq<byte>, i: nat, b: seq<byte>, j: nat) {
    i <= |a| && j <= |b| && a[i..] == b[j..]
  }

  lemma SameAt(a: seq<byte>, i: nat, b: seq<byte>, j: nat, k: nat)
    requires SameFrom(a, i, b, j) && k < |a| - i
    ensures |a| - i == |b| - j && a[i + k] == b[j + k]
    ensures SameFrom(a, i + k, b, j + k) && SameFrom(a, i + k + 1, b, j + k + 1)
  {
    assert |a[i..]| == |b[j..]|;
    assert a[i..][k] == b[j..][k];
    assert a[i + k..] == a[i..][k..] == b[j..][k..] == b[j + k..];
    assert a[i + k + 1..] == a[i..][k + 1..] == b[j..][k + 1..] == b[j + k + 1..];
  }

  /** The nested reading depends on what follows alone. */
  lemma {:induction false} MatchShift(a: seq<byte>, i: nat, b: seq<byte>, j: nat, open: nat)
    requires SameFrom(a, i, b, j) && i <= j && open >= 1
    ensures Match(b, j, open) ==
            if Match(a, i, open).Some? then Some(Match(a, i, open).value + (j - i)) else None
    decreases |a| - i
  {
    assert |a[i..]| == |b[j..]|;
    if i + 1 < |a| {
      SameAt(a, i, b, j, 0);
      SameAt(a, i, b, j, 1);
      if Opens(a, i) {
        MatchShift(a, i + 2, b, j + 2, open + 1);
      } else if Closes(a, i) {
        if open > 1 {
          MatchShift(a, i + 2, b, j + 2, open - 1);
        }
      } else {
        MatchShift(a, i + 1, b, j + 1, open);
      }
    }
  }

  lemma {:induction false} MarksShift(a: seq<byte>, i: nat, b: seq<byte>, j: nat, n: nat)
    requires SameFrom(a, i, b, j) && n <= |a| - i && n <= |b| - j
    ensures Marks(a, i, i + n) == Marks(b, j, j + n)
    decreases n
  {
    if n > 0 {
      SameAt(a, i, b, j, 0);
      MarksShift(a, i + 1, b, j + 1, n - 1);
    }
  }

  lemma {:induction false} MarksSame(a: seq<byte>, b: seq<byte>, lo: nat, hi: nat)
    requires lo <= hi <= |a| && hi <= |b| && a[..hi] == b[..hi]
    ensures Marks(a, lo, hi) == Marks(b, lo, hi)
    decreases hi - lo
  {
    if lo < hi {
      assert a[lo] == a[..hi][lo] == b[lo];
      MarksSame(a, b, lo + 1, hi);
    }
  }

  lemma CutShape(b: seq<byte>, m: nat)
    requires m + 2 <= |b|
    ensures var a := CutOne(b, m);
            |a| == |b| - 2 && a[..m] == b[..m] && SameFrom(a, m, b, m + 2)
  {
  }

  /** How a comment that ends at `end` in `b` ends once the marker at `m` is cut out. */
  function Moved(end: Option<nat>, m: nat): Option<nat> {
    match end
    case None => None
    case Some(e) => if e < m + 2 then Some(e) else Some(e - 2)
  }

  predicate ClearOf(end: Option<nat>, m: nat) {
    end.Some? ==> end.value <= m || end.value >= m + 4
  }

  /** At the marker itself: `/` is one mark, `-` is none, and what follows is the same text. */
  lemma MatchAtMarker(b: seq<byte>, m: nat, open: nat)
    requires MarkerText(b, m) && open >= 1
    ensures Match(CutOne(b, m), m, open) == Moved(Match(b, m, open), m)
    ensures ClearOf(Match(b, m, open), m)
  {
    CutShape(b, m);
    assert Match(b, m, open) == Match(b, m + 1, open) == Match(b, m + 2, open);
    MatchShift(CutOne(b, m), m, b, m + 2, open);
  }

  /** The reading of `b` from before a marker reaches it whole. */
  lemma {:induction false} MatchAcross(b: seq<byte>, m: nat, k: nat, open: nat)
    requires MarkerAt(b, m) && k <= m && open >= 1
    ensures Match(CutOne(b, m), k, open) == Moved(Match(b, k, open), m)
    ensures ClearOf(Match(b, k, open), m)
    decreases m - k
  {
    hide CutOne;
    var a := CutOne(b, m);
    CutShape(b, m);
    if k == m {
      MatchAtMarker(b, m, open);
    } else {
      assert a[k] == a[..m][k] == b[..m][k];
      if k + 1 < m {
        assert a[k + 1] == a[..m][k + 1] == b[..m][k + 1];
        if Opens(b, k) {
          MatchAcross(b, m, k + 2, open + 1);
        } else if Closes(b, k) {
          if open > 1 {
            MatchAcross(b, m, k + 2, open - 1);
          }
        } else {
          MatchAcross(b, m, k + 1, open);
        }
      } else {
        assert EndsLine(b[k]);
        MatchAcross(b, m, k + 1, open);
      }
    }
  }

  /** A comment that opens before the marker is no busier without it. */
  lemma MarksBefore(b: seq<byte>, m: nat, i: nat)
    requires MarkerAt(b, m) && i + 1 < m && Opens(b, i)
    ensures Opens(CutOne(b, m), i) && CommentMarks(CutOne(b, m), i) <= CommentMarks(b, i)
  {
    hide CutOne, Match, Marks;
    var a := CutOne(b, m);
    CutShape(b, m);
    assert a[i] == a[..m][i] && a[i + 1] == a[..m][i + 1];
    assert b[i] == b[..m][i] && b[i + 1] == b[..m][i + 1];
    MatchAcross(b, m, i + 2, 1);
    var end := Match(b, i + 2, 1);
    var stop := if end.Some? then end.value - 2 else |b|;
    if stop <= m {
      MarksUpTo(b, m, i + 2, stop);
    } else {
      MarksOver(b, m, i + 2, stop);
    }
  }

  lemma MarksUpTo(b: seq<byte>, m: nat, lo: nat, hi: nat)
    requires m + 2 <= |b| && lo <= hi <= m
    ensures Marks(CutOne(b, m), lo, hi) == Marks(b, lo, hi)
  {
    CutShape(b, m);
    assert CutOne(b, m)[..hi] == CutOne(b, m)[..m][..hi] == b[..m][..hi] == b[..hi];
    MarksSame(CutOne(b, m), b, lo, hi);
  }

  lemma MarksOver(b: seq<byte>, m: nat, lo: nat, hi: nat)
    requires m + 2 <= hi <= |b| && lo <= m
    ensures Marks(CutOne(b, m), lo, hi - 2) <= Marks(b, lo, hi)
  {
    var a := CutOne(b, m);
    CutShape(b, m);
    MarksSplit(b, lo, m, hi);
    MarksSplit(b, m, m + 2, hi);
    MarksSplit(a, lo, m, hi - 2);
    MarksUpTo(b, m, lo, m);
    MarksShift(a, m, b, m + 2, hi - 2 - m);
  }

  /** A comment that opens after the marker is as busy as before. */
  lemma MarksAfter(b: seq<byte>, m: nat, i: nat)
    requires m + 2 <= |b| && m <= i && Opens(CutOne(b, m), i)
    ensures Opens(b, i + 2) && CommentMarks(CutOne(b, m), i) == CommentMarks(b, i + 2)
  {
    var a := CutOne(b, m);
    CutShape(b, m);
    SameAt(a, m, b, m + 2, i - m);
    SameAt(a, m, b, m + 2, i + 1 - m);
    MatchShift(a, i + 2, b, i + 4, 1);
    var end := Match(a, i + 2, 1);
    var stop := if end.Some? then end.value - 2 else |a|;
    MarksShift(a, i + 2, b, i + 4, stop - (i + 2));
  }

  lemma {:induction false} BracesCut(b: seq<byte>, m: nat)
    requires MarkerAt(b, m)
    ensures Braces(CutOne(b, m), 0, |b| - 2) == Braces(b, 0, |b|)
  {
    var a := CutOne(b, m);
    CutShape(b, m);
    BracesSplit(b, 0, m, |b|);
    BracesSplit(b, m, m + 2, |b|);
    BracesSplit(a, 0, m, |a|);
    BracesSame(a, b, 0, m);
    BracesShift(a, m, b, m + 2, |a| - m);
    assert Braces(b, m, m + 2) == Braces(b, m + 1, m + 2) == Braces(b, m + 2, m + 2);
  }

  lemma {:induction false} BracesShift(a: seq<byte>, i: nat, b: seq<byte>, j: nat, n: nat)
    requires SameFrom(a, i, b, j) && n <= |a| - i && n <= |b| - j
    ensures Braces(a, i, i + n) == Braces(b, j, j + n)
    decreases n
  {
    if n > 0 {
      SameAt(a, i, b, j, 0);
      BracesShift(a, i + 1, b, j + 1, n - 1);
    }
  }

  lemma {:induction false} BracesSame(a: seq<byte>, b: seq<byte>, lo: nat, hi: nat)
    requires lo <= hi <= |a| && hi <= |b| && a[..hi] == b[..hi]
    ensures Braces(a, lo, hi) == Braces(b, lo, hi)
    decreases hi - lo
  {
    if lo < hi {
      assert a[lo] == a[..hi][lo] == b[lo];
      BracesSame(a, b, lo + 1, hi);
    }
  }

  /** Cutting one marker keeps a text accepted: no new comment opens and none grows busier. */
  lemma CutOneAccepted(b: seq<byte>, m: nat)
    requires Accepts(b) && MarkerAt(b, m)
    ensures Accepts(CutOne(b, m))
  {
    var a := CutOne(b, m);
    CutShape(b, m);
    BracesCut(b, m);
    forall i | 0 <= i < |a| && Opens(a, i)
      ensures CommentMarks(a, i) <= MAX_COMMENT_MARKS
    {
      if i >= m {
        MarksAfter(b, m, i);
      } else {
        assert a[i] == a[..m][i] == b[i];
        if i + 1 < m {
          assert a[i + 1] == a[..m][i + 1] == b[i + 1];
          MarksBefore(b, m, i);
        }
      }
    }
  }

  // ----- all of them, last to first -----

  lemma {:induction false} CutLast(b: seq<byte>, from: nat, init: seq<nat>, last: nat, k: nat)
    requires from <= last && last + 2 <= |b| && k <= |init| && (k < |init| ==> from <= init[k])
    requires InOrder(init + [last], |b|) && InOrder(init, |b| - 2)
    ensures Cut(b, from, init + [last], k) == Cut(CutOne(b, last), from, init, k)
    decreases |init| - k
  {
    hide CutOne, Cut;
    var marks := init + [last];
    if k < |init| {
      var m := init[k];
      assert marks[k] == m;
      Ascending(marks, k, |b|);
      CutLast(b, m + 2, init, last, k + 1);
      SliceBefore(b, last, from, m);
      CutUnfolds(b, from, marks, k);
      CutUnfolds(CutOne(b, last), from, init, k);
    } else {
      SliceBefore(b, last, from, from);
      assert marks[k] == last;
      CutUnfolds(b, from, marks, k);
      CutEnds(b, last + 2, marks);
      CutEnds(CutOne(b, last), from, init);
      TailAfter(b, last, from);
    }
  }

  lemma CutUnfolds(b: seq<byte>, from: nat, marks: seq<nat>, k: nat)
    requires InOrder(marks, |b|) && from <= |b| && k < |marks| && from <= marks[k]
    ensures Cut(b, from, marks, k) == b[from..marks[k]] + Cut(b, marks[k] + 2, marks, k + 1)
  {
  }

  lemma CutEnds(b: seq<byte>, from: nat, marks: seq<nat>)
    requires InOrder(marks, |b|) && from <= |b|
    ensures Cut(b, from, marks, |marks|) == b[from..]
  {
  }

  lemma SliceBefore(b: seq<byte>, m: nat, from: nat, hi: nat)
    requires from <= hi <= m && m + 2 <= |b|
    ensures |CutOne(b, m)| == |b| - 2 && CutOne(b, m)[from..hi] == b[from..hi]
  {
  }

  lemma TailAfter(b: seq<byte>, m: nat, from: nat)
    requires from <= m && m + 2 <= |b|
    ensures |CutOne(b, m)| == |b| - 2 && CutOne(b, m)[from..] == b[from..m] + b[m + 2..]
  {
  }

  lemma MarkerStays(b: seq<byte>, last: nat, m: nat)
    requires MarkerAt(b, m) && m + 2 <= last && last + 2 <= |b|
    ensures MarkerAt(CutOne(b, last), m) && m + 2 <= |b| - 2 == |CutOne(b, last)|
  {
    hide CutOne;
    CutShape(b, last);
    assert forall i :: 0 <= i < last ==> CutOne(b, last)[i] == CutOne(b, last)[..last][i] == b[..last][i];
  }

  /** Whatever markers stand at the beginning of lines, cutting them all keeps the text accepted. */
  lemma {:induction false} CutAccepted(b: seq<byte>, marks: seq<nat>)
    requires Accepts(b) && MarkersOk(b, marks)
    ensures InOrder(marks, |b|) && Accepts(Cut(b, 0, marks, 0))
    decreases |marks|
  {
    hide Accepts, CutOne, MarkerAt;
    MarkersFit(b, marks);
    if marks == [] {
      CutEnds(b, 0, marks);
      assert b[0..] == b;
    } else {
      var last := marks[|marks| - 1];
      var init := marks[..|marks| - 1];
      assert marks == init + [last];
      CutOneAccepted(b, last);
      forall k | 0 <= k < |init|
        ensures MarkerAt(CutOne(b, last), init[k]) && init[k] + 2 <= |b| - 2 == |CutOne(b, last)|
      {
        Ascending(marks, k, |b|);
        assert init[k] == marks[k];
        MarkerStays(b, last, init[k]);
      }
      CutLength(b, last);
      CutAccepted(CutOne(b, last), init);
      CutLast(b, 0, init, last, 0);
    }
  }

  lemma CutLength(b: seq<byte>, m: nat)
    requires m + 2 <= |b|
    ensures |CutOne(b, m)| == |b| - 2
  {
  }

  lemma MarkersFit(b: seq<byte>, marks: seq<nat>)
    requires MarkersOk(b, marks)
    ensures InOrder(marks, |b|)
  {
    forall k | 0 <= k < |marks|
      ensures marks[k] + 2 <= |b|
    {
      assert MarkerAt(b, marks[k]);
    }
  }

  lemma {:induction false} Ascending(marks: seq<nat>, k: nat, end: nat)
    requires InOrder(marks, end) && k < |marks| - 1
    ensures marks[k] + 2 <= marks[|marks| - 1]
    decreases |marks| - k
  {
    if k + 1 < |marks| - 1 {
      Ascending(marks, k + 1, end);
    }
  }

  /**
   The second parse is bounded by the first check: the markers the scan reports in an
   accepted text open lines, are in order and apart, and without them the text is accepted
   again; with them put back it is the text it was.
   */
  lemma DisabledTextIsSafe(b: seq<byte>)
    requires Accepts(b)
    ensures var marks := SlashdashMarks(b);
            && MarkersOk(b, marks) && InOrder(marks, |b|)
            && Accepts(Cut(b, 0, marks, 0))
            && PutBack(Cut(b, 0, marks, 0), 0, marks, 0) == Some(b)
  {
    hide MarkersFrom, Accepts;
    MarkersFromOk(b, 0, 0, true);
    CutAccepted(b, SlashdashMarks(b));
    PutBackRestores(b, 0, SlashdashMarks(b), 0);
    assert b[0..] == b;
  }
}
