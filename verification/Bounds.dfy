/**
 The bounds put on a configuration text before it is parsed: its size, its braces, and how
 busy the comment after any slash-star is. The measuring is done by hand-written walks; what they
 measure is stated apart from them, and so is what all of them together cost.
 */
module Bounds {
  import opened Results
  import opened Bytes

  const MAX_BYTES: nat := 65536
  const MAX_NESTING: nat := 32
  const MAX_COMMENT_MARKS: nat := 128

  const SLASH: byte := 47  // '/'
  const STAR: byte := 42  // '*'
  const BRACE: byte := 123  // '{'

  // ----- newlines -----

  /** Length of the newline at `at`, if one of the eight forms starts there. */
  function NewlineLen(b: seq<byte>, at: nat): (n: nat)
    ensures n <= 3 && (n > 0 ==> at + n <= |b| && EndsLine(b[at + n - 1]))
  {
    if at >= |b| then 0
    else if b[at] == 13 && at + 1 < |b| && b[at + 1] == 10 then 2
    else if b[at] == 13 || b[at] == 10 || b[at] == 11 || b[at] == 12 then 1
    else if b[at] == 0xc2 && at + 1 < |b| && b[at + 1] == 0x85 then 2
    else if b[at] == 0xe2 && at + 2 < |b| && b[at + 1] == 0x80 && (b[at + 2] == 0xa8 || b[at + 2] == 0xa9) then 3
    else 0
  }

  /** The eight newlines: CR LF, CR, LF, VT, FF, NEL, LS and PS, in UTF-8. */
  const NEWLINES: seq<seq<byte>> :=
    [[13, 10], [13], [10], [11], [12], [0xc2, 0x85], [0xe2, 0x80, 0xa8], [0xe2, 0x80, 0xa9]]

  predicate StandsAt(b: seq<byte>, at: nat, word: seq<byte>) {
    at + |word| <= |b| && b[at..at + |word|] == word
  }

  /** A newline is as long as the longest of them that stands there. */
  lemma NewlineIsLongest(b: seq<byte>, at: nat)
    ensures NewlineLen(b, at) > 0 ==> exists k :: 0 <= k < |NEWLINES| && StandsAt(b, at, NEWLINES[k])
                                                 && |NEWLINES[k]| == NewlineLen(b, at)
    ensures forall k :: 0 <= k < |NEWLINES| && StandsAt(b, at, NEWLINES[k]) ==> |NEWLINES[k]| <= NewlineLen(b, at)
  {
    var n := NewlineLen(b, at);
    if n > 0 {
      var word := b[at..at + n];
      assert n == 1 ==> word == [b[at]];
      assert n == 2 ==> word == [b[at], b[at + 1]];
      assert n == 3 ==> word == [b[at], b[at + 1], b[at + 2]];
      assert NEWLINES[0] == [13, 10] && NEWLINES[1] == [13] && NEWLINES[2] == [10] && NEWLINES[3] == [11];
      assert NEWLINES[4] == [12] && NEWLINES[5] == [0xc2, 0x85];
      assert NEWLINES[6] == [0xe2, 0x80, 0xa8] && NEWLINES[7] == [0xe2, 0x80, 0xa9];
      assert StandsAt(b, at, word);
    }
    forall k | 0 <= k < |NEWLINES| && StandsAt(b, at, NEWLINES[k])
      ensures |NEWLINES[k]| <= n
    {
      var word := NEWLINES[k];
      assert b[at] == word[0];
      assert |word| > 1 ==> b[at + 1] == word[1];
      assert |word| > 2 ==> b[at + 2] == word[2];
    }
  }

  /** The last byte of a newline. */
  predicate EndsLine(c: byte) {
    c == 10 || c == 11 || c == 12 || c == 13 || c == 0x85 || c == 0xa8 || c == 0xa9
  }

  /** Newlines that begin at or after `at`. */
  function Newlines(b: seq<byte>, at: nat): nat
    decreases |b| - at
  {
    if at >= |b| then 0
    else if NewlineLen(b, at) > 0 then 1 + Newlines(b, at + NewlineLen(b, at))
    else Newlines(b, at + 1)
  }

  /** `line_at`: the line of the byte at `offset`, counting from one. */
  method LineAt(b: seq<byte>, offset: nat) returns (line: nat)
    requires offset <= |b|
    ensures line == 1 + Newlines(b[..offset], 0)
  {
    var head := b[..offset];
    line := 1;
    var i := 0;
    while i < |head|
      invariant line + Newlines(head, i) == 1 + Newlines(head, 0)
      decreases |head| - i
    {
      var n := NewlineLen(head, i);
      if n > 0 {
        line := line + 1;
        i := i + n;
      } else {
        i := i + 1;
      }
    }
  }

  // ----- what a comment is, and how busy -----

  predicate IsMark(c: byte) {
    c == STAR || c == SLASH
  }

  predicate Opens(b: seq<byte>, i: nat) {
    i + 1 < |b| && b[i] == SLASH && b[i + 1] == STAR
  }

  predicate Closes(b: seq<byte>, i: nat) {
    i + 1 < |b| && b[i] == STAR && b[i + 1] == SLASH
  }

  /** `*` and `/` bytes in `b[lo..hi]`. */
  function Marks(b: seq<byte>, lo: nat, hi: nat): (n: nat)
    requires hi <= |b|
    decreases hi - lo
  {
    if lo >= hi then 0 else (if IsMark(b[lo]) then 1 else 0) + Marks(b, lo + 1, hi)
  }

  /** Index just past the `*` `/` that closes the `open` comments the text at `i` is inside of. */
  function Match(b: seq<byte>, i: nat, open: nat): (end: Option<nat>)
    requires open >= 1
    ensures end.Some? ==> i + 2 <= end.value <= |b|
    decreases |b| - i
  {
    if i + 1 >= |b| then None
    else if Opens(b, i) then Match(b, i + 2, open + 1)
    else if Closes(b, i) then (if open == 1 then Some(i + 2) else Match(b, i + 2, open - 1))
    else Match(b, i + 1, open)
  }

  /** Where the comment that opens at `at` ends: past its own close, or with the text. */
  function CommentEnd(b: seq<byte>, at: nat): nat {
    var end := Match(b, at + 2, 1);
    if end.Some? then end.value else |b|
  }

  /** `*` and `/` bytes between a comment's own opening and its close, or the end of the text. */
  function CommentMarks(b: seq<byte>, at: nat): nat {
    var end := Match(b, at + 2, 1);
    Marks(b, at + 2, if end.Some? then end.value - 2 else |b|)
  }

  lemma {:induction false} MarksSplit(b: seq<byte>, lo: nat, mid: nat, hi: nat)
    requires lo <= mid <= hi <= |b|
    ensures Marks(b, lo, hi) == Marks(b, lo, mid) + Marks(b, mid, hi)
    decreases mid - lo
  {
    if lo < mid {
      MarksSplit(b, lo + 1, mid, hi);
    }
  }

  // ----- the walk -----

  /** A walk from the comment at `i` is still going at byte `j`. */
  predicate WalksOver(b: seq<byte>, i: nat, j: nat) {
    Opens(b, i) && i + 2 <= j < |b| && Marks(b, i + 2, j) <= MAX_COMMENT_MARKS
  }

  function Step(b: seq<byte>, i: nat, j: nat): nat {
    if WalksOver(b, i, j) then 1 else 0
  }

  /** Bytes from `j` on that the walk from `i` is still going at. */
  function Walk(b: seq<byte>, i: nat, j: nat): nat
    decreases |b| - j
  {
    if j >= |b| then 0 else Step(b, i, j) + Walk(b, i, j + 1)
  }

  /**
   `block_comment_end`: the end of the comment and its marks, exactly, while they are within
   the bound; past it, more marks than the bound and the end of the text. It steps over no
   byte past the bound.
   */
  method BlockCommentEnd(b: seq<byte>, at: nat) returns (end: nat, marks: nat, ghost steps: nat)
    requires Opens(b, at)
    ensures CommentMarks(b, at) <= MAX_COMMENT_MARKS ==>
      marks == CommentMarks(b, at) && end == CommentEnd(b, at)
    ensures CommentMarks(b, at) > MAX_COMMENT_MARKS ==> marks > MAX_COMMENT_MARKS && end == |b|
    ensures at + 2 <= end <= |b|
    ensures steps <= Walk(b, at, 0)
  {
    var open := 1;
    marks := 0;
    var i := at + 2;
    steps := 0;
    NoWalkBefore(b, at, 0);
    while i + 1 < |b| && marks <= MAX_COMMENT_MARKS
      invariant at + 2 <= i <= |b| && open >= 1
      invariant marks == Marks(b, at + 2, i)
      invariant Match(b, at + 2, 1) == Match(b, i, open)
      invariant steps + Walk(b, at, i) <= Walk(b, at, 0)
      decreases |b| - i
    {
      MarksSplit(b, at + 2, i, i + 1);
      MarksSplit(b, at + 2, i, i + 2);
      assert Marks(b, i, i + 1) == (if IsMark(b[i]) then 1 else 0) + Marks(b, i + 1, i + 1);
      assert Marks(b, i, i + 2) == (if IsMark(b[i]) then 1 else 0) + Marks(b, i + 1, i + 2);
      assert Marks(b, i + 1, i + 2) == (if IsMark(b[i + 1]) then 1 else 0) + Marks(b, i + 2, i + 2);
      steps := steps + 1;
      assert Walk(b, at, i) == 1 + Walk(b, at, i + 1) && Walk(b, at, i + 1) >= Walk(b, at, i + 2);
      if b[i] == SLASH && b[i + 1] == STAR {
        open := open + 1;
        marks := marks + 2;
        i := i + 2;
      } else if b[i] == STAR && b[i + 1] == SLASH {
        open := open - 1;
        i := i + 2;
        if open == 0 {
          return i, marks, steps;
        }
        marks := marks + 2;
      } else if b[i] == STAR || b[i] == SLASH {
        marks := marks + 1;
        i := i + 1;
      } else {
        i := i + 1;
      }
    }
    var stop := if Match(b, at + 2, 1).Some? then Match(b, at + 2, 1).value - 2 else |b|;
    MarksSplit(b, at + 2, i, stop);
    if i < |b| {
      assert Marks(b, i, |b|) == (if IsMark(b[i]) then 1 else 0) + Marks(b, i + 1, |b|);
    }
    if i < |b| && (b[i] == STAR || b[i] == SLASH) {
      marks := marks + 1;
    }
    end := |b|;
  }

  /** A walk makes no step before its own comment begins. */
  lemma {:induction false} NoWalkBefore(b: seq<byte>, at: nat, j: nat)
    requires Opens(b, at) && j <= at + 2
    ensures Walk(b, at, j) == Walk(b, at, at + 2)
    decreases at + 2 - j
  {
    if j < at + 2 {
      NoWalkBefore(b, at, j + 1);
    }
  }

  // ----- all the walks together -----

  /** Steps of every walk that starts at or after `i`. */
  function AllWalks(b: seq<byte>, i: nat): nat
    decreases |b| - i
  {
    if i >= |b| then 0 else Walk(b, i, 0) + AllWalks(b, i + 1)
  }

  /** Walks starting at or after `i` that step at byte `j`. */
  function WalksAt(b: seq<byte>, i: nat, j: nat): nat
    decreases |b| - i
  {
    if i >= |b| then 0 else Step(b, i, j) + WalksAt(b, i + 1, j)
  }

  function StepsFrom(b: seq<byte>, i: nat, j: nat): nat
    decreases |b| - j
  {
    if j >= |b| then 0 else WalksAt(b, i, j) + StepsFrom(b, i, j + 1)
  }

  /** Summing walk by walk or byte by byte is the same. */
  lemma {:induction false} SwapSums(b: seq<byte>, i: nat)
    ensures AllWalks(b, i) == StepsFrom(b, i, 0)
    decreases |b| - i
  {
    if i < |b| {
      SwapSums(b, i + 1);
      PeelWalk(b, i, 0);
    } else {
      NoWalks(b, i, 0);
    }
  }

  lemma {:induction false} PeelWalk(b: seq<byte>, i: nat, j: nat)
    requires i < |b|
    ensures StepsFrom(b, i, j) == Walk(b, i, j) + StepsFrom(b, i + 1, j)
    decreases |b| - j
  {
    if j < |b| {
      PeelWalk(b, i, j + 1);
    }
  }

  lemma {:induction false} NoWalks(b: seq<byte>, i: nat, j: nat)
    requires i >= |b|
    ensures StepsFrom(b, i, j) == 0
    decreases |b| - j
  {
    if j < |b| {
      NoWalks(b, i, j + 1);
    }
  }

  /** Openings do not overlap, so each of those before `j` brings two marks of its own. */
  lemma {:induction false} OpeningsCostMarks(b: seq<byte>, i: nat, j: nat)
    requires i <= j < |b|
    ensures 2 * WalksAt(b, i, j) <= Marks(b, i, j)
    decreases j - i
  {
    if i + 2 <= j {
      if Opens(b, i) {
        OpeningsCostMarks(b, i + 2, j);
        assert WalksAt(b, i + 1, j) == Step(b, i + 1, j) + WalksAt(b, i + 2, j);
        assert Marks(b, i, j) == 1 + Marks(b, i + 1, j) && Marks(b, i + 1, j) == 1 + Marks(b, i + 2, j);
      } else {
        OpeningsCostMarks(b, i + 1, j);
      }
    } else {
      TooLateToWalk(b, i, j);
    }
  }

  lemma {:induction false} TooLateToWalk(b: seq<byte>, i: nat, j: nat)
    requires i + 2 > j
    ensures WalksAt(b, i, j) == 0
    decreases |b| - i
  {
    if i < |b| {
      TooLateToWalk(b, i + 1, j);
    }
  }

  /** At most 65 walks step at any one byte: the first of them has passed all the others. */
  lemma {:induction false} FewWalksAt(b: seq<byte>, i: nat, j: nat)
    requires j < |b|
    ensures WalksAt(b, i, j) <= MAX_COMMENT_MARKS / 2 + 1
    decreases |b| - i
  {
    if i < |b| {
      if WalksOver(b, i, j) {
        OpeningsCostMarks(b, i + 2, j);
        assert WalksAt(b, i, j) == 1 + WalksAt(b, i + 1, j);
        assert WalksAt(b, i + 1, j) == Step(b, i + 1, j) + WalksAt(b, i + 2, j);
      } else {
        FewWalksAt(b, i + 1, j);
      }
    }
  }

  lemma {:induction false} StepsBounded(b: seq<byte>, j: nat)
    requires j <= |b|
    ensures StepsFrom(b, 0, j) <= (MAX_COMMENT_MARKS / 2 + 1) * (|b| - j)
    decreases |b| - j
  {
    if j < |b| {
      FewWalksAt(b, 0, j);
      StepsBounded(b, j + 1);
    }
  }

  /** Linear work: all the walks over a text together take at most 65 steps per byte of it. */
  lemma WalksAreLinear(b: seq<byte>)
    ensures AllWalks(b, 0) <= 65 * |b|
  {
    SwapSums(b, 0);
    StepsBounded(b, 0);
  }

  // ----- the bounds -----

  datatype BoundsError = TooLarge(bytes: nat) | TooDeep(line: nat) | CommentTooBusy(line: nat)

  function Braces(b: seq<byte>, lo: nat, hi: nat): nat
    requires hi <= |b|
    decreases hi - lo
  {
    if lo >= hi then 0 else (if b[lo] == BRACE then 1 else 0) + Braces(b, lo + 1, hi)
  }

  lemma {:induction false} BracesSplit(b: seq<byte>, lo: nat, mid: nat, hi: nat)
    requires lo <= mid <= hi <= |b|
    ensures Braces(b, lo, hi) == Braces(b, lo, mid) + Braces(b, mid, hi)
    decreases mid - lo
  {
    if lo < mid {
      BracesSplit(b, lo + 1, mid, hi);
    }
  }

  /** What is accepted, said without a scan. */
  predicate Accepts(b: seq<byte>) {
    && |b| <= MAX_BYTES
    && Braces(b, 0, |b|) <= MAX_NESTING
    && forall i :: 0 <= i < |b| && Opens(b, i) ==> CommentMarks(b, i) <= MAX_COMMENT_MARKS
  }

  lemma {:induction false} BracesAreCounted(b: seq<byte>, hi: nat)
    requires hi <= |b|
    ensures Braces(b, 0, hi) == multiset(b[..hi])['{' as int]
  {
    if hi > 0 {
      BracesAreCounted(b, hi - 1);
      BracesSplit(b, 0, hi - 1, hi);
      assert b[..hi] == b[..hi - 1] + [b[hi - 1]];
    } else {
      assert b[..hi] == [];
    }
  }

  /** The bounds themselves: 64 KiB, 32 braces, and 128 marks in the comment behind any slash-star. */
  lemma AcceptsIs(b: seq<byte>)
    ensures Accepts(b) <==>
              && |b| <= 65536 && multiset(b)['{' as int] <= 32
              && forall i :: 0 <= i < |b| - 1 && b[i] == '/' as int && b[i + 1] == '*' as int ==>
                               CommentMarks(b, i) <= 128
  {
    hide CommentMarks;
    BracesAreCounted(b, |b|);
    assert b[..|b|] == b;
    if Accepts(b) {
      forall i | 0 <= i < |b| - 1 && b[i] == '/' as int && b[i + 1] == '*' as int
        ensures CommentMarks(b, i) <= 128
      {
        assert Opens(b, i);
      }
    }
  }

  predicate BraceTooMany(b: seq<byte>, i: nat) {
    i < |b| && b[i] == BRACE && Braces(b, 0, i + 1) > MAX_NESTING
  }

  predicate CommentTooLong(b: seq<byte>, i: nat) {
    i < |b| && Opens(b, i) && CommentMarks(b, i) > MAX_COMMENT_MARKS
  }

  /** The error of the first place where a bound is passed. */
  predicate FirstFault(b: seq<byte>, error: BoundsError) {
    if |b| > MAX_BYTES then error == TooLarge(|b|)
    else
      exists i :: 0 <= i < |b|
        && (forall k :: 0 <= k < i ==> !BraceTooMany(b, k) && !CommentTooLong(b, k))
        && (|| (BraceTooMany(b, i) && error == TooDeep(1 + Newlines(b[..i], 0)))
            || (CommentTooLong(b, i) && error == CommentTooBusy(1 + Newlines(b[..i], 0))))
  }

  /** `check_bounds`, with the steps of every walk it makes counted. */
  method CheckBounds(b: seq<byte>) returns (r: Result<(), BoundsError>, ghost steps: nat)
    ensures r.Ok? <==> Accepts(b)
    ensures r.Err? ==> FirstFault(b, r.error)
    ensures steps <= 65 * |b|
  {
    steps := 0;
    if |b| > MAX_BYTES {
      return Err(TooLarge(|b|)), steps;
    }
    WalksAreLinear(b);
    var opens := 0;
    var i := 0;
    while i < |b|
      invariant i <= |b| <= MAX_BYTES
      invariant opens == Braces(b, 0, i) <= MAX_NESTING
      invariant forall k :: 0 <= k < i ==> !BraceTooMany(b, k) && !CommentTooLong(b, k)
      invariant steps + AllWalks(b, i) <= AllWalks(b, 0)
    {
      BracesSplit(b, 0, i, i + 1);
      assert Braces(b, i, i + 1) == (if b[i] == BRACE then 1 else 0) + Braces(b, i + 1, i + 1);
      if b[i] == BRACE {
        opens := opens + 1;
        if opens > MAX_NESTING {
          assert BraceTooMany(b, i);
          BracesSplit(b, 0, i + 1, |b|);
          var line := LineAt(b, i);
          return Err(TooDeep(line)), steps;
        }
      } else if b[i] == SLASH && i + 1 < |b| && b[i + 1] == STAR {
        var end, marks;
        ghost var taken;
        end, marks, taken := BlockCommentEnd(b, i);
        steps := steps + taken;
        if marks > MAX_COMMENT_MARKS {
          assert CommentTooLong(b, i);
          var line := LineAt(b, i);
          return Err(CommentTooBusy(line)), steps;
        }
      }
      i := i + 1;
    }
    forall k | 0 <= k < |b| && Opens(b, k)
      ensures CommentMarks(b, k) <= MAX_COMMENT_MARKS
    {
      assert !CommentTooLong(b, k);
    }
    r := Ok(());
  }
}
