/**
 What the scans of a configuration step over, as the characters spell it: comments by a grammar
 of nested pieces, blanks by the spaces they fall into, and the quotes of a string of many lines.
 */
module Grammar {
  import opened Results
  import opened Bytes
  import opened Bounds
  import opened Markers

  // ----- comments -----

  predicate PairAt(b: seq<byte>, i: nat, first: char, second: char) {
    i + 1 < |b| && b[i] == first as int && b[i + 1] == second as int
  }

  /** `b[i..end]` is one comment: its own opening and close, and whole comments and other bytes between them. */
  ghost predicate CommentAt(b: seq<byte>, i: nat, end: nat)
    decreases end - i, 0
  {
    i + 4 <= end <= |b| && PairAt(b, i, '/', '*') && PairAt(b, end - 2, '*', '/') && InsideAt(b, i + 2, end - 2)
  }

  /** `b[i..end]` is comments and bytes that neither open nor close one. */
  ghost predicate InsideAt(b: seq<byte>, i: nat, end: nat)
    decreases end - i, 1
  {
    || i == end
    || (exists next: nat :: i < next <= end && CommentAt(b, i, next) && InsideAt(b, next, end))
    || (i < end && !PairAt(b, i, '/', '*') && !PairAt(b, i, '*', '/') && InsideAt(b, i + 1, end))
  }

  /** What stands inside a comment leaves the nesting where it was. */
  lemma {:induction false} InsideIsSkipped(b: seq<byte>, i: nat, end: nat, open: nat)
    requires InsideAt(b, i, end) && i <= end <= |b| && open >= 1
    requires PairAt(b, end, '*', '/')
    ensures Match(b, i, open) == Match(b, end, open)
    decreases end - i
  {
    if i < end {
      if next: nat :| i < next <= end && CommentAt(b, i, next) && InsideAt(b, next, end) {
        assert Match(b, i, open) == Match(b, i + 2, open + 1);
        InsideIsSkipped(b, i + 2, next - 2, open + 1);
        assert Match(b, next - 2, open + 1) == Match(b, next, open);
        InsideIsSkipped(b, next, end, open);
      } else {
        assert !PairAt(b, i, '/', '*') && !PairAt(b, i, '*', '/') && InsideAt(b, i + 1, end);
        assert !Opens(b, i) && !Closes(b, i);
        assert Match(b, i, open) == Match(b, i + 1, open);
        InsideIsSkipped(b, i + 1, end, open);
      }
    }
  }

  /** A close that is found has only whole comments and other bytes before it. */
  lemma {:induction false} CloseIsBehind(b: seq<byte>, i: nat, open: nat) returns (at: nat)
    requires open >= 1 && Match(b, i, open).Some?
    ensures i <= at && InsideAt(b, i, at) && PairAt(b, at, '*', '/')
    ensures open == 1 ==> Match(b, i, open) == Some(at + 2)
    ensures open > 1 ==> Match(b, at + 2, open - 1) == Match(b, i, open)
    decreases |b| - i
  {
    if Opens(b, i) {
      var inner := CloseIsBehind(b, i + 2, open + 1);
      assert CommentAt(b, i, inner + 2);
      at := CloseIsBehind(b, inner + 2, open);
    } else if Closes(b, i) {
      at := i;
    } else {
      at := CloseIsBehind(b, i + 1, open);
    }
  }

  /** The walk over a comment ends where the grammar says the comment does, or nowhere if it has no end. */
  lemma MatchIsComment(b: seq<byte>, at: nat, end: nat)
    requires Opens(b, at)
    ensures Match(b, at + 2, 1) == Some(end) <==> CommentAt(b, at, end)
  {
    if Match(b, at + 2, 1) == Some(end) {
      var close := CloseIsBehind(b, at + 2, 1);
    }
    if CommentAt(b, at, end) {
      InsideIsSkipped(b, at + 2, end - 2, 1);
    }
  }

  lemma {:induction false} MarksAre(b: seq<byte>, lo: nat, hi: nat)
    requires lo <= hi <= |b|
    ensures Marks(b, lo, hi) == multiset(b[lo..hi])['*' as int] + multiset(b[lo..hi])['/' as int]
    decreases hi - lo
  {
    if lo < hi {
      MarksAre(b, lo + 1, hi);
      assert b[lo..hi] == [b[lo]] + b[lo + 1..hi];
    }
  }

  /** A comment is as busy as the stars and slashes between its own two pairs, or up to the end of the text. */
  lemma CommentMarksAre(b: seq<byte>, at: nat, end: nat)
    requires PairAt(b, at, '/', '*')
    ensures CommentAt(b, at, end) ==>
              var inner := multiset(b[at + 2..end - 2]);
              CommentMarks(b, at) == inner['*' as int] + inner['/' as int]
    ensures (forall e: nat :: !CommentAt(b, at, e)) ==>
              var inner := multiset(b[at + 2..]);
              CommentMarks(b, at) == inner['*' as int] + inner['/' as int]
  {
    hide Match, CommentAt, Marks;
    var found := Match(b, at + 2, 1);
    MatchIsComment(b, at, end);
    if found.Some? {
      MatchIsComment(b, at, found.value);
      MarksAre(b, at + 2, found.value - 2);
    } else {
      MarksAre(b, at + 2, |b|);
      assert b[at + 2..|b|] == b[at + 2..];
    }
  }

  // ----- blanks -----

  /** A space, behind a backslash where one may stand. */
  ghost predicate IsBlankPiece(piece: seq<byte>, escapes: bool) {
    exists k :: 0 <= k < |SPACES| && SPACES[k] < 0x10000
                && (piece == Utf8Of(SPACES[k]) || (escapes && piece == ['\\' as int] + Utf8Of(SPACES[k])))
  }

  function Pieced(pieces: seq<seq<byte>>): seq<byte> {
    if pieces == [] then [] else pieces[0] + Pieced(pieces[1..])
  }

  ghost predicate AreBlank(pieces: seq<seq<byte>>, escapes: bool) {
    forall i :: 0 <= i < |pieces| ==> IsBlankPiece(pieces[i], escapes)
  }

  lemma SpacePiece(b: seq<byte>, i: nat)
    requires SpaceLen(b, i) > 0
    ensures var piece := b[i..i + SpaceLen(b, i)];
            IsBlankPiece(piece, false) && IsBlankPiece(['\\' as int] + piece, true)
    ensures b[i] != '\\' as int
  {
    SpaceIsListed(b, i);
    var k :| 0 <= k < |SPACES| && SPACES[k] < 0x10000
             && StandsAt(b, i, Utf8Of(SPACES[k])) && |Utf8Of(SPACES[k])| == SpaceLen(b, i);
    assert b[i..i + SpaceLen(b, i)] == Utf8Of(SPACES[k]);
  }

  lemma {:induction false} BlankPieces(b: seq<byte>, i: nat, escapes: bool) returns (pieces: seq<seq<byte>>)
    requires i <= |b| && OnlySpaces(b, i, escapes)
    ensures AreBlank(pieces, escapes) && Pieced(pieces) == b[i..]
    decreases |b| - i
  {
    hide SpaceLen, IsBlankPiece;
    if i == |b| {
      pieces := [];
    } else {
      var at := if escapes && b[i] == '\\' as int then i + 1 else i;
      var next := at + SpaceLen(b, at);
      SpacePiece(b, at);
      NoEscapeNeeded(b[at..next]);
      var rest := BlankPieces(b, next, escapes);
      var piece := b[i..next];
      assert at == i + 1 ==> piece == ['\\' as int] + b[at..next];
      pieces := [piece] + rest;
      assert pieces[1..] == rest;
      assert b[i..] == piece + b[next..];
    }
  }

  lemma NoEscapeNeeded(piece: seq<byte>)
    ensures IsBlankPiece(piece, false) ==> IsBlankPiece(piece, true)
  {
  }

  /** Where a space stands the scan reads just it. */
  lemma SpaceIsRead(b: seq<byte>, i: nat, k: nat)
    requires k < |SPACES| && SPACES[k] < 0x10000 && StandsAt(b, i, Utf8Of(SPACES[k]))
    ensures SpaceLen(b, i) == |Utf8Of(SPACES[k])| && i < |b| && b[i] != '\\' as int
  {
    hide Utf8Of, SpaceLen;
    SpaceIsListed(b, i);
    assert IsSpaceAt(b, i, |Utf8Of(SPACES[k])|);
    assert |Utf8Of(SPACES[k])| > 0 by {
      Utf8IsLong(SPACES[k]);
    }
    SpacePiece(b, i);
  }

  lemma Utf8IsLong(point: nat)
    requires point < 0x10000
    ensures |Utf8Of(point)| > 0
  {
  }

  lemma {:induction false} PiecesAreBlank(b: seq<byte>, i: nat, pieces: seq<seq<byte>>, escapes: bool)
    requires i <= |b| && AreBlank(pieces, escapes) && Pieced(pieces) == b[i..]
    ensures OnlySpaces(b, i, escapes)
    decreases |pieces|
  {
    hide SpaceLen, Utf8Of;
    if pieces == [] {
      assert |b[i..]| == 0;
    } else {
      var piece, rest := pieces[0], Pieced(pieces[1..]);
      var next := i + |piece|;
      assert |b[i..]| == |piece| + |rest|;
      assert b[i..next] == b[i..][..|piece|] == piece;
      assert b[next..] == b[i..][|piece|..] == rest;
      assert IsBlankPiece(piece, escapes);
      PiecesAreBlank(b, next, pieces[1..], escapes);
      var k :| 0 <= k < |SPACES| && SPACES[k] < 0x10000
               && (piece == Utf8Of(SPACES[k]) || (escapes && piece == ['\\' as int] + Utf8Of(SPACES[k])));
      if piece == Utf8Of(SPACES[k]) {
        SpaceIsRead(b, i, k);
      } else {
        assert b[i] == piece[0];
        assert b[i + 1..next] == b[i..next][1..] == Utf8Of(SPACES[k]);
        SpaceIsRead(b, i + 1, k);
      }
    }
  }

  /** Before the closing quotes of a string of many lines stand spaces, escaped or not, and nothing else. */
  lemma BlankIsSpaces(b: seq<byte>, escapes: bool)
    ensures OnlySpaces(b, 0, escapes) <==>
              exists pieces: seq<seq<byte>> :: AreBlank(pieces, escapes) && Pieced(pieces) == b
  {
    hide AreBlank, Pieced, OnlySpaces;
    assert b[0..] == b;
    if OnlySpaces(b, 0, escapes) {
      var pieces := BlankPieces(b, 0, escapes);
    }
    if pieces: seq<seq<byte>> :| AreBlank(pieces, escapes) && Pieced(pieces) == b {
      PiecesAreBlank(b, 0, pieces, escapes);
    }
  }

  // ----- strings of many lines -----

  /** A string runs over lines just when it opens with three quotes and a newline. */
  lemma TripleIs(b: seq<byte>, quote: nat)
    ensures OpensTriple(b, quote) <==>
              && StandsAt(b, quote, [34, 34, 34])
              && exists k :: 0 <= k < |NEWLINES| && StandsAt(b, quote + 3, NEWLINES[k])
  {
    hide NewlineLen;
    NewlineIsLongest(b, quote + 3);
    assert forall k :: 0 <= k < |NEWLINES| ==> |NEWLINES[k]| > 0;
    if StandsAt(b, quote, [34, 34, 34]) {
      assert b[quote] == b[quote..quote + 3][0] && b[quote + 1] == b[quote..quote + 3][1];
      assert b[quote + 2] == b[quote..quote + 3][2];
    }
    if OpensTriple(b, quote) {
      assert b[quote..quote + 3] == [34, 34, 34];
    }
  }

  // ----- lines -----

  /** A newline begins at `i`; a line feed behind a carriage return begins none of its own. */
  predicate BreakAt(b: seq<byte>, i: nat) {
    && (exists k :: 0 <= k < |NEWLINES| && StandsAt(b, i, NEWLINES[k]))
    && !(0 < i < |b| && b[i - 1] == 13 && b[i] == 10)
  }

  function Breaks(b: seq<byte>, from: nat): set<nat> {
    set i: nat | from <= i < |b| && BreakAt(b, i)
  }

  /** A newline begins where it stands first, and nowhere else in its bytes. */
  lemma BreaksOnce(b: seq<byte>, at: nat)
    requires at < |b| && !(at > 0 && b[at - 1] == 13 && b[at] == 10)
    ensures var n := NewlineLen(b, at);
            && (BreakAt(b, at) <==> n > 0)
            && (forall i: nat :: at < i < at + n ==> !BreakAt(b, i))
            && (n == 0 && at + 1 < |b| ==> b[at] != 13)
            && (0 < n && at + n < |b| && b[at + n] == 10 ==> b[at + n - 1] != 13)
  {
    var n := NewlineLen(b, at);
    NewlineIsLongest(b, at);
    forall i: nat | at < i < at + n
      ensures !BreakAt(b, i)
    {
      NewlineIsLongest(b, i);
      assert forall k :: 0 <= k < |NEWLINES| ==> |NEWLINES[k]| > 0;
    }
    assert forall k :: 0 <= k < |NEWLINES| ==> |NEWLINES[k]| > 0;
  }

  /** The lines counted are the newlines there are, each once. */
  lemma {:induction false} NewlinesAreBreaks(b: seq<byte>, at: nat)
    requires at < |b| && at > 0 ==> !(b[at - 1] == 13 && b[at] == 10)
    ensures Newlines(b, at) == |Breaks(b, at)|
    decreases |b| - at
  {
    hide NewlineLen, BreakAt, Breaks;
    if at >= |b| {
      NoBreaksBehind(b, at);
    } else {
      var n := NewlineLen(b, at);
      var next := at + if n > 0 then n else 1;
      BreaksOnce(b, at);
      NewlinesAreBreaks(b, next);
      BreaksStep(b, at, next);
    }
  }

  lemma NoBreaksBehind(b: seq<byte>, at: nat)
    requires at >= |b|
    ensures Breaks(b, at) == {}
  {
  }

  lemma BreaksStep(b: seq<byte>, at: nat, next: nat)
    requires at < next && at < |b| && forall i: nat :: at < i < next ==> !BreakAt(b, i)
    ensures |Breaks(b, at)| == |Breaks(b, next)| + if BreakAt(b, at) then 1 else 0
  {
    hide BreakAt;
    assert Breaks(b, at) == Breaks(b, next) + if BreakAt(b, at) then {at} else {};
  }
}
