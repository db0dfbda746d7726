/**
 What the scan finds, said without the scan: a text falls into lexemes, and the marks are the
 `/-` that begin one right behind a newline and outside all braces.
 */
module Lexemes {
  import opened Results
  import opened Bytes
  import opened Bounds
  import opened Markers

  // ----- strings: where a string closes, said of the text alone -----

  /** Backslashes in a row right before `j`, none of them before `from`. */
  function Backslashes(b: seq<byte>, from: nat, j: nat): nat
    requires j <= |b|
  {
    if j > from && b[j - 1] == BACKSLASH then 1 + Backslashes(b, from, j - 1) else 0
  }

  /** A line of the text from `from` on begins at `ls`. */
  ghost predicate BeginsLine(b: seq<byte>, from: nat, ls: nat) {
    ls == from || exists k: nat :: from <= k < ls && NewlineLen(b, k) == ls - k
  }

  /** The line that `j` is on begins at `ls`. */
  ghost predicate LineOf(b: seq<byte>, from: nat, ls: nat, j: nat) {
    from <= ls <= j && BeginsLine(b, from, ls) && forall m: nat :: ls < m <= j ==> !BeginsLine(b, from, m)
  }

  /** Nothing but space stands on the line before `j`. */
  ghost predicate AloneOnLine(b: seq<byte>, from: nat, j: nat, escapes: bool)
    requires j <= |b|
  {
    exists ls: nat :: LineOf(b, from, ls, j) && OnlySpaces(b[ls..j], 0, escapes)
  }

  function Width(triple: bool): nat {
    if triple then 3 else 1
  }

  predicate HashesAt(b: seq<byte>, at: nat, hashes: nat) {
    at + hashes <= |b| && forall k :: at <= k < at + hashes ==> b[k] == HASH
  }

  /**
   A string of the text from `from` on may close at `j`: at an unescaped quote, or at three on a
   line of their own, with as many `#` behind as it opened with; only without `#` does a
   backslash escape.
   */
  ghost predicate MayClose(b: seq<byte>, from: nat, j: nat, triple: bool, hashes: nat) {
    && j < |b| && HashesAt(b, j + Width(triple), hashes)
    && (triple ==> TripleAt(b, j) && AloneOnLine(b, from, j, hashes == 0))
    && (!triple ==> b[j] == QUOTE && (hashes == 0 ==> Backslashes(b, from, j) % 2 == 0))
  }

  /** The string that opens at `quote` ends at `end`, with the first close; without one it is its quote alone. */
  ghost predicate IsString(b: seq<byte>, quote: nat, hashes: nat, end: nat) {
    var triple := OpensTriple(b, quote);
    var from := quote + Width(triple);
    || (exists j: nat :: from <= j && MayClose(b, from, j, triple, hashes) && end == j + Width(triple) + hashes
                         && forall m: nat :: from <= m < j ==> !MayClose(b, from, m, triple, hashes))
    || (end == quote + 1 && forall m: nat :: from <= m < |b| ==> !MayClose(b, from, m, triple, hashes))
  }

  lemma HashesAre(b: seq<byte>, at: nat, hashes: nat)
    requires at <= |b|
    ensures HashesAt(b, at, hashes) <==> Hashes(b, at) >= hashes
  {
    hide Hashes;
    var n := Hashes(b, at);
    assert HashesAt(b, at, hashes) && hashes > n ==> at + n < |b| && b[at + n] == HASH;
    HashesRun(b, at);
  }

  lemma {:induction false} HashesRun(b: seq<byte>, at: nat)
    requires at <= |b|
    ensures var n := Hashes(b, at);
            at + n <= |b| && (forall k :: at <= k < at + n ==> b[k] == HASH) && (at + n < |b| ==> b[at + n] != HASH)
    decreases |b| - at
  {
    if at < |b| && b[at] == HASH {
      HashesRun(b, at + 1);
    }
  }

  /** Bytes a newline or a space is made of. */
  lemma PlainBytes(b: seq<byte>, i: nat, k: nat)
    requires i <= k < i + NewlineLen(b, i) || i <= k < i + SpaceLen(b, i)
    ensures k < |b| && b[k] != QUOTE && b[k] != BACKSLASH
  {
  }

  /** A blank holds no quote and does not end in a backslash. */
  lemma {:induction false} SpacesArePlain(s: seq<byte>, i: nat, escapes: bool)
    requires OnlySpaces(s, i, escapes) && i <= |s|
    ensures forall k :: i <= k < |s| ==> s[k] != QUOTE
    ensures i < |s| ==> s[|s| - 1] != BACKSLASH
    decreases |s| - i
  {
    hide SpaceLen;
    if i < |s| {
      var at := if escapes && s[i] == BACKSLASH then i + 1 else i;
      var n := SpaceLen(s, at);
      SpacesArePlain(s, at + n, escapes);
      forall k | at <= k < at + n
        ensures s[k] != QUOTE && s[k] != BACKSLASH
      {
        PlainBytes(s, at, k);
      }
    }
  }

  /** No newline of the text from `from` on lies across `i`. */
  ghost predicate Between(b: seq<byte>, from: nat, i: nat) {
    forall k: nat :: from <= k < i && NewlineLen(b, k) > 0 ==> k + NewlineLen(b, k) <= i
  }

  /** One byte further, where no newline begins. */
  lemma OnLine(b: seq<byte>, from: nat, ls: nat, i: nat)
    requires LineOf(b, from, ls, i) && Between(b, from, i) && NewlineLen(b, i) == 0
    ensures LineOf(b, from, ls, i + 1) && Between(b, from, i + 1)
  {
    hide NewlineLen;
    forall k: nat | from <= k < i + 1
      ensures NewlineLen(b, k) != i + 1 - k
    {
      assert k < i && NewlineLen(b, k) > 0 ==> k + NewlineLen(b, k) <= i;
    }
  }

  lemma NextLine(b: seq<byte>, from: nat, i: nat)
    requires from <= i && Between(b, from, i) && NewlineLen(b, i) > 0
    ensures var next := i + NewlineLen(b, i);
            LineOf(b, from, next, next) && Between(b, from, next)
  {
    var next := i + NewlineLen(b, i);
    assert NewlineLen(b, i) == next - i;
    forall k: nat | i < k < next && NewlineLen(b, k) > 0
      ensures k + NewlineLen(b, k) <= next
    {
    }
  }

  lemma OneLineOnly(b: seq<byte>, from: nat, ls: nat, other: nat, j: nat)
    requires LineOf(b, from, ls, j) && LineOf(b, from, other, j)
    ensures ls == other
  {
    hide NewlineLen, BeginsLine;
  }

  lemma AloneIs(b: seq<byte>, from: nat, ls: nat, j: nat, escapes: bool)
    requires LineOf(b, from, ls, j) && j <= |b|
    ensures AloneOnLine(b, from, j, escapes) <==> OnlySpaces(b[ls..j], 0, escapes)
  {
    hide NewlineLen, BeginsLine, OnlySpaces;
    if AloneOnLine(b, from, j, escapes) {
      var other: nat :| LineOf(b, from, other, j) && OnlySpaces(b[other..j], 0, escapes);
      OneLineOnly(b, from, ls, other, j);
    }
  }

  /** Behind a quote or a backslash on its line three quotes are not alone. */
  lemma NotAlone(b: seq<byte>, from: nat, ls: nat, p: nat, j: nat, escapes: bool)
    requires LineOf(b, from, ls, j) && ls <= p < j <= |b|
    requires b[p] == QUOTE || (b[p] == BACKSLASH && p == j - 1)
    ensures !AloneOnLine(b, from, j, escapes)
  {
    hide NewlineLen, BeginsLine, OnlySpaces, LineOf, AloneOnLine;
    AloneIs(b, from, ls, j, escapes);
    LineFits(b, from, ls, j);
    var s := b[ls..j];
    assert s[p - ls] == b[p];
    if OnlySpaces(s, 0, escapes) {
      SpacesArePlain(s, 0, escapes);
    }
  }

  lemma LineFits(b: seq<byte>, from: nat, ls: nat, j: nat)
    requires LineOf(b, from, ls, j)
    ensures from <= ls <= j
  {
  }

  /** The scan of a string has come to `i`, on the line begun at `ls`, with no escape open but over a newline. */
  ghost predicate Come(b: seq<byte>, from: nat, i: nat, ls: nat, hashes: nat) {
    && LineOf(b, from, ls, i) && Between(b, from, i)
    && (hashes == 0 && i <= |b| ==> Backslashes(b, from, i) % 2 == 0 || NewlineLen(b, i) > 0)
  }

  /** What the scan of a string finds is the first place it may close. */
  ghost predicate Finds(b: seq<byte>, from: nat, i: nat, triple: bool, hashes: nat, end: Option<nat>) {
    match end
    case Some(e) =>
      && e >= i + Width(triple) + hashes
      && MayClose(b, from, e - Width(triple) - hashes, triple, hashes)
      && forall m: nat :: i <= m < e - Width(triple) - hashes ==> !MayClose(b, from, m, triple, hashes)
    case None => forall m: nat :: i <= m < |b| ==> !MayClose(b, from, m, triple, hashes)
  }

  lemma FindsLater(b: seq<byte>, from: nat, i: nat, next: nat, triple: bool, hashes: nat, end: Option<nat>)
    requires i <= next && Finds(b, from, next, triple, hashes, end)
    requires forall m: nat :: i <= m < next ==> !MayClose(b, from, m, triple, hashes)
    ensures Finds(b, from, i, triple, hashes, end)
  {
    hide MayClose;
  }

  lemma NoCloseInNewline(b: seq<byte>, from: nat, i: nat, triple: bool, hashes: nat)
    requires NewlineLen(b, i) > 0
    ensures forall m: nat :: i <= m < i + NewlineLen(b, i) ==> !MayClose(b, from, m, triple, hashes)
  {
    hide NewlineLen, AloneOnLine, HashesAt;
    forall m: nat | i <= m < i + NewlineLen(b, i)
      ensures !MayClose(b, from, m, triple, hashes)
    {
      PlainBytes(b, i, m);
    }
  }

  lemma ComeOverNewline(b: seq<byte>, from: nat, i: nat, ls: nat, hashes: nat)
    requires Come(b, from, i, ls, hashes) && NewlineLen(b, i) > 0
    ensures var next := i + NewlineLen(b, i); Come(b, from, next, next, hashes)
  {
    hide NewlineLen, LineOf, Between;
    LineFits(b, from, ls, i);
    NextLine(b, from, i);
    PlainBytes(b, i, i + NewlineLen(b, i) - 1);
  }

  lemma ComeOverByte(b: seq<byte>, from: nat, i: nat, ls: nat, hashes: nat)
    requires Come(b, from, i, ls, hashes) && i < |b| && NewlineLen(b, i) == 0
    requires b[i] != BACKSLASH || hashes > 0 || NewlineLen(b, i + 1) > 0
    ensures Come(b, from, i + 1, ls, hashes)
  {
    hide NewlineLen, LineOf, Between;
    OnLine(b, from, ls, i);
  }

  lemma EscapeIsPair(b: seq<byte>, from: nat, i: nat)
    requires from <= i < |b| && b[i] == BACKSLASH && Backslashes(b, from, i) % 2 == 0
    ensures Backslashes(b, from, i + 1) % 2 == 1
    ensures i + 2 <= |b| ==> Backslashes(b, from, i + 2) % 2 == 0
  {
    assert Backslashes(b, from, i + 1) == 1 + Backslashes(b, from, i);
    if i + 2 <= |b| && b[i + 1] == BACKSLASH {
      assert Backslashes(b, from, i + 2) == 1 + Backslashes(b, from, i + 1);
    }
  }

  lemma ComeOverEscape(b: seq<byte>, from: nat, i: nat, ls: nat, triple: bool)
    requires Come(b, from, i, ls, 0) && i < |b| && b[i] == BACKSLASH && NewlineLen(b, i + 1) == 0
    ensures Come(b, from, i + 2, ls, 0)
    ensures !MayClose(b, from, i, triple, 0) && !MayClose(b, from, i + 1, triple, 0)
  {
    hide LineOf, Between, AloneOnLine, BeginsLine, OnlySpaces, Backslashes, HashesAt;
    LineFits(b, from, ls, i);
    assert NewlineLen(b, i) == 0;
    OnLine(b, from, ls, i);
    OnLine(b, from, ls, i + 1);
    EscapeIsPair(b, from, i);
    if i + 1 < |b| {
      NotAlone(b, from, ls, i, i + 1, true);
    }
  }

  /** A quote that does not close, and the quotes right behind it that are not alone either. */
  lemma NoCloseAtQuote(b: seq<byte>, from: nat, i: nat, ls: nat, triple: bool, hashes: nat)
    requires Come(b, from, i, ls, hashes) && i < |b| && b[i] == QUOTE && !MayClose(b, from, i, triple, hashes)
    ensures var next := i + if triple && TripleAt(b, i) then 3 else 1;
            && Come(b, from, next, ls, hashes)
            && forall m: nat :: i <= m < next ==> !MayClose(b, from, m, triple, hashes)
  {
    hide LineOf, Between, AloneOnLine, BeginsLine, OnlySpaces, HashesAt, Backslashes;
    ComeOverByte(b, from, i, ls, hashes);
    if triple && TripleAt(b, i) {
      ComeOverByte(b, from, i + 1, ls, hashes);
      ComeOverByte(b, from, i + 2, ls, hashes);
      LineFits(b, from, ls, i);
      NotAlone(b, from, ls, i, i + 1, hashes == 0);
      NotAlone(b, from, ls, i, i + 2, hashes == 0);
    }
  }

  lemma QuoteCloses(b: seq<byte>, from: nat, i: nat, ls: nat, triple: bool, hashes: nat)
    requires Come(b, from, i, ls, hashes) && i < |b| && b[i] == QUOTE
    ensures MayClose(b, from, i, triple, hashes) <==>
              && (triple ==> TripleAt(b, i) && OnlySpaces(b[ls..i], 0, hashes == 0))
              && Hashes(b, i + Width(triple)) >= hashes
  {
    hide LineOf, Between, BeginsLine, OnlySpaces, AloneOnLine, Hashes, HashesAt;
    AloneIs(b, from, ls, i, hashes == 0);
    if i + Width(triple) <= |b| {
      HashesAre(b, i + Width(triple), hashes);
    }
  }

  lemma FindsNothing(b: seq<byte>, from: nat, i: nat, triple: bool, hashes: nat)
    requires i >= |b|
    ensures Finds(b, from, i, triple, hashes, None)
  {
    hide MayClose;
  }

  lemma FindsHere(b: seq<byte>, from: nat, i: nat, triple: bool, hashes: nat)
    requires MayClose(b, from, i, triple, hashes)
    ensures Finds(b, from, i, triple, hashes, Some(i + Width(triple) + hashes))
  {
    hide MayClose;
  }

  lemma NotQuote(b: seq<byte>, from: nat, i: nat, triple: bool, hashes: nat)
    requires i < |b| && b[i] != QUOTE
    ensures !MayClose(b, from, i, triple, hashes)
  {
    hide AloneOnLine, HashesAt, Backslashes;
  }

  /** The scan of a string finds the first place it may close. */
  lemma {:induction false} StringCloseFinds(
    b: seq<byte>, from: nat, i: nat, ls: nat, triple: bool, hashes: nat)
    requires ls <= i && Come(b, from, i, ls, hashes)
    ensures Finds(b, from, i, triple, hashes, StringClose(b, i, ls, triple, hashes))
    decreases |b| - i
  {
    hide MayClose, Come, NewlineLen, OnlySpaces, Hashes, Finds;
    var end := StringClose(b, i, ls, triple, hashes);
    if i >= |b| {
      FindsNothing(b, from, i, triple, hashes);
    } else if NewlineLen(b, i) > 0 {
      var next := i + NewlineLen(b, i);
      ComeOverNewline(b, from, i, ls, hashes);
      NoCloseInNewline(b, from, i, triple, hashes);
      StringCloseFinds(b, from, next, next, triple, hashes);
      FindsLater(b, from, i, next, triple, hashes, end);
    } else if b[i] == BACKSLASH && hashes == 0 && NewlineLen(b, i + 1) == 0 {
      ComeOverEscape(b, from, i, ls, triple);
      StringCloseFinds(b, from, i + 2, ls, triple, hashes);
      FindsLater(b, from, i, i + 2, triple, hashes, end);
    } else if b[i] == QUOTE {
      QuoteCloses(b, from, i, ls, triple, hashes);
      if MayClose(b, from, i, triple, hashes) {
        FindsHere(b, from, i, triple, hashes);
      } else {
        var far := triple && TripleAt(b, i) && OnlySpaces(b[ls..i], 0, hashes == 0);
        NoCloseAtQuote(b, from, i, ls, triple, hashes);
        ComeOverByte(b, from, i, ls, hashes);
        var next := if far then i + 3 else i + 1;
        StringCloseFinds(b, from, next, ls, triple, hashes);
        FindsLater(b, from, i, next, triple, hashes, end);
      }
    } else {
      ComeOverByte(b, from, i, ls, hashes);
      NotQuote(b, from, i, triple, hashes);
      StringCloseFinds(b, from, i + 1, ls, triple, hashes);
      FindsLater(b, from, i, i + 1, triple, hashes, end);
    }
  }

  lemma StartIsCome(b: seq<byte>, from: nat, hashes: nat)
    ensures Come(b, from, from, from, hashes)
  {
  }

  /** Where the scan puts the end of a string is where the text says it ends, and nowhere else. */
  lemma StringEndIs(b: seq<byte>, quote: nat, hashes: nat, end: nat)
    requires quote < |b|
    ensures var found := StringEnd(b, quote, hashes);
            IsString(b, quote, hashes, end) <==> end == if found.Some? then found.value else quote + 1
  {
    hide MayClose, Come, StringClose, OpensTriple;
    var triple := OpensTriple(b, quote);
    var from := quote + Width(triple);
    var found := StringEnd(b, quote, hashes);
    StartIsCome(b, from, hashes);
    StringCloseFinds(b, from, from, from, triple, hashes);
    forall j: nat | MayClose(b, from, j, triple, hashes)
      ensures j < |b|
    {
      InText(b, from, j, triple, hashes);
    }
    if found.Some? {
      var at: nat := found.value - Width(triple) - hashes;
      assert MayClose(b, from, at, triple, hashes);
    }
  }

  lemma InText(b: seq<byte>, from: nat, j: nat, triple: bool, hashes: nat)
    requires MayClose(b, from, j, triple, hashes)
    ensures j < |b|
  {
  }

  // ----- the other lexemes -----

  /** A line comment runs up to the first newline, or to the end. */
  ghost predicate IsLineComment(b: seq<byte>, i: nat, end: nat) {
    && i + 2 <= end <= |b| && b[i] == SLASH && b[i + 1] == SLASH
    && (forall m: nat :: i <= m < end ==> NewlineLen(b, m) == 0)
    && (end == |b| || NewlineLen(b, end) > 0)
  }

  predicate IsBlank(c: byte) {
    c == 32 || c == 9
  }

  predicate SlashesAt(b: seq<byte>, i: nat) {
    i + 1 < |b| && b[i] == SLASH && b[i + 1] == SLASH
  }

  /** A continued line behind its backslash: blanks, a comment if there is one, and the newline. */
  ghost predicate IsContinued(b: seq<byte>, i: nat, end: nat) {
    exists k: nat :: i <= k <= |b| && (forall m: nat :: i <= m < k ==> IsBlank(b[m])) && ContinuedAt(b, k, end)
  }

  ghost predicate ContinuedAt(b: seq<byte>, k: nat, end: nat) {
    if SlashesAt(b, k) then exists e: nat :: IsLineComment(b, k, e) && end == e + NewlineLen(b, e)
    else (k < |b| ==> !IsBlank(b[k])) && end == k + NewlineLen(b, k)
  }

  lemma {:induction false} LineCommentRuns(b: seq<byte>, at: nat)
    requires at <= |b|
    ensures var end := LineCommentEnd(b, at);
            && (forall m: nat :: at <= m < end ==> NewlineLen(b, m) == 0)
            && (end == |b| || NewlineLen(b, end) > 0)
    decreases |b| - at
  {
    hide NewlineLen;
    if at < |b| && NewlineLen(b, at) == 0 {
      LineCommentRuns(b, at + 1);
    }
  }

  lemma LineCommentIs(b: seq<byte>, i: nat, end: nat)
    requires SlashesAt(b, i)
    ensures IsLineComment(b, i, end) <==> end == LineCommentEnd(b, i + 1)
  {
    hide LineCommentEnd;
    LineCommentRuns(b, i + 1);
    var e := LineCommentEnd(b, i + 1);
    assert NewlineLen(b, i) == 0 && NewlineLen(b, i + 1) == 0;
    if IsLineComment(b, i, end) {
      assert end < e ==> NewlineLen(b, end) == 0;
    }
  }

  lemma {:induction false} EsclineIs(b: seq<byte>, i: nat, end: nat)
    requires i <= |b|
    ensures IsContinued(b, i, end) <==> end == EsclineClose(b, i)
    decreases |b| - i
  {
    hide NewlineLen, LineCommentEnd, IsLineComment;
    if i < |b| && IsBlank(b[i]) {
      BlankIsNoNewline(b, i);
      EsclineIs(b, i + 1, end);
      ContinuedLater(b, i, end);
    } else {
      ContinuedHere(b, i, end);
      if SlashesAt(b, i) {
        SlashIsNoNewline(b, i);
        CommentContinues(b, i, end);
      } else if i == |b| {
        assert NewlineLen(b, i) == 0 by { NoNewlineAtEnd(b); }
      }
    }
  }

  lemma NoNewlineAtEnd(b: seq<byte>)
    ensures NewlineLen(b, |b|) == 0
  {
  }

  lemma SlashIsNoNewline(b: seq<byte>, i: nat)
    requires SlashesAt(b, i)
    ensures NewlineLen(b, i) == 0
  {
  }

  lemma BlankIsNoNewline(b: seq<byte>, i: nat)
    requires i < |b| && IsBlank(b[i])
    ensures NewlineLen(b, i) == 0
  {
  }

  lemma ContinuedLater(b: seq<byte>, i: nat, end: nat)
    requires i < |b| && IsBlank(b[i])
    ensures IsContinued(b, i, end) <==> IsContinued(b, i + 1, end)
  {
    hide NewlineLen, ContinuedAt;
    if IsContinued(b, i, end) {
      var k: nat :| i <= k <= |b| && (forall m: nat :: i <= m < k ==> IsBlank(b[m])) && ContinuedAt(b, k, end);
      if k == i {
        NotAtBlank(b, i, end);
      }
    }
    if IsContinued(b, i + 1, end) {
      var k: nat :| i + 1 <= k <= |b| && (forall m: nat :: i + 1 <= m < k ==> IsBlank(b[m])) && ContinuedAt(b, k, end);
      assert forall m: nat :: i <= m < k ==> IsBlank(b[m]);
    }
  }

  lemma NotAtBlank(b: seq<byte>, i: nat, end: nat)
    requires i < |b| && IsBlank(b[i])
    ensures !ContinuedAt(b, i, end)
  {
    hide NewlineLen, IsLineComment;
  }

  lemma ContinuedHere(b: seq<byte>, i: nat, end: nat)
    requires i <= |b| && (i < |b| ==> !IsBlank(b[i]))
    ensures IsContinued(b, i, end) <==> ContinuedAt(b, i, end)
  {
    hide NewlineLen, ContinuedAt;
    if IsContinued(b, i, end) {
      var k: nat :| i <= k <= |b| && (forall m: nat :: i <= m < k ==> IsBlank(b[m])) && ContinuedAt(b, k, end);
      NoBlanks(b, i, k);
    }
  }

  lemma NoBlanks(b: seq<byte>, i: nat, k: nat)
    requires i <= k <= |b| && (i < |b| ==> !IsBlank(b[i])) && forall m: nat :: i <= m < k ==> IsBlank(b[m])
    ensures k == i
  {
  }

  lemma CommentContinues(b: seq<byte>, i: nat, end: nat)
    requires SlashesAt(b, i)
    ensures ContinuedAt(b, i, end) <==> end == EsclineAfterComment(b, LineCommentEnd(b, i + 1))
  {
    hide NewlineLen, LineCommentEnd, IsLineComment;
    var e := LineCommentEnd(b, i + 1);
    LineCommentIs(b, i, e);
    NoNewlineAtEnd(b);
    if ContinuedAt(b, i, end) {
      var x: nat :| IsLineComment(b, i, x) && end == x + NewlineLen(b, x);
      LineCommentIs(b, i, x);
    }
  }

  // ----- a text as lexemes -----

  /**
   The lexeme that begins at `i`: a newline, a comment of either kind, a continued line, a string
   with the `#` in front of it, a run of `#`, or one byte.
   */
  ghost predicate Lexeme(b: seq<byte>, i: nat, end: nat) {
    && i < |b|
    && if NewlineLen(b, i) > 0 then end == i + NewlineLen(b, i)
       else if SlashesAt(b, i) then IsLineComment(b, i, end)
       else if Opens(b, i) then end == BlockEnd(b, i)
       else if b[i] == BACKSLASH then IsContinued(b, i + 1, end)
       else if b[i] == QUOTE then IsString(b, i, 0, end)
       else if b[i] == HASH then
         var n := Hashes(b, i);
         if i + n < |b| && b[i + n] == QUOTE then IsString(b, i + n, n, end) else end == i + n
       else end == i + 1
  }

  /** BracesAfter open behind the lexeme that begins with `c`. */
  function BracesAfter(depth: nat, c: byte): nat {
    if c == BRACE then depth + 1
    else if c == BRACE_CLOSE && depth > 0 then depth - 1
    else depth
  }

  /** One token of the scan is one lexeme. */
  lemma TokenIsLexeme(b: seq<byte>, i: nat, depth: nat, end: nat)
    requires i < |b| && NewlineLen(b, i) == 0
    ensures Lexeme(b, i, end) <==> end == Token(b, i, depth).0
    ensures Token(b, i, depth).1 == BracesAfter(depth, b[i])
  {
    hide NewlineLen, StringEnd, EsclineClose, LineCommentEnd, IsString, IsContinued, IsLineComment, Hashes,
         CommentMarks, CommentEnd;
    if SlashesAt(b, i) {
      LineCommentIs(b, i, end);
    } else if b[i] == BACKSLASH {
      EsclineIs(b, i + 1, end);
    } else if b[i] == QUOTE {
      StringEndIs(b, i, 0, end);
    } else if b[i] == HASH {
      var n := Hashes(b, i);
      if i + n < |b| && b[i + n] == QUOTE {
        StringEndIs(b, i + n, n, end);
      }
    }
  }

  /** `ts` cuts a text into lexemes. */
  ghost predicate Tiling(b: seq<byte>, ts: seq<nat>) {
    && ts != [] && ts[0] == 0 && ts[|ts| - 1] == |b|
    && forall k :: 0 <= k < |ts| - 1 ==> Lexeme(b, ts[k], ts[k + 1])
  }

  /** BracesAfter open in front of the `k`-th lexeme. */
  function DepthAt(b: seq<byte>, ts: seq<nat>, k: nat): nat
    requires k <= |ts| && forall j :: 0 <= j < k ==> ts[j] < |b|
  {
    if k == 0 then 0 else BracesAfter(DepthAt(b, ts, k - 1), b[ts[k - 1]])
  }

  /** The `k`-th lexeme is the first of its line. */
  predicate FirstOnLine(b: seq<byte>, ts: seq<nat>, k: nat)
    requires k < |ts|
  {
    k == 0 || NewlineLen(b, ts[k - 1]) > 0
  }

  /** A mark begins at the `k`-th lexeme. */
  ghost predicate MarkedAt(b: seq<byte>, ts: seq<nat>, k: nat)
    requires Tiling(b, ts) && k < |ts| - 1
  {
    Inside(b, ts);
    MarkerText(b, ts[k]) && FirstOnLine(b, ts, k) && DepthAt(b, ts, k) == 0
  }

  lemma Inside(b: seq<byte>, ts: seq<nat>)
    requires Tiling(b, ts)
    ensures forall k :: 0 <= k < |ts| - 1 ==> ts[k] < |b|
  {
    hide Lexeme;
    forall k | 0 <= k < |ts| - 1
      ensures ts[k] < |b|
    {
      LexemeInText(b, ts[k], ts[k + 1]);
    }
  }

  lemma LexemeGrows(b: seq<byte>, i: nat, end: nat)
    requires Lexeme(b, i, end)
    ensures i < end <= |b|
  {
    hide Lexeme, Token;
    if NewlineLen(b, i) > 0 {
      NewlineLexeme(b, i);
      LexemeIsNewline(b, i, end);
    } else {
      LexemeInText(b, i, end);
      TokenIsLexeme(b, i, 0, end);
    }
  }

  lemma LexemeInText(b: seq<byte>, i: nat, end: nat)
    requires Lexeme(b, i, end)
    ensures i < |b|
  {
    hide NewlineLen, IsString, IsContinued, IsLineComment, Hashes, BlockEnd;
  }

  lemma NewlineLexeme(b: seq<byte>, i: nat)
    requires NewlineLen(b, i) > 0
    ensures i < |b| && Lexeme(b, i, i + NewlineLen(b, i)) && BracesAfter(0, b[i]) == 0
    ensures forall depth: nat :: BracesAfter(depth, b[i]) == depth
    ensures !MarkerText(b, i)
  {
    hide IsString, IsContinued, IsLineComment, Hashes, BlockEnd;
  }

  lemma LexemeIsNewline(b: seq<byte>, i: nat, end: nat)
    requires NewlineLen(b, i) > 0 && Lexeme(b, i, end)
    ensures end == i + NewlineLen(b, i)
  {
    hide NewlineLen, IsString, IsContinued, IsLineComment, Hashes, BlockEnd;
  }

  /** A slash that opens no comment, and a dash, are a lexeme each. */
  lemma PlainLexeme(b: seq<byte>, i: nat, end: nat)
    requires i < |b| && (MarkerText(b, i) || b[i] == DASH)
    ensures NewlineLen(b, i) == 0 && (Lexeme(b, i, end) <==> end == i + 1)
    ensures forall depth: nat :: BracesAfter(depth, b[i]) == depth
  {
    hide IsString, IsContinued, IsLineComment, Hashes, BlockEnd;
  }

  /** The lexemes of a text, found one after another. */
  function Tiles(b: seq<byte>, i: nat): (ts: seq<nat>)
    requires i <= |b|
    ensures ts != []
    decreases |b| - i
  {
    if i == |b| then [i]
    else if NewlineLen(b, i) > 0 then [i] + Tiles(b, i + NewlineLen(b, i))
    else [i] + Tiles(b, Token(b, i, 0).0)
  }

  lemma {:induction false} TilesFit(b: seq<byte>, i: nat)
    requires i <= |b|
    ensures var ts := Tiles(b, i);
            && ts[0] == i && ts[|ts| - 1] == |b|
            && forall k :: 0 <= k < |ts| - 1 ==> Lexeme(b, ts[k], ts[k + 1])
    decreases |b| - i
  {
    hide NewlineLen, Token, Lexeme;
    if i < |b| {
      var next := if NewlineLen(b, i) > 0 then i + NewlineLen(b, i) else Token(b, i, 0).0;
      TilesFit(b, next);
      var rest := Tiles(b, next);
      if NewlineLen(b, i) > 0 {
        NewlineLexeme(b, i);
      } else {
        TokenIsLexeme(b, i, 0, next);
      }
      assert Tiles(b, i) == [i] + rest;
      forall k | 0 <= k < |rest|
        ensures Lexeme(b, ([i] + rest)[k], ([i] + rest)[k + 1])
      {
        assert k > 0 ==> ([i] + rest)[k] == rest[k - 1];
      }
    }
  }

  /** Every text falls into lexemes, in one way. */
  lemma TilesAreATiling(b: seq<byte>)
    ensures Tiling(b, Tiles(b, 0))
  {
    hide Lexeme, Tiles;
    TilesFit(b, 0);
  }

  lemma {:induction false} OneTilingOnly(b: seq<byte>, ts: seq<nat>, us: seq<nat>, k: nat)
    requires Tiling(b, ts) && Tiling(b, us) && k < |ts|
    ensures k < |us| && us[k] == ts[k]
  {
    hide Lexeme;
    if k > 0 {
      OneTilingOnly(b, ts, us, k - 1);
      assert Lexeme(b, ts[k - 1], ts[k]);
      LexemeInText(b, ts[k - 1], ts[k]);
      assert Lexeme(b, us[k - 1], us[k]);
      OneLexemeOnly(b, ts[k - 1], ts[k], us[k]);
    }
  }

  lemma OneLexemeOnly(b: seq<byte>, i: nat, end: nat, other: nat)
    requires Lexeme(b, i, end) && Lexeme(b, i, other)
    ensures end == other
  {
    hide Lexeme, Token;
    if NewlineLen(b, i) > 0 {
      LexemeIsNewline(b, i, end);
      LexemeIsNewline(b, i, other);
    } else {
      LexemeInText(b, i, end);
      TokenIsLexeme(b, i, 0, end);
      TokenIsLexeme(b, i, 0, other);
    }
  }

  // ----- the marks -----

  ghost predicate MarkHere(b: seq<byte>, ts: seq<nat>, k: nat, p: nat)
    requires Tiling(b, ts)
  {
    k < |ts| - 1 && ts[k] == p && MarkedAt(b, ts, k)
  }

  ghost predicate MarkedFrom(b: seq<byte>, ts: seq<nat>, k: nat, p: nat)
    requires Tiling(b, ts)
  {
    exists j: nat :: j >= k && MarkHere(b, ts, j, p)
  }

  lemma MarkedStep(b: seq<byte>, ts: seq<nat>, k: nat, p: nat)
    requires Tiling(b, ts)
    ensures MarkedFrom(b, ts, k, p) <==> MarkHere(b, ts, k, p) || MarkedFrom(b, ts, k + 1, p)
  {
    hide Tiling, MarkHere;
    if MarkedFrom(b, ts, k, p) && !MarkHere(b, ts, k, p) {
      var j: nat :| j >= k && MarkHere(b, ts, j, p);
      assert j >= k + 1;
    }
  }

  /** From the `k`-th lexeme on, the scan finds the marks and only them. */
  lemma {:induction false} MarksFrom(b: seq<byte>, ts: seq<nat>, k: nat, p: nat)
    requires Tiling(b, ts) && k < |ts| && forall j :: 0 <= j < k ==> ts[j] < |b|
    ensures p in MarkersFrom(b, ts[k], DepthAt(b, ts, k), FirstOnLine(b, ts, k)) <==> MarkedFrom(b, ts, k, p)
    decreases |ts| - k
  {
    hide Lexeme, NewlineLen, Token, BracesAfter, MarkedFrom;
    Inside(b, ts);
    MarkedStep(b, ts, k, p);
    var i, depth, first := ts[k], DepthAt(b, ts, k), FirstOnLine(b, ts, k);
    if k == |ts| - 1 {
      NoneBehind(b, ts, k + 1, p);
    } else {
      assert Lexeme(b, i, ts[k + 1]);
      assert DepthAt(b, ts, k + 1) == BracesAfter(depth, b[i]);
      if NewlineLen(b, i) > 0 {
        NewlineLexeme(b, i);
        LexemeIsNewline(b, i, ts[k + 1]);
        MarksFrom(b, ts, k + 1, p);
      } else if first && depth == 0 && MarkerText(b, i) {
        PlainLexeme(b, i, ts[k + 1]);
        assert ts[k + 1] == i + 1;
        assert k + 1 < |ts| - 1;
        assert Lexeme(b, ts[k + 1], ts[k + 2]);
        PlainLexeme(b, i + 1, ts[k + 2]);
        assert DepthAt(b, ts, k + 2) == BracesAfter(depth, b[i + 1]);
        MarkedStep(b, ts, k + 1, p);
        MarksFrom(b, ts, k + 2, p);
        assert MarkersFrom(b, i, depth, first) == [i] + MarkersFrom(b, i + 2, depth, false);
      } else {
        TokenIsLexeme(b, i, depth, ts[k + 1]);
        MarksFrom(b, ts, k + 1, p);
      }
    }
  }

  lemma NoneBehind(b: seq<byte>, ts: seq<nat>, k: nat, p: nat)
    requires Tiling(b, ts) && k >= |ts| - 1
    ensures !MarkedFrom(b, ts, k, p)
  {
    hide Lexeme, MarkedAt;
  }

  /**
   However a text falls into lexemes, the marks the scan reports are exactly the `/-` that begin a
   lexeme right behind a newline, or the text, with no brace open in front of them.
   */
  lemma MarksAreTheOpeners(b: seq<byte>, ts: seq<nat>, p: nat)
    requires Tiling(b, ts)
    ensures p in SlashdashMarks(b) <==> exists k: nat :: k < |ts| - 1 && ts[k] == p && MarkedAt(b, ts, k)
  {
    hide Lexeme, MarkedAt, MarkersFrom;
    MarksFrom(b, ts, 0, p);
    if MarkedFrom(b, ts, 0, p) {
      var k: nat :| k >= 0 && MarkHere(b, ts, k, p);
      assert k < |ts| - 1 && ts[k] == p && MarkedAt(b, ts, k);
    }
    if k: nat :| k < |ts| - 1 && ts[k] == p && MarkedAt(b, ts, k) {
      assert MarkHere(b, ts, k, p);
    }
  }

  lemma {:induction false} TilesGrow(b: seq<byte>, ts: seq<nat>, j: nat, k: nat)
    requires Tiling(b, ts) && j < k < |ts|
    ensures ts[j] < ts[k]
  {
    hide Lexeme;
    assert Lexeme(b, ts[k - 1], ts[k]);
    LexemeGrows(b, ts[k - 1], ts[k]);
    if j < k - 1 {
      TilesGrow(b, ts, j, k - 1);
    }
  }

  /** Inside a comment, a string, a continued line or any other lexeme there is no mark. */
  lemma NoMarkInside(b: seq<byte>, ts: seq<nat>, k: nat, p: nat)
    requires Tiling(b, ts) && k < |ts| - 1 && ts[k] < p < ts[k + 1]
    ensures p !in SlashdashMarks(b)
  {
    hide Lexeme, Tiling, MarkedAt, SlashdashMarks;
    MarksAreTheOpeners(b, ts, p);
    forall j: nat | j < |ts| - 1
      ensures ts[j] != p
    {
      if j < k {
        TilesGrow(b, ts, j, k);
      } else if j > k + 1 {
        TilesGrow(b, ts, k + 1, j);
      }
    }
  }
}
