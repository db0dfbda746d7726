/**
 The `/-` markers that open a line of a configuration: found by one scan that steps over
 comments, strings and continued lines, cut out before the text is parsed again.
 */
module Markers {
  import opened Results
  import opened Bytes
  import opened Bounds

  const DASH: byte := 45  // '-'
  const QUOTE: byte := 34  // '"'
  const HASH: byte := 35  // '#'
  const BACKSLASH: byte := 92
  const BRACE_CLOSE: byte := 125  // '}'

  // ----- what the scan steps over, as functions -----

  /** Index of the newline that ends the line comment at `at`, or the end of the text. */
  function LineCommentEnd(b: seq<byte>, at: nat): (end: nat)
    requires at <= |b|
    ensures at <= end <= |b|
    decreases |b| - at
  {
    if at == |b| || NewlineLen(b, at) > 0 then at else LineCommentEnd(b, at + 1)
  }

  /** Length of the space at `at`, if one of the parser's spaces starts there. */
  function SpaceLen(b: seq<byte>, at: nat): (n: nat)
    ensures n > 0 ==> at + n <= |b|
  {
    if at >= |b| then 0
    else if b[at] == 9 || b[at] == 32 then 1
    else if b[at] == 0xc2 && at + 1 < |b| && b[at + 1] == 0xa0 then 2
    else if at + 2 >= |b| then 0
    else if b[at] == 0xe1 && b[at + 1] == 0x9a && b[at + 2] == 0x80 then 3
    else if b[at] == 0xe2 && b[at + 1] == 0x80 && (0x80 <= b[at + 2] <= 0x8a || b[at + 2] == 0xaf) then 3
    else if b[at] == 0xe2 && b[at + 1] == 0x81 && b[at + 2] == 0x9f then 3
    else if b[at] == 0xe3 && b[at + 1] == 0x80 && b[at + 2] == 0x80 then 3
    else 0
  }

  /** The parser's spaces, as code points. */
  const SPACES: seq<nat> := [
    0x0009, 0x0020, 0x00A0, 0x1680, 0x2000, 0x2001, 0x2002, 0x2003, 0x2004, 0x2005, 0x2006, 0x2007, 0x2008, 0x2009,
    0x200A, 0x202F, 0x205F, 0x3000]

  /** UTF-8 of a code point up to U+FFFF. */
  function Utf8Of(point: nat): seq<byte>
    requires point < 0x10000
  {
    if point < 0x80 then [point]
    else if point < 0x800 then [0xC0 + point / 64, 0x80 + point % 64]
    else [0xE0 + point / 4096, 0x80 + point / 64 % 64, 0x80 + point % 64]
  }

  predicate IsSpaceAt(b: seq<byte>, at: nat, n: nat) {
    exists k :: 0 <= k < |SPACES| && SPACES[k] < 0x10000
                && StandsAt(b, at, Utf8Of(SPACES[k])) && |Utf8Of(SPACES[k])| == n
  }

  lemma SpacesSpelled()
    ensures forall k :: 0 <= k < |SPACES| ==> SPACES[k] < 0x10000
    ensures Utf8Of(0x09) == [0x09] && Utf8Of(0x20) == [0x20] && Utf8Of(0xA0) == [0xC2, 0xA0]
    ensures Utf8Of(0x1680) == [0xE1, 0x9A, 0x80] && Utf8Of(0x202F) == [0xE2, 0x80, 0xAF]
    ensures Utf8Of(0x205F) == [0xE2, 0x81, 0x9F] && Utf8Of(0x3000) == [0xE3, 0x80, 0x80]
    ensures forall p: nat :: 0x2000 <= p <= 0x200A ==> Utf8Of(p) == [0xE2, 0x80, 0x80 + (p - 0x2000)]
  {
  }

  /** A space is one of them, and is as long as its UTF-8. */
  lemma SpaceIsListed(b: seq<byte>, at: nat)
    ensures SpaceLen(b, at) > 0 ==> IsSpaceAt(b, at, SpaceLen(b, at))
    ensures forall n: nat :: IsSpaceAt(b, at, n) ==> n == SpaceLen(b, at)
  {
    hide Utf8Of;
    SpacesSpelled();
    var n := SpaceLen(b, at);
    if n > 0 {
      ListedSpace(b, at);
    }
    forall m: nat | IsSpaceAt(b, at, m)
      ensures m == n
    {
      var k :| 0 <= k < |SPACES| && SPACES[k] < 0x10000 && StandsAt(b, at, Utf8Of(SPACES[k]))
          && |Utf8Of(SPACES[k])| == m;
      var word := Utf8Of(SPACES[k]);
      assert b[at] == word[0];
      assert m > 1 ==> b[at + 1] == word[1];
      assert m > 2 ==> b[at + 2] == word[2];
    }
  }

  lemma ListedSpace(b: seq<byte>, at: nat)
    requires SpaceLen(b, at) > 0
    ensures IsSpaceAt(b, at, SpaceLen(b, at))
  {
    hide Utf8Of;
    SpacesSpelled();
    var n := SpaceLen(b, at);
    var word := b[at..at + n];
    assert n == 1 ==> word == [b[at]];
    assert n == 2 ==> word == [b[at], b[at + 1]];
    assert n == 3 ==> word == [b[at], b[at + 1], b[at + 2]];
    var k := if b[at] == 9 then 0 else if b[at] == 32 then 1 else if b[at] == 0xc2 then 2 else if b[at] == 0xe1 then 3
             else if b[at] == 0xe3 then 17 else if b[at + 1] == 0x81 then 16 else if b[at + 2] == 0xaf then 15
             else 4 + (b[at + 2] - 0x80);
    assert 4 <= k <= 14 ==> SPACES[k] == 0x2000 + (k - 4);
    assert Utf8Of(SPACES[k]) == word;
  }

  /** Whether `b` from `i` on is only what may stand before a multi-line string's closing quotes. */
  predicate OnlySpaces(b: seq<byte>, i: nat, escapes: bool)
    decreases |b| - i
  {
    if i >= |b| then true
    else if escapes && b[i] == BACKSLASH then
      SpaceLen(b, i + 1) > 0 && OnlySpaces(b, i + 1 + SpaceLen(b, i + 1), escapes)
    else SpaceLen(b, i) > 0 && OnlySpaces(b, i + SpaceLen(b, i), escapes)
  }

  /** How many `#` stand at `at`. */
  function Hashes(b: seq<byte>, at: nat): (n: nat)
    ensures at <= |b| ==> at + n <= |b|
    decreases |b| - at
  {
    if at < |b| && b[at] == HASH then 1 + Hashes(b, at + 1) else 0
  }

  predicate TripleAt(b: seq<byte>, i: nat) {
    i + 3 <= |b| && b[i] == QUOTE && b[i + 1] == QUOTE && b[i + 2] == QUOTE
  }

  /** Index just past the close of a string read up to `i`, on the line begun at `lineStart`. */
  function StringClose(b: seq<byte>, i: nat, lineStart: nat, triple: bool, hashes: nat): (end: Option<nat>)
    requires lineStart <= i
    ensures end.Some? ==> i < end.value <= |b|
    decreases |b| - i
  {
    if i >= |b| then None
    else if NewlineLen(b, i) > 0 then
      StringClose(b, i + NewlineLen(b, i), i + NewlineLen(b, i), triple, hashes)
    else if b[i] == BACKSLASH && hashes == 0 then
      StringClose(b, i + (if NewlineLen(b, i + 1) > 0 then 1 else 2), lineStart, triple, hashes)
    else if b[i] == QUOTE then
      if triple && (!TripleAt(b, i) || !OnlySpaces(b[lineStart..i], 0, hashes == 0)) then
        StringClose(b, i + 1, lineStart, triple, hashes)
      else
        var after := i + if triple then 3 else 1;
        if Hashes(b, after) >= hashes then Some(after + hashes)
        else StringClose(b, after, lineStart, triple, hashes)
    else StringClose(b, i + 1, lineStart, triple, hashes)
  }

  predicate OpensTriple(b: seq<byte>, quote: nat) {
    TripleAt(b, quote) && NewlineLen(b, quote + 3) > 0
  }

  /** `string_end`: index just past the string whose opening quote is at `quote`. */
  function StringEnd(b: seq<byte>, quote: nat, hashes: nat): (end: Option<nat>)
    requires quote < |b|
    ensures end.Some? ==> quote < end.value <= |b|
  {
    var start := quote + if OpensTriple(b, quote) then 3 else 1;
    StringClose(b, start, start, OpensTriple(b, quote), hashes)
  }

  /** A continued line from `i` on: index just past the newline it ends on. */
  function EsclineClose(b: seq<byte>, i: nat): (end: nat)
    requires i <= |b|
    ensures i <= end <= |b|
    decreases |b| - i, 1
  {
    if i == |b| then i
    else if NewlineLen(b, i) > 0 then i + NewlineLen(b, i)
    else if b[i] == 32 || b[i] == 9 then EsclineClose(b, i + 1)
    else if b[i] == SLASH && i + 1 < |b| && b[i + 1] == SLASH then EsclineAfterComment(b, LineCommentEnd(b, i + 1))
    else i
  }

  /** A line comment ends at a newline or with the text, which is where the escline ends too. */
  function EsclineAfterComment(b: seq<byte>, i: nat): (end: nat)
    requires i <= |b|
    ensures i <= end <= |b|
  {
    if i == |b| then i else i + NewlineLen(b, i)
  }

  /** Where the walk over a block comment stops: at its end, or with the text past the bound. */
  function BlockEnd(b: seq<byte>, i: nat): (end: nat)
    requires Opens(b, i)
    ensures i + 2 <= end <= |b|
  {
    if CommentMarks(b, i) <= MAX_COMMENT_MARKS then CommentEnd(b, i) else |b|
  }

  /** One token of the scan: the index after it, and the braces open there. */
  function Token(b: seq<byte>, i: nat, depth: nat): (t: (nat, nat))
    requires i < |b|
    ensures i < t.0 <= |b|
  {
    if b[i] == SLASH && i + 1 < |b| && b[i + 1] == SLASH then
      NoNewlineInside(b, i);
      (LineCommentEnd(b, i + 1), depth)
    else if Opens(b, i) then (BlockEnd(b, i), depth)
    else if b[i] == BACKSLASH then (EsclineClose(b, i + 1), depth)
    else if b[i] == QUOTE then
      var end := StringEnd(b, i, 0);
      (if end.Some? then end.value else i + 1, depth)
    else if b[i] == HASH then
      var n := Hashes(b, i);
      if i + n < |b| && b[i + n] == QUOTE then
        var end := StringEnd(b, i + n, n);
        (if end.Some? then end.value else i + n + 1, depth)
      else (i + n, depth)
    else if b[i] == BRACE then (i + 1, depth + 1)
    else if b[i] == BRACE_CLOSE then (i + 1, if depth > 0 then depth - 1 else 0)
    else (i + 1, depth)
  }

  lemma NoNewlineInside(b: seq<byte>, i: nat)
    requires i < |b| && b[i] == SLASH
    ensures LineCommentEnd(b, i) == LineCommentEnd(b, i + 1)
  {
  }

  predicate MarkerText(b: seq<byte>, i: nat) {
    i + 1 < |b| && b[i] == SLASH && b[i + 1] == DASH
  }

  /** The markers from `i` on. */
  function MarkersFrom(b: seq<byte>, i: nat, depth: nat, opensLine: bool): seq<nat>
    decreases |b| - i
  {
    if i >= |b| then []
    else if opensLine && depth == 0 && MarkerText(b, i) then [i] + MarkersFrom(b, i + 2, depth, false)
    else if NewlineLen(b, i) > 0 then MarkersFrom(b, i + NewlineLen(b, i), depth, true)
    else
      var t := Token(b, i, depth);
      MarkersFrom(b, t.0, t.1, false)
  }

  /** `slashdash_marks` */
  function SlashdashMarks(b: seq<byte>): seq<nat> {
    MarkersFrom(b, 0, 0, true)
  }

  // ----- the scan as it runs -----

  method FindLineCommentEnd(b: seq<byte>, at: nat) returns (end: nat)
    requires at <= |b|
    ensures end == LineCommentEnd(b, at)
  {
    end := at;
    while end < |b|
      invariant at <= end <= |b|
      invariant LineCommentEnd(b, end) == LineCommentEnd(b, at)
    {
      if NewlineLen(b, end) > 0 {
        return end;
      }
      end := end + 1;
    }
  }

  method CheckOnlySpaces(b: seq<byte>, escapes: bool) returns (r: bool)
    ensures r == OnlySpaces(b, 0, escapes)
  {
    var i := 0;
    while i < |b|
      invariant OnlySpaces(b, 0, escapes) == OnlySpaces(b, i, escapes)
      decreases |b| - i
    {
      if escapes && b[i] == BACKSLASH {
        var n := SpaceLen(b, i + 1);
        if n == 0 {
          return false;
        }
        i := i + 1 + n;
      } else {
        var n := SpaceLen(b, i);
        if n == 0 {
          return false;
        }
        i := i + n;
      }
    }
    r := true;
  }

  method CountHashes(b: seq<byte>, at: nat) returns (n: nat)
    requires at <= |b|
    ensures n == Hashes(b, at)
  {
    n := 0;
    while at + n < |b| && b[at + n] == HASH
      invariant at + n <= |b|
      invariant n + Hashes(b, at + n) == Hashes(b, at)
      decreases |b| - at - n
    {
      n := n + 1;
    }
  }

  method FindStringEnd(b: seq<byte>, quote: nat, hashes: nat) returns (end: Option<nat>)
    requires quote < |b|
    ensures end == StringEnd(b, quote, hashes)
  {
    hide Hashes, OnlySpaces;
    var triple := OpensTriple(b, quote);
    var i := quote + if triple then 3 else 1;
    var lineStart := i;
    while i < |b|
      invariant quote < lineStart <= i
      invariant StringClose(b, i, lineStart, triple, hashes) == StringEnd(b, quote, hashes)
      decreases |b| - i
    {
      var n := NewlineLen(b, i);
      if n > 0 {
        i := i + n;
        lineStart := i;
        continue;
      }
      if b[i] == BACKSLASH && hashes == 0 {
        i := i + if NewlineLen(b, i + 1) > 0 then 1 else 2;
      } else if b[i] == QUOTE {
        if triple {
          var alone := CheckOnlySpaces(b[lineStart..i], hashes == 0);
          if !TripleAt(b, i) || !alone {
            i := i + 1;
            continue;
          }
        }
        var after := i + if triple then 3 else 1;
        var count := CountHashes(b, after);
        if count >= hashes {
          return Some(after + hashes);
        }
        i := after;
      } else {
        i := i + 1;
      }
    }
    end := None;
  }

  method FindEsclineEnd(b: seq<byte>, at: nat) returns (end: nat)
    requires at < |b|
    ensures end == EsclineClose(b, at + 1)
  {
    var i := at + 1;
    while i < |b|
      invariant at < i <= |b|
      invariant EsclineClose(b, i) == EsclineClose(b, at + 1)
      decreases |b| - i
    {
      var n := NewlineLen(b, i);
      if n > 0 {
        return i + n;
      }
      if b[i] == 32 || b[i] == 9 {
        i := i + 1;
      } else if b[i] == SLASH && i + 1 < |b| && b[i + 1] == SLASH {
        NoNewlineInside(b, i);
        ghost var before := i;
        i := FindLineCommentEnd(b, i);
        LineEndHasNewline(b, before + 1);
      } else {
        return i;
      }
    }
    end := |b|;
  }

  lemma {:induction false} LineEndHasNewline(b: seq<byte>, at: nat)
    requires at <= |b|
    ensures LineCommentEnd(b, at) < |b| ==> NewlineLen(b, LineCommentEnd(b, at)) > 0
    decreases |b| - at
  {
    if at < |b| && NewlineLen(b, at) == 0 {
      LineEndHasNewline(b, at + 1);
    }
  }

  method FindMarkers(b: seq<byte>) returns (out: seq<nat>)
    ensures out == SlashdashMarks(b)
  {
    out := [];
    var depth: nat := 0;
    var opensLine := true;
    var i: nat := 0;
    while i < |b|
      invariant i <= |b|
      invariant SlashdashMarks(b) == out + MarkersFrom(b, i, depth, opensLine)
      decreases |b| - i
    {
      if opensLine && depth == 0 && b[i] == SLASH && i + 1 < |b| && b[i + 1] == DASH {
        assert MarkersFrom(b, i, depth, opensLine) == [i] + MarkersFrom(b, i + 2, depth, false);
        out := out + [i];
        i := i + 2;
        opensLine := false;
        continue;
      }
      var n := NewlineLen(b, i);
      if n > 0 {
        i := i + n;
        opensLine := true;
        continue;
      }
      ghost var token := Token(b, i, depth);
      if b[i] == SLASH && i + 1 < |b| && b[i + 1] == SLASH {
        NoNewlineInside(b, i);
        i := FindLineCommentEnd(b, i);
      } else if b[i] == SLASH && i + 1 < |b| && b[i + 1] == STAR {
        var end, marks;
        ghost var steps;
        end, marks, steps := BlockCommentEnd(b, i);
        i := end;
      } else if b[i] == BACKSLASH {
        i := FindEsclineEnd(b, i);
      } else if b[i] == QUOTE {
        var end := FindStringEnd(b, i, 0);
        i := if end.Some? then end.value else i + 1;
      } else if b[i] == HASH {
        var hashes := CountHashes(b, i);
        if i + hashes < |b| && b[i + hashes] == QUOTE {
          var end := FindStringEnd(b, i + hashes, hashes);
          i := if end.Some? then end.value else i + hashes + 1;
        } else {
          i := i + hashes;
        }
      } else if b[i] == BRACE {
        depth := depth + 1;
        i := i + 1;
      } else if b[i] == BRACE_CLOSE {
        depth := if depth > 0 then depth - 1 else 0;
        i := i + 1;
      } else {
        i := i + 1;
      }
      assert (i, depth) == token;
      opensLine := false;
    }
    assert out + [] == out;
  }

  // ----- what a marker is -----

  /** A marker opens a line: it is the first of the text or follows a newline. */
  predicate MarkerAt(b: seq<byte>, i: nat) {
    MarkerText(b, i) && (i == 0 || EndsLine(b[i - 1]))
  }

  /** Markers in order, none inside another. */
  predicate MarkersOk(b: seq<byte>, marks: seq<nat>) {
    && (forall k :: 0 <= k < |marks| ==> MarkerAt(b, marks[k]))
    && (forall k :: 0 <= k < |marks| - 1 ==> marks[k] + 2 <= marks[k + 1])
  }

  lemma {:induction false} MarkersFromOk(b: seq<byte>, i: nat, depth: nat, opensLine: bool)
    requires opensLine ==> i == 0 || (i <= |b| && EndsLine(b[i - 1]))
    ensures var marks := MarkersFrom(b, i, depth, opensLine);
            MarkersOk(b, marks) && (marks != [] ==> marks[0] >= i)
    decreases |b| - i
  {
    hide Token, NewlineLen;
    if i < |b| {
      if opensLine && depth == 0 && MarkerText(b, i) {
        MarkersFromOk(b, i + 2, depth, false);
        var rest := MarkersFrom(b, i + 2, depth, false);
        assert MarkersFrom(b, i, depth, opensLine) == [i] + rest;
        assert forall k :: 0 < k < |rest| + 1 ==> ([i] + rest)[k] == rest[k - 1];
      } else if NewlineLen(b, i) > 0 {
        MarkersFromOk(b, i + NewlineLen(b, i), depth, true);
      } else {
        MarkersFromOk(b, Token(b, i, depth).0, Token(b, i, depth).1, false);
      }
    }
  }

  /** The characters the scan looks for. */
  lemma BytesAreSpelled()
    ensures SLASH == '/' as int && STAR == '*' as int && DASH == '-' as int && QUOTE == '"' as int
    ensures HASH == '#' as int && BACKSLASH == '\\' as int && BRACE == '{' as int && BRACE_CLOSE == '}' as int
  {
  }
}
