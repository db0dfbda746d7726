/** Which program the command of any entry runs, and the characters that count as space there. */
module DesktopProgram {
  import opened Results
  import opened Desktop
  import opened DesktopText
  import opened DesktopHead
  import opened DesktopExec

  // ----- space -----

  /** The code points of the Unicode property White_Space. */
  const WHITE_SPACE: seq<int> := [
    0x0009, 0x000A, 0x000B, 0x000C, 0x000D, 0x0020, 0x0085, 0x00A0, 0x1680, 0x2000, 0x2001, 0x2002, 0x2003, 0x2004,
    0x2005, 0x2006, 0x2007, 0x2008, 0x2009, 0x200A, 0x2028, 0x2029, 0x202F, 0x205F, 0x3000]

  lemma SpacesAre(c: char)
    ensures IsSpace(c) <==> c as int in WHITE_SPACE
    ensures AsciiSpace(c) <==> c as int in [0x09, 0x0A, 0x0C, 0x0D, 0x20]
  {
    var n := c as int;
    assert 9 <= n <= 13 ==> WHITE_SPACE[n - 9] == n;
    assert 0x2000 <= n <= 0x200A ==> WHITE_SPACE[n - 0x2000 + 9] == n;
    assert WHITE_SPACE[5] == 0x20 && WHITE_SPACE[6] == 0x85 && WHITE_SPACE[7] == 0xA0 && WHITE_SPACE[8] == 0x1680;
    assert WHITE_SPACE[20] == 0x2028 && WHITE_SPACE[21] == 0x2029 && WHITE_SPACE[22] == 0x202F;
    assert WHITE_SPACE[23] == 0x205F && WHITE_SPACE[24] == 0x3000;
  }

  // ----- the program of a command -----

  /** Between quotes a text is spelled by its own characters, any of them behind a backslash, those two always. */
  ghost predicate Quotes(body: string, text: string)
    decreases |text|
  {
    if text == "" then body == ""
    else
      || (body != "" && body[0] != '"' && body[0] != '\\' && body[0] == text[0] && Quotes(body[1..], text[1..]))
      || (|body| >= 2 && body[0] == '\\' && body[1] == text[0] && Quotes(body[2..], text[1..]))
  }

  /** `rest` begins with a quoted program. */
  ghost predicate RunsQuoted(rest: string, program: string) {
    exists body: string, after: string :: rest == "\"" + body + "\"" + after && Quotes(body, program)
  }

  /** `rest` begins with a program that is one word. */
  ghost predicate RunsWord(rest: string, program: string) {
    && program != "" && program <= rest && (forall i :: 0 <= i < |program| ==> !AsciiSpace(program[i]))
    && (|program| < |rest| ==> AsciiSpace(rest[|program|]))
  }

  /** A command runs the program it begins with, behind any space: up to its closing quote, or its first word. */
  ghost predicate Runs(value: string, program: string) {
    exists space: string, rest: string ::
      && value == space + rest && Blank(space) && (rest != "" ==> !IsSpace(rest[0]))
      && if rest != "" && rest[0] == '"' then RunsQuoted(rest, program) else RunsWord(rest, program)
  }

  lemma {:induction false} QuotesAreRead(body: string, text: string, after: string, out: string)
    requires Quotes(body, text)
    ensures Unquoted(body + "\"" + after, out, false) == Some(out + text)
    decreases |text|
  {
    var s := body + "\"" + after;
    if text == "" {
      QuoteRead(after, out);
      assert s == "\"" + after && out + text == out;
    } else {
      var c := text[0];
      assert out + [c] + text[1..] == out + text;
      if body[0] == '\\' {
        assert s == ['\\', c] + (body[2..] + "\"" + after);
        EscapeRead(c, body[2..] + "\"" + after, out);
        QuotesAreRead(body[2..], text[1..], after, out + [c]);
      } else {
        assert s == [c] + (body[1..] + "\"" + after);
        PlainRead(c, body[1..] + "\"" + after, out);
        QuotesAreRead(body[1..], text[1..], after, out + [c]);
      }
    }
  }

  lemma {:induction false} ReadIsQuoted(s: string, out: string) returns (body: string, text: string, after: string)
    requires Unquoted(s, out, false).Some?
    ensures s == body + "\"" + after && Quotes(body, text) && Unquoted(s, out, false) == Some(out + text)
    decreases |s|
  {
    if s[0] == '"' {
      body, text, after := "", "", s[1..];
      assert out + text == out;
    } else if s[0] == '\\' {
      var c := s[1];
      assert s == ['\\', c] + s[2..];
      EscapeRead(c, s[2..], out);
      var more, tail, end := ReadIsQuoted(s[2..], out + [c]);
      body, text, after := ['\\', c] + more, [c] + tail, end;
      assert body[2..] == more && text[1..] == tail && out + [c] + tail == out + text;
    } else {
      var c := s[0];
      assert s == [c] + s[1..];
      PlainRead(c, s[1..], out);
      var more, tail, end := ReadIsQuoted(s[1..], out + [c]);
      body, text, after := [c] + more, [c] + tail, end;
      assert body[1..] == more && text[1..] == tail && out + [c] + tail == out + text;
    }
  }

  lemma QuotedIsRead(rest: string, program: string)
    requires rest != "" && rest[0] == '"'
    ensures Unquoted(rest[1..], "", false) == Some(program) <==> RunsQuoted(rest, program)
  {
    hide Unquoted, Quotes;
    if Unquoted(rest[1..], "", false) == Some(program) {
      var body, text, after := ReadIsQuoted(rest[1..], "");
      assert "" + text == text;
      assert rest == "\"" + body + "\"" + after;
    }
    if RunsQuoted(rest, program) {
      var body: string, after: string :| rest == "\"" + body + "\"" + after && Quotes(body, program);
      QuotesAreRead(body, program, after, "");
      assert rest[1..] == body + "\"" + after && "" + program == program;
    }
  }

  lemma {:induction false} WordIsFirst(s: string)
    ensures var w := FirstWord(s);
            && w <= s && (forall i :: 0 <= i < |w| ==> !AsciiSpace(w[i]))
            && (|w| < |s| ==> AsciiSpace(s[|w|]))
    decreases |s|
  {
    hide AsciiSpace;
    if s != "" && !AsciiSpace(s[0]) {
      WordIsFirst(s[1..]);
      var w := FirstWord(s[1..]);
      assert FirstWord(s) == [s[0]] + w && s == [s[0]] + s[1..];
      assert |w| < |s[1..]| ==> s[1..][|w|] == s[|w| + 1];
    }
  }

  /** A word of `rest` is not longer than what another ends with a space. */
  lemma WordsEnd(rest: string, one: string, other: string)
    requires one <= rest && other <= rest && (forall i :: 0 <= i < |one| ==> !AsciiSpace(one[i]))
    requires |other| < |rest| ==> AsciiSpace(rest[|other|])
    ensures |one| <= |other|
  {
    hide AsciiSpace;
    assert forall i :: 0 <= i < |one| ==> rest[i] == one[i];
  }

  lemma WordIsRead(rest: string, program: string)
    requires rest != "" ==> !IsSpace(rest[0])
    ensures (var w := FirstWord(SkipAscii(rest)); if w == "" then None else Some(w)) == Some(program)
       <==> RunsWord(rest, program)
  {
    hide AsciiSpace, IsSpace, FirstWord;
    if rest != "" {
      InkStays(rest);
    }
    WordIsFirst(rest);
    var w := FirstWord(rest);
    if RunsWord(rest, program) {
      WordsEnd(rest, w, program);
      WordsEnd(rest, program, w);
      assert w == rest[..|w|] && program == rest[..|program|];
    }
  }

  /** The program of a command is read exactly as it is written. */
  lemma ProgramIs(value: string, program: string)
    ensures ExecProgram(value) == Some(program) <==> Runs(value, program)
  {
    hide TrimStart, Unquoted, FirstWord, SkipAscii, IsSpace, RunsQuoted, RunsWord, Blank;
    var v := TrimStart(value);
    TrimStartSplits(value);
    var space := value[..|value| - |v|];
    assert value == space + v;
    Decided(v, program);
    if Runs(value, program) {
      var before: string, rest: string :|
        && value == before + rest && Blank(before) && (rest != "" ==> !IsSpace(rest[0]))
        && if rest != "" && rest[0] == '"' then RunsQuoted(rest, program) else RunsWord(rest, program);
      TrimStartOf(before, rest);
    }
  }

  lemma Decided(v: string, program: string)
    requires v != "" ==> !IsSpace(v[0])
    ensures (if v != "" && v[0] == '"' then Unquoted(v[1..], "", false)
             else (var w := FirstWord(SkipAscii(v)); if w == "" then None else Some(w))) == Some(program)
       <==> if v != "" && v[0] == '"' then RunsQuoted(v, program) else RunsWord(v, program)
  {
    hide Unquoted, FirstWord, SkipAscii, RunsQuoted, RunsWord;
    if v != "" && v[0] == '"' {
      QuotedIsRead(v, program);
    } else {
      WordIsRead(v, program);
    }
  }
}
