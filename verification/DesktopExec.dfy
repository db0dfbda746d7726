/** The program a launcher finds in a patched command, and the text whose marker is misread. */
module DesktopExec {
  import opened Results
  import opened Desktop
  import opened DesktopText
  import opened DesktopOwner
  import opened DesktopSafety

  lemma PlainRead(c: char, tail: string, out: string)
    requires c != '"' && c != '\\'
    ensures Unquoted([c] + tail, out, false) == Unquoted(tail, out + [c], false)
  {
    assert ([c] + tail)[1..] == tail;
  }

  lemma EscapeRead(c: char, tail: string, out: string)
    ensures Unquoted(['\\', c] + tail, out, false) == Unquoted(tail, out + [c], false)
  {
    assert (['\\', c] + tail)[1..] == [c] + tail;
    assert ([c] + tail)[1..] == tail;
  }

  lemma QuoteRead(rest: string, out: string)
    ensures Unquoted("\"" + rest, out, false) == Some(out)
  {
  }

  lemma {:induction false} EscapedReadsBack(d: string, rest: string, out: string)
    ensures Unquoted(Escaped(d) + "\"" + rest, out, false) == Some(out + d)
    decreases |d|
  {
    hide Unquoted;
    if d == "" {
      assert out + d == out;
      assert Escaped(d) + "\"" + rest == "\"" + rest;
      QuoteRead(rest, out);
    } else {
      var tail := Escaped(d[1..]) + "\"" + rest;
      EscapedReadsBack(d[1..], rest, out + [d[0]]);
      assert out + [d[0]] + d[1..] == out + d;
      InQuoteSet();
      if d[0] in "\"`$\\" {
        assert Escaped(d) + "\"" + rest == ['\\', d[0]] + tail;
        EscapeRead(d[0], tail, out);
      } else {
        assert Escaped(d) + "\"" + rest == [d[0]] + tail;
        PlainRead(d[0], tail, out);
      }
    }
  }

  lemma InQuoteSet()
    ensures '"' in "\"`$\\" && '\\' in "\"`$\\"
  {
    assert "\"`$\\"[0] == '"' && "\"`$\\"[3] == '\\';
  }

  lemma PercentIsPlain()
    ensures '%' !in RESERVED && ' ' in RESERVED && '"' in RESERVED
  {
    assert RESERVED[0] == ' ' && RESERVED[3] == '"';
  }

  lemma {:induction false} DoubledReserved(v: string)
    ensures Reserved(Doubled(v)) <==> Reserved(v)
    ensures v != "" ==> Doubled(v) != "" && Doubled(v)[0] == v[0]
    ensures forall c :: c in v <==> c in Doubled(v)
  {
    if v != "" {
      DoubledReserved(v[1..]);
      PercentIsPlain();
      var first := if v[0] == '%' then "%%" else [v[0]];
      assert v == [v[0]] + v[1..];
      assert forall c :: c in first <==> c == v[0];
      assert forall c :: c in Doubled(v) <==> c in first || c in Doubled(v[1..]);
      ReservedBy(v);
      ReservedBy(Doubled(v));
      ReservedBy(v[1..]);
      ReservedBy(Doubled(v[1..]));
    }
  }

  lemma ReservedBy(v: string)
    ensures Reserved(v) <==> exists c :: c in v && c in RESERVED
  {
    if c :| c in v && c in RESERVED {
      var i :| 0 <= i < |v| && v[i] == c;
      assert v[i] in RESERVED;
    }
  }

  lemma {:induction false} WordOf(w: string, rest: string)
    requires forall i :: 0 <= i < |w| ==> !AsciiSpace(w[i])
    ensures FirstWord(w + " " + rest) == w
    decreases |w|
  {
    var s := w + " " + rest;
    if w == "" {
      assert s[0] == ' ';
    } else {
      assert s[1..] == w[1..] + " " + rest;
      WordOf(w[1..], rest);
      assert [w[0]] + w[1..] == w;
    }
  }

  lemma {:induction false} WordHasNoSpace(s: string)
    ensures forall i :: 0 <= i < |FirstWord(s)| ==> !AsciiSpace(FirstWord(s)[i])
    ensures s != "" && !AsciiSpace(s[0]) ==> FirstWord(s) != "" && FirstWord(s)[0] == s[0]
  {
    if s != "" && !AsciiSpace(s[0]) {
      WordHasNoSpace(s[1..]);
    }
  }

  lemma {:induction false} TrimmedAre(s: string)
    ensures forall i :: 0 <= i < |s| - |TrimStart(s)| ==> IsSpace(s[i])
  {
    hide IsSpace;
    if s != "" && IsSpace(s[0]) {
      TrimmedAre(s[1..]);
      forall i | 0 < i < |s| - |TrimStart(s)|
        ensures IsSpace(s[i])
      {
        assert s[i] == s[1..][i - 1];
      }
    }
  }

  /** What a value of an unquoted program and more is trimmed to. */
  lemma TrimmedValue(w: string, tail: string)
    ensures var t := TrimStart(w + " open " + tail);
            && t != "" && !IsSpace(t[0]) && (t[0] in w || t[0] == 'o')
            && (w != "" && !IsSpace(w[0]) ==> t == w + " open " + tail)
  {
    var s := w + " open " + tail;
    var t := TrimStart(s);
    TrimmedAre(s);
    TrimStartIs(s);
    assert s[|w|] == ' ' && s[|w| + 1] == 'o';
    var k := |s| - |t|;
    assert k <= |w| + 1;
    assert t == s[k..] && t[0] == s[k];
    if k < |w| {
      assert s[k] == w[k];
    }
    if w != "" && !IsSpace(w[0]) {
      TrimStartInk(s);
    }
  }

  /** A program that can stand in an `Exec` value without quotes. */
  predicate OneWord(v: string) {
    v != "" && !IsSpace(v[0]) && forall i :: 0 <= i < |v| ==> !AsciiSpace(v[i])
  }

  lemma OneWordDoubled(v: string)
    ensures OneWord(Doubled(v)) <==> OneWord(v)
  {
    DoubledReserved(v);
    var d := Doubled(v);
    assert v == "" ==> d == "";
    if OneWord(d) {
      forall i | 0 <= i < |v|
        ensures !AsciiSpace(v[i])
      {
        assert v[i] in d;
      }
    }
    if OneWord(v) {
      forall i | 0 <= i < |d|
        ensures !AsciiSpace(d[i])
      {
        assert d[i] in v;
      }
    }
  }

  lemma NoQuoteIn(w: string, c: char)
    requires !Reserved(w) && (c in w || c == 'o')
    ensures c != '"'
  {
    ReservedBy(w);
    PercentIsPlain();
  }

  lemma InkStays(t: string)
    requires t != "" && !IsSpace(t[0])
    ensures SkipAscii(t) == t && !AsciiSpace(t[0])
  {
  }

  lemma UnquotedProgram(w: string, tail: string)
    requires !Reserved(w)
    ensures ExecProgram(w + " open " + tail) == Some(w) <==> OneWord(w)
  {
    hide TrimStart, FirstWord, Unquoted, Reserved, IsSpace, AsciiSpace, SkipAscii;
    var s := w + " open " + tail;
    var t := TrimStart(s);
    TrimmedValue(w, tail);
    NoQuoteIn(w, t[0]);
    InkStays(t);
    WordHasNoSpace(t);
    if OneWord(w) {
      assert s == w + " " + ("open " + tail);
      WordOf(w, "open " + tail);
    }
  }

  lemma QuotedProgram(d: string, rest: string)
    ensures ExecProgram("\"" + Escaped(d) + "\"" + rest) == Some(d)
  {
    var s := "\"" + Escaped(d) + "\"" + rest;
    assert s[0] == '"';
    TrimStartInk(s);
    assert s[1..] == Escaped(d) + "\"" + rest;
    EscapedReadsBack(d, rest, "");
    assert "" + d == d;
  }

  /**
   The program read back from a patched command is the one it was given, percents doubled,
   exactly when it has to be quoted or is one word.
   */
  lemma ProgramReadsBack(program: string, tail: string)
    ensures ExecProgram(ExecQuote(program) + " open " + tail) == Some(Doubled(program))
       <==> Reserved(program) || OneWord(program)
  {
    hide Reserved, OneWord, Escaped, Doubled, ExecProgram;
    var d := Doubled(program);
    DoubledReserved(program);
    OneWordDoubled(program);
    if Reserved(program) {
      QuotedProgram(d, " open " + tail);
      assert ExecQuote(program) + " open " + tail == "\"" + Escaped(d) + "\"" + (" open " + tail);
    } else {
      UnquotedProgram(d, tail);
    }
  }

  // ----- what an argument of a command is -----

  /** A character that may not stand in an unquoted argument ("Exec key" of the Desktop Entry Specification). */
  predicate NeedsQuotes(c: char) {
    || c == ' ' || c == '\t' || c == '\n' || c == '"' || c == '\'' || c == '\\' || c == '>' || c == '<' || c == '~'
    || c == '|' || c == '&' || c == ';' || c == '$' || c == '*' || c == '?' || c == '#' || c == '(' || c == ')'
        || c == '`'
  }

  predicate NeedsEscape(c: char) {
    c == '"' || c == '`' || c == '$' || c == '\\'
  }

  /** Inside quotes: each of the four stands behind a backslash of its own, and nothing else does. */
  predicate WellEscaped(s: string) {
    s == "" ||
    (if s[0] == '\\' then |s| > 1 && NeedsEscape(s[1]) && WellEscaped(s[2..])
     else !NeedsEscape(s[0]) && WellEscaped(s[1..]))
  }

  /** No field code: every percent is one of a pair. */
  predicate NoFieldCode(s: string) {
    s == "" ||
    (if s[0] == '%' then |s| > 1 && s[1] == '%' && NoFieldCode(s[2..]) else NoFieldCode(s[1..]))
  }

  lemma ReservedIs(c: char)
    ensures c in RESERVED <==> NeedsQuotes(c)
  {
  }

  lemma QuotesIs(v: string)
    ensures Reserved(v) <==> exists i :: 0 <= i < |v| && NeedsQuotes(v[i])
  {
    hide NeedsQuotes;
    forall c: char
      ensures c in RESERVED <==> NeedsQuotes(c)
    {
      ReservedIs(c);
    }
  }

  lemma EscapeIs(c: char)
    ensures c in "\"`$\\" <==> NeedsEscape(c)
  {
    assert "\"`$\\" == ['"', '`', '$', '\\'];
  }

  lemma {:induction false} EscapedIsWell(v: string)
    ensures WellEscaped(Escaped(v))
  {
    hide NeedsEscape;
    if v != "" {
      EscapedIsWell(v[1..]);
      EscapeIs(v[0]);
      EscapeIs('\\');
      var rest := Escaped(v[1..]);
      if NeedsEscape(v[0]) {
        var all := ['\\', v[0]] + rest;
        assert all[2..] == rest;
        assert Escaped(v) == all;
      } else {
        assert v[0] != '\\' by { BackslashNeeds(); }
        assert ([v[0]] + rest)[1..] == rest;
      }
    }
  }

  lemma BackslashNeeds()
    ensures NeedsEscape('\\') && !NeedsEscape('%')
  {
  }

  lemma {:induction false} DoubledHasNoCode(v: string)
    ensures NoFieldCode(Doubled(v))
  {
    if v != "" {
      DoubledHasNoCode(v[1..]);
      var rest := Doubled(v[1..]);
      if v[0] == '%' {
        var all := "%%" + rest;
        assert all[2..] == rest;
      } else {
        assert ([v[0]] + rest)[1..] == rest;
      }
    }
  }

  lemma {:induction false} EscapedHasNoCode(d: string)
    requires NoFieldCode(d)
    ensures NoFieldCode(Escaped(d))
    decreases |d|
  {
    hide NeedsEscape;
    if d != "" {
      EscapeIs(d[0]);
      BackslashNeeds();
      if d[0] == '%' {
        var rest := Escaped(d[2..]);
        EscapedHasNoCode(d[2..]);
        assert d[1..][1..] == d[2..];
        assert Escaped(d) == ['%', '%'] + rest;
        assert (['%', '%'] + rest)[2..] == rest;
      } else {
        var rest := Escaped(d[1..]);
        EscapedHasNoCode(d[1..]);
        if NeedsEscape(d[0]) {
          var tail := [d[0]] + rest;
          assert tail[1..] == rest;
          assert (['\\'] + tail)[1..] == tail;
          assert Escaped(d) == ['\\'] + tail;
        } else {
          assert ([d[0]] + rest)[1..] == rest;
        }
      }
    }
  }

  /**
   A program as one argument: in quotes just when it holds a character that needs them, the four
   that must be are escaped there, and no percent in it is taken for a field code.
   */
  lemma ArgumentIsSafe(program: string)
    ensures var q := ExecQuote(program);
            && NoFieldCode(q)
            && (if exists i :: 0 <= i < |program| && NeedsQuotes(program[i])
                then |q| >= 2 && q[0] == '"' && q[|q| - 1] == '"' && WellEscaped(q[1..|q| - 1])
                else forall i :: 0 <= i < |q| ==> !NeedsQuotes(q[i]))
  {
    hide NeedsQuotes, Reserved, Escaped, Doubled;
    var d := Doubled(program);
    DoubledReserved(program);
    QuotesIs(program);
    QuotesIs(d);
    DoubledHasNoCode(program);
    if Reserved(program) {
      var body := Escaped(d);
      EscapedIsWell(d);
      EscapedHasNoCode(d);
      assert ExecQuote(program) == "\"" + body + "\"";
      InQuotes(body);
    }
  }

  lemma {:induction false} CodeThenQuote(body: string)
    requires NoFieldCode(body)
    ensures NoFieldCode(body + "\"")
    decreases |body|
  {
    var all := body + "\"";
    if body == "" {
      assert all[1..] == "";
    } else if body[0] == '%' {
      assert all[2..] == body[2..] + "\"";
      CodeThenQuote(body[2..]);
    } else {
      assert all[1..] == body[1..] + "\"";
      CodeThenQuote(body[1..]);
    }
  }

  lemma InQuotes(body: string)
    requires NoFieldCode(body)
    ensures var q := "\"" + body + "\""; NoFieldCode(q) && q[1..|q| - 1] == body && q[0] == '"' && q[|q| - 1] == '"'
  {
    hide NoFieldCode;
    CodeThenQuote(body);
    QuoteThenCode(body + "\"");
    assert "\"" + body + "\"" == "\"" + (body + "\"");
  }

  lemma QuoteThenCode(rest: string)
    requires NoFieldCode(rest)
    ensures NoFieldCode("\"" + rest)
  {
    assert ("\"" + rest)[1..] == rest;
  }

  // ----- the program that is misread -----

  /** Nothing in it has to be quoted, and the carriage return ends the word. */
  const TWO_WORDS: string := "a\rb"

  /** The failing input: written out, a program with a carriage return inside is read back as another. */
  lemma TwoWordsAreMisread(tail: string)
    ensures ExecProgram(ExecQuote(TWO_WORDS) + " open " + tail) != Some(Doubled(TWO_WORDS))
  {
    hide ExecProgram, ExecQuote, Doubled;
    ProgramReadsBack(TWO_WORDS, tail);
    assert TWO_WORDS[1] == '\r' && AsciiSpace('\r');
  }

  // ----- the text whose marker is misread -----

  const COMMAND: string := EXEC + "=" + "a"
  const MISREAD: string := "[Desktop Entry]\r" + "\n" + COMMAND

  lemma MisreadLines()
    ensures Split(MISREAD) == ["[Desktop Entry]\r", COMMAND]
    ensures Lines(MISREAD) == ["[Desktop Entry]", COMMAND]
    ensures Pieces(MISREAD) == ["[Desktop Entry]\r", COMMAND] && !EndsIn(MISREAD, '\n') && HoldsCrLf(MISREAD)
  {
    hide Split, Body, EndsIn, HoldsCrLf;
    var first, second := "[Desktop Entry]\r", COMMAND;
    MisreadSplits();
    MisreadEnds();
    assert [first, second][..1] == [first];
    OneBody(first);
    MisreadBody();
  }

  lemma OneBody(line: string)
    ensures Bodies([line]) == [Body(line)]
  {
    hide Body;
    assert [line][1..] == [];
  }

  lemma MisreadBody()
    ensures Body("[Desktop Entry]\r") == "[Desktop Entry]"
  {
  }

  lemma MisreadSplits()
    ensures Split(MISREAD) == ["[Desktop Entry]\r", COMMAND]
  {
    hide Split;
    var first, second := "[Desktop Entry]\r", COMMAND;
    assert MISREAD == first + "\n" + second;
    assert NoLf(first) && NoLf(second);
    SplitPiece(first, second);
    SplitWhole(second);
    assert [first] + [second] == [first, second];
  }

  lemma MisreadEnds()
    ensures !EndsIn(MISREAD, '\n') && HoldsCrLf(MISREAD)
  {
    assert MISREAD[15] == '\r' && MISREAD[16] == '\n';
  }

  lemma ExecName()
    ensures KeyName(EXEC)
  {
  }

  lemma KeyReads(key: string, value: string)
    requires KeyName(key) && value != "" && !IsSpace(value[0])
    ensures SplitKey(key + "=" + value) == Some(KeyValue(key, value)) && Header(key + "=" + value).None?
  {
    hide SplitKey, TrimStart, IsSpace;
    SplitKeyOf(key, value);
    TrimStartInk(value);
    assert (key + "=" + value)[0] == key[0];
  }

  lemma MisreadKey()
    ensures SplitKey(COMMAND) == Some(KeyValue(EXEC, "a")) && Header(COMMAND).None?
  {
    hide SplitKey, Header, IsSpace, KeyName;
    ExecName();
    NoSpaceInA();
    KeyReads(EXEC, "a");
  }

  lemma NoSpaceInA()
    ensures !IsSpace("a"[0])
  {
  }

  lemma HeaderNamesEntry()
    ensures Header("[Desktop Entry]") == Some(ENTRY)
  {
    var header := "[Desktop Entry]";
    assert |header| == 15 && |ENTRY| == 13;
    assert header[1..14] == ENTRY;
  }

  lemma MisreadHead()
    ensures HeadOf(MISREAD) == Head(Some("a"), None, false, false)
    ensures HasGroup(Lines(MISREAD), ENTRY)
    ensures MarkerComesLast(Pieces(MISREAD))
  {
    hide Split, SplitKey;
    MisreadLines();
    MisreadKey();
    KeysDiffer();
    var header, line := "[Desktop Entry]", COMMAND;
    HeaderNamesEntry();
    var one := [line];
    assert |one[1..]| == 0;
    assert UntilHeader(one) == one;
    GroupHeaded(header, one);
    assert [header] + one == [header, line];
    assert ReadHead(NO_HEAD, one) == Noted(NO_HEAD, line);
    assert Header([header, line][0]) == Some(ENTRY);
    var pieces := ["[Desktop Entry]\r", line];
    assert Body(pieces[0]) == header && HeadsEntry(pieces[0]);
    assert FirstEntry(pieces) == 0;
    assert AfterHeader(pieces) == one;
    assert Body(line) == line && !HeadsGroup(line);
    assert GroupEnd(one) == 1;
    assert AfterEntry(pieces) == [];
    assert line[0] == 'E' && !Blank(line);
  }

  /** A CRLF entry whose last line nothing ends: the marker put last keeps a carriage return. */
  lemma MisreadIsMisread(instance: string, program: string)
    requires ValidInstance(instance) && NoBreaks(program)
    ensures var r := Patch(MISREAD, instance, Some(program));
            r.Ok? && Owner(r.value) == Some(instance + "\r") && Owner(r.value) != Some(instance)
  {
    hide Split, SplitKey, HeadOf, HasGroup, Lines, Join, CopyAll, Close, Pieces, MarkerComesLast, HoldsCrLf, EndsIn;
    MisreadLines();
    MisreadHead();
    PatchedKnowsItself(MISREAD, instance, program);
  }
}
