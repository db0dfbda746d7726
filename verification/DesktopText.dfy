/** Lines taken apart and put together again, and what the rewriting of one line keeps. */
module DesktopText {
  import opened Results
  import opened Desktop

  // ----- splitting and joining -----

  predicate NoLf(s: string) {
    forall i :: 0 <= i < |s| ==> s[i] != '\n'
  }

  predicate AllNoLf(lines: seq<string>) {
    forall i :: 0 <= i < |lines| ==> NoLf(lines[i])
  }

  lemma {:induction false} PiecesHaveNoLf(text: string)
    ensures AllNoLf(Split(text))
  {
    if text != "" {
      PiecesHaveNoLf(text[1..]);
    }
  }

  lemma {:induction false} SplitPiece(line: string, rest: string)
    requires NoLf(line)
    ensures Split(line + "\n" + rest) == [line] + Split(rest)
    decreases |line|
  {
    var text := line + "\n" + rest;
    if line == "" {
      assert text[1..] == rest;
    } else {
      assert text[1..] == line[1..] + "\n" + rest;
      SplitPiece(line[1..], rest);
      assert [line[0]] + line[1..] == line;
    }
  }

  lemma {:induction false} SplitWhole(line: string)
    requires NoLf(line)
    ensures Split(line) == [line]
    decreases |line|
  {
    if line != "" {
      SplitWhole(line[1..]);
      assert [line[0]] + line[1..] == line;
    }
  }

  /** Joined lines fall apart where they were joined. */
  lemma {:induction false} SplitOfJoin(lines: seq<string>)
    requires lines != [] && AllNoLf(lines)
    ensures Split(Join(lines)) == lines
    decreases |lines|
  {
    hide Split;
    if |lines| == 1 {
      SplitWhole(lines[0]);
    } else {
      SplitOfJoin(lines[1..]);
      SplitPiece(lines[0], Join(lines[1..]));
    }
  }

  lemma {:induction false} JoinMore(lines: seq<string>, last: string)
    requires lines != []
    ensures Join(lines + [last]) == Join(lines) + "\n" + last
    decreases |lines|
  {
    if |lines| > 1 {
      assert (lines + [last])[1..] == lines[1..] + [last];
      JoinMore(lines[1..], last);
    } else {
      assert (lines + [last])[1..] == [last];
    }
  }

  /** The last piece is empty just when the text is or ends a line. */
  lemma {:induction false} LastPiece(text: string)
    ensures var last := Split(text)[|Split(text)| - 1];
            && (last == "" <==> text == "" || EndsIn(text, '\n'))
            && (EndsIn(text, '\n') ==> |Split(text)| > 1)
  {
    if text != "" {
      LastPiece(text[1..]);
      assert |text| > 1 ==> text[1..][|text| - 2] == text[|text| - 1];
    }
  }

  lemma {:induction false} BodiesConcat(a: seq<string>, b: seq<string>)
    ensures Bodies(a + b) == Bodies(a) + Bodies(b)
  {
    if a == [] {
      assert a + b == b;
    } else {
      assert (a + b)[1..] == a[1..] + b;
      BodiesConcat(a[1..], b);
    }
  }

  /** What the lines of an ended text are. */
  function EndedLines(lines: seq<string>, ended: bool): seq<string>
    requires lines != []
  {
    if ended then Bodies(lines) else Bodies(lines[..|lines| - 1]) + [lines[|lines| - 1]]
  }

  /** Written out and read again, lines are themselves, the last bare if nothing ends it. */
  lemma WrittenLines(lines: seq<string>, ended: bool)
    requires lines != [] && AllNoLf(lines) && (!ended ==> lines[|lines| - 1] != "")
    ensures var text := Join(lines) + if ended then "\n" else "";
            && Lines(text) == EndedLines(lines, ended)
            && Pieces(text) == lines
            && (EndsIn(text, '\n') <==> ended)
  {
    hide Split, Join, Bodies, EndsIn;
    var text := Join(lines) + if ended then "\n" else "";
    if ended {
      JoinMore(lines, "");
      assert Join(lines + [""]) == text;
      assert EndsIn(text, '\n') by { EndsInLf(Join(lines)); }
      SplitOfJoin(lines + [""]);
      assert (lines + [""])[..|lines|] == lines;
      assert Bodies(lines) + [] == Bodies(lines);
    } else {
      assert text == Join(lines);
      SplitOfJoin(lines);
      LastPiece(text);
    }
  }

  lemma EndsInLf(s: string)
    ensures EndsIn(s + "\n", '\n')
  {
  }

  /** The lines of a text that is not empty are those of its pieces. */
  lemma LinesOfPieces(text: string)
    requires text != ""
    ensures Pieces(text) != [] && Lines(text) == EndedLines(Pieces(text), EndsIn(text, '\n'))
    ensures !EndsIn(text, '\n') ==> Pieces(text)[|Pieces(text)| - 1] != ""
    ensures AllNoLf(Pieces(text))
  {
    hide Split, Bodies, EndsIn;
    LastPiece(text);
    PiecesHaveNoLf(text);
    var pieces := Split(text);
    assert Bodies(pieces[..|pieces| - 1]) + [] == Bodies(pieces[..|pieces| - 1]);
  }

  // ----- keys -----

  predicate NoEquals(s: string) {
    forall i :: 0 <= i < |s| ==> s[i] != '='
  }

  lemma IndexIs(s: string, c: char, k: nat)
    requires k < |s| && s[k] == c && forall i :: 0 <= i < k ==> s[i] != c
    ensures IndexOf(s, c) == k
  {
  }

  /** What is trimmed is spaces at the end, all of them. */
  lemma {:induction false} TrimEndIs(s: string)
    ensures TrimEnd(s) <= s && (TrimEnd(s) != "" ==> !IsSpace(TrimEnd(s)[|TrimEnd(s)| - 1]))
    decreases |s|
  {
    hide IsSpace;
    if s != "" && IsSpace(s[|s| - 1]) {
      TrimEndIs(s[..|s| - 1]);
    }
  }

  lemma {:induction false} TrimStartIs(s: string)
    ensures s[|s| - |TrimStart(s)|..] == TrimStart(s) && (TrimStart(s) != "" ==> !IsSpace(TrimStart(s)[0]))
    decreases |s|
  {
    hide IsSpace;
    if s != "" && IsSpace(s[0]) {
      TrimStartIs(s[1..]);
    }
  }

  lemma {:induction false} TrimEndInk(s: string)
    requires s == "" || !IsSpace(s[|s| - 1])
    ensures TrimEnd(s) == s
  {
  }

  lemma {:induction false} TrimStartInk(s: string)
    requires s == "" || !IsSpace(s[0])
    ensures TrimStart(s) == s
  {
  }

  lemma {:induction false} TrimEndKeepsFirst(s: string)
    requires s != "" && !IsSpace(s[0])
    ensures TrimEnd(s) != "" && TrimEnd(s)[0] == s[0]
    decreases |s|
  {
    if IsSpace(s[|s| - 1]) {
      TrimEndKeepsFirst(s[..|s| - 1]);
    }
  }

  /** A key no space ends, and what follows the sign, read back. */
  lemma SplitKeyOf(key: string, rest: string)
    requires NoEquals(key) && (key == "" || !IsSpace(key[|key| - 1]))
    ensures SplitKey(key + "=" + rest) == Some(KeyValue(key, TrimStart(rest)))
  {
    hide TrimStart;
    var line := key + "=" + rest;
    IndexIs(line, '=', |key|);
    assert line[..|key|] == key && line[|key| + 1..] == rest;
    TrimEndInk(key);
  }

  /** The key a line is split at. */
  lemma KeyOf(line: string)
    requires SplitKey(line).Some?
    ensures var key := SplitKey(line).value.key;
            && NoEquals(key) && (key == "" || !IsSpace(key[|key| - 1]))
            && key <= line && (key != "" ==> key[0] == line[0])
  {
    hide TrimEnd, TrimStart, IsSpace;
    var i := IndexOf(line, '=');
    var key := TrimEnd(line[..i]);
    TrimEndIs(line[..i]);
    forall j | 0 <= j < |key|
      ensures key[j] == line[j] && line[j] != '='
    {
      assert line[..i][j] == line[j];
    }
  }

  lemma KeyOfBracket(line: string)
    requires line != "" && line[0] == '[' && SplitKey(line).Some?
    ensures SplitKey(line).value.key != "" && SplitKey(line).value.key[0] == '['
  {
    hide TrimEnd;
    var i := IndexOf(line, '=');
    TrimEndKeepsFirst(line[..i]);
  }

  lemma BodyOf(line: string)
    ensures !EndsIn(line, '\r') ==> Body(line) == line && Cr(line) == ""
    ensures Body(line) + Cr(line) == line
    ensures EndsIn(line, '\r') ==> Cr(line) == "\r" && line == Body(line) + "\r"
  {
  }

  lemma BodyPlusCr(body: string, cr: string)
    requires cr == "\r" || (cr == "" && !EndsIn(body, '\r'))
    ensures Body(body + cr) == body
  {
    if cr == "\r" {
      assert (body + cr)[..|body|] == body;
    } else {
      assert body + cr == body;
    }
  }

  /** A program or a name that cannot break a line. */
  predicate NoBreaks(s: string) {
    forall i :: 0 <= i < |s| ==> s[i] != '\n' && s[i] != '\r'
  }

  predicate Fits(w: With) {
    NoBreaks(w.instance) && NoBreaks(w.program) && (w.eol == "" || w.eol == "\r")
  }

  predicate OwnedKey(key: string) {
    BaseKey(key) == NAME || key == EXEC || key == TRY_EXEC || key == DBUS
  }

  lemma OwnedKeysAreLetters(key: string)
    requires OwnedKey(key)
    ensures key != "" && key[0] != '[' && !IsSpace(key[0])
  {
    hide IndexOf;
    assert NAME[0] == 'N' && EXEC[0] == 'E' && TRY_EXEC[0] == 'T' && DBUS[0] == 'D';
    if BaseKey(key) == NAME {
      assert BaseKey(key)[0] == key[0];
    }
  }

  /** What follows the `=` of a line that is rewritten. */
  function NewValue(key: string, value: string, entry: bool, w: With): string {
    if entry && BaseKey(key) == NAME then value + SUFFIX
    else if key == EXEC then Launch(w) + value
    else if key == TRY_EXEC then w.program
    else "false"
  }

  lemma NewLine(line: string, entry: bool, w: With)
    ensures Rewrite(line, entry, w) == line
            || (&& SplitKey(Body(line)).Some?
                && var kv := SplitKey(Body(line)).value;
                && OwnedKey(kv.key)
                && Rewrite(line, entry, w) == kv.key + "=" + NewValue(kv.key, kv.value, entry, w) + Cr(line))
  {
    hide SplitKey, BaseKey, Body, Cr, Launch;
    KeysDiffer();
    if SplitKey(Body(line)).Some? {
      var kv := SplitKey(Body(line)).value;
      if entry && BaseKey(kv.key) == NAME {
        assert kv.key + "=" + kv.value + SUFFIX + Cr(line) == kv.key + "=" + (kv.value + SUFFIX) + Cr(line);
      } else if kv.key == EXEC {
        assert kv.key + "=" + Launch(w) + kv.value + Cr(line) == kv.key + "=" + (Launch(w) + kv.value) + Cr(line);
      } else if entry && kv.key == DBUS {
        assert kv.key + "=false" + Cr(line) == kv.key + "=" + "false" + Cr(line);
      }
    }
  }

  lemma {:induction false} DoubledFits(value: string)
    requires NoBreaks(value)
    ensures NoBreaks(Doubled(value))
  {
    if value != "" {
      DoubledFits(value[1..]);
    }
  }

  lemma {:induction false} EscapedFits(value: string)
    requires NoBreaks(value)
    ensures NoBreaks(Escaped(value))
  {
    if value != "" {
      EscapedFits(value[1..]);
    }
  }

  lemma LaunchFits(w: With)
    requires Fits(w)
    ensures NoBreaks(Launch(w)) && |Launch(w)| > 0
  {
    hide Doubled, Escaped, Reserved;
    DoubledFits(w.program);
    EscapedFits(Doubled(w.program));
  }

  lemma {:induction false} ValueEnds(line: string)
    requires SplitKey(line).Some?
    ensures var v := SplitKey(line).value.value;
            |v| < |line| && line[|line| - |v|..] == v
  {
    hide TrimStart, TrimEnd, IsSpace;
    var i := IndexOf(line, '=');
    TrimStartIs(line[i + 1..]);
    var v := TrimStart(line[i + 1..]);
    assert line[|line| - |v|..] == line[i + 1..][|line| - i - 1 - |v|..];
  }

  lemma NewValueEnds(line: string, entry: bool, w: With)
    requires Fits(w) && SplitKey(Body(line)).Some? && OwnedKey(SplitKey(Body(line)).value.key)
    ensures var kv := SplitKey(Body(line)).value;
            var v := NewValue(kv.key, kv.value, entry, w);
            && (NoLf(line) ==> NoLf(v))
            && (!EndsIn(line, '\r') ==> !EndsIn(v, '\r'))
  {
    hide SplitKey, BaseKey, Launch;
    var kv := SplitKey(Body(line)).value;
    ValueEnds(Body(line));
    LaunchFits(w);
    BodyOf(line);
  }

  /** A line keeps its key and stays a line that heads no group. */
  lemma RewriteKeeps(line: string, entry: bool, w: With)
    requires Fits(w)
    ensures var r := Rewrite(line, entry, w);
            && (NoLf(line) ==> NoLf(r))
            && (line != "" ==> r != "")
            && (r != line ==> Header(Body(line)).None? && Header(Body(r)).None? && !Blank(line) && !Blank(r))
            && (SplitKey(Body(line)).Some? <==> SplitKey(Body(r)).Some?)
            && (SplitKey(Body(line)).Some? ==> SplitKey(Body(r)).value.key == SplitKey(Body(line)).value.key)
  {
    hide Rewrite, SplitKey, OwnedKey, NewValue, TrimStart;
    NewLine(line, entry, w);
    var r := Rewrite(line, entry, w);
    if r != line {
      var kv := SplitKey(Body(line)).value;
      var v := NewValue(kv.key, kv.value, entry, w);
      KeyOf(Body(line));
      OwnedKeysAreLetters(kv.key);
      NewValueEnds(line, entry, w);
      BodyOf(line);
      BodyPlusCr(kv.key + "=" + v, Cr(line));
      SplitKeyOf(kv.key, v);
      assert line[0] == Body(line)[0] == kv.key[0] && r[0] == kv.key[0];
    }
  }
}
