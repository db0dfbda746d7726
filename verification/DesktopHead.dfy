/**
 What an entry's main group says, in the words of the file format, and what `patch` makes of it:
 which texts it takes, and which of its checks refuses the others.
 */
module DesktopHead {
  import opened Results
  import opened Desktop
  import opened DesktopText

  // ----- the format of a line -----

  /** The words of the format that are looked for or written. */
  lemma KeysAreSpelled()
    ensures ENTRY == "Desktop Entry" && EXEC == "Exec" && TRY_EXEC == "TryExec" && DBUS == "DBusActivatable"
    ensures NAME == "Name" && NO_DISPLAY == "NoDisplay" && HIDDEN == "Hidden"
    ensures MARKER == "X-Bubbler-Instance" && SUFFIX == " (Bubbler)"
  {
  }

  /** A line gives a key a value: the key, a sign with space around it, the value. */
  ghost predicate Gives(line: string, key: string, value: string) {
    exists before: string, after: string :: GivesWith(line, key, before, after, value)
  }

  predicate GivesWith(line: string, key: string, before: string, after: string, value: string) {
    && line == key + before + "=" + after + value && Blank(before) && Blank(after)
    && NoEquals(key) && (key != "" ==> !IsSpace(key[|key| - 1])) && (value != "" ==> !IsSpace(value[0]))
  }

  predicate OpensGroup(line: string) {
    |line| >= 2 && line[0] == '[' && line[|line| - 1] == ']'
  }

  predicate OpensMain(line: string) {
    line == "[Desktop Entry]"
  }

  /** Line `i` is one of the first main group. */
  ghost predicate InMainGroup(lines: seq<string>, i: nat)
    requires i < |lines|
  {
    exists h: nat ::
      && h < i && OpensMain(lines[h]) && (forall j :: 0 <= j < h ==> !OpensMain(lines[j]))
      && (forall j :: h < j <= i ==> !OpensGroup(lines[j]))
  }

  /** Some line of the main group gives the key that value. */
  ghost predicate MainSays(text: string, key: string, value: string) {
    exists i: nat :: i < |Lines(text)| && InMainGroup(Lines(text), i) && Gives(Lines(text)[i], key, value)
  }

  /** The first line of the main group that gives the key one gives it that. */
  ghost predicate MainSaysFirst(text: string, key: string, value: string) {
    exists i: nat :: i < |Lines(text)| && FirstGiven(Lines(text), i, key, value)
  }

  ghost predicate FirstGiven(lines: seq<string>, i: nat, key: string, value: string)
    requires i < |lines|
  {
    && InMainGroup(lines, i) && Gives(lines[i], key, value)
    && forall j: nat, other: string :: j < i && InMainGroup(lines, j) ==> !Gives(lines[j], key, other)
  }

  ghost predicate HasMain(text: string) {
    exists h: nat :: h < |Lines(text)| && OpensMain(Lines(text)[h])
  }

  // ----- splitting a line is what the format says -----

  lemma {:induction false} TrimEndSplits(s: string)
    ensures TrimEnd(s) <= s && Blank(s[|TrimEnd(s)|..])
    ensures TrimEnd(s) != "" ==> !IsSpace(TrimEnd(s)[|TrimEnd(s)| - 1])
    decreases |s|
  {
    hide IsSpace;
    if s != "" && IsSpace(s[|s| - 1]) {
      var front := s[..|s| - 1];
      TrimEndSplits(front);
      var t := TrimEnd(s);
      forall i | 0 <= i < |s| - |t|
        ensures IsSpace(s[|t|..][i])
      {
        if i < |front| - |t| {
          assert s[|t|..][i] == front[|t|..][i];
        } else {
          assert s[|t|..][i] == s[|s| - 1];
        }
      }
    }
  }

  lemma {:induction false} TrimStartSplits(s: string)
    ensures var t := TrimStart(s);
            s[|s| - |t|..] == t && Blank(s[..|s| - |t|]) && (t != "" ==> !IsSpace(t[0]))
    decreases |s|
  {
    hide IsSpace;
    if s != "" && IsSpace(s[0]) {
      var rest := s[1..];
      TrimStartSplits(rest);
      var t := TrimStart(s);
      var part := s[..|s| - |t|];
      forall i | 0 <= i < |part|
        ensures IsSpace(part[i])
      {
        if i > 0 {
          assert s[i] == rest[..|rest| - |t|][i - 1];
        }
      }
    }
  }

  lemma {:induction false} TrimEndOf(key: string, space: string)
    requires Blank(space) && (key != "" ==> !IsSpace(key[|key| - 1]))
    ensures TrimEnd(key + space) == key
    decreases |space|
  {
    hide IsSpace;
    if space == "" {
      assert key + space == key;
      TrimEndInk(key);
    } else {
      var s := key + space;
      assert s[..|s| - 1] == key + space[..|space| - 1];
      TrimEndOf(key, space[..|space| - 1]);
    }
  }

  lemma {:induction false} TrimStartOf(space: string, value: string)
    requires Blank(space) && (value != "" ==> !IsSpace(value[0]))
    ensures TrimStart(space + value) == value
    decreases |space|
  {
    hide IsSpace;
    if space == "" {
      assert space + value == value;
      TrimStartInk(value);
    } else {
      assert (space + value)[1..] == space[1..] + value;
      TrimStartOf(space[1..], value);
    }
  }

  lemma SpaceIsNoSign(s: string)
    requires Blank(s)
    ensures NoEquals(s)
  {
  }

  lemma TwoSides(key: string, before: string, after: string, value: string)
    ensures key + before + "=" + after + value == (key + before) + "=" + (after + value)
  {
  }

  lemma SidesOf(left: string, right: string)
    requires NoEquals(left)
    ensures var line := left + "=" + right;
            IndexOf(line, '=') == |left| && line[..|left|] == left && line[|left| + 1..] == right
  {
    IndexIs(left + "=" + right, '=', |left|);
  }

  lemma NoSignIn(a: string, b: string)
    requires NoEquals(a) && NoEquals(b)
    ensures NoEquals(a + b)
  {
  }

  lemma GivesSplits(line: string, key: string, value: string)
    requires Gives(line, key, value)
    ensures SplitKey(line) == Some(KeyValue(key, value))
  {
    hide IsSpace, TrimEnd, TrimStart, Blank, NoEquals, IndexOf;
    var before: string, after: string :| GivesWith(line, key, before, after, value);
    SpaceIsNoSign(before);
    NoSignIn(key, before);
    TwoSides(key, before, after, value);
    SidesOf(key + before, after + value);
    TrimEndOf(key, before);
    TrimStartOf(after, value);
  }

  lemma SignAt(line: string)
    requires SplitKey(line).Some?
    ensures var i := IndexOf(line, '=');
            i < |line| && line == line[..i] + "=" + line[i + 1..] && NoEquals(line[..i])
  {
    hide TrimEnd, TrimStart, NoEquals;
    var i := IndexOf(line, '=');
    CutAt(line, i);
    NoSignBefore(line, i);
  }

  lemma CutAt(line: string, i: nat)
    requires i < |line| && line[i] == '='
    ensures line == line[..i] + "=" + line[i + 1..]
  {
  }

  lemma NoSignBefore(line: string, i: nat)
    requires i <= |line| && forall j :: 0 <= j < i ==> line[j] != '='
    ensures NoEquals(line[..i])
  {
  }

  lemma KeyHasNoSign(left: string, key: string)
    requires NoEquals(left) && key <= left
    ensures NoEquals(key)
  {
  }

  lemma SplitGives(line: string)
    requires SplitKey(line).Some?
    ensures Gives(line, SplitKey(line).value.key, SplitKey(line).value.value)
  {
    hide IsSpace, TrimEnd, TrimStart, Blank, NoEquals, IndexOf;
    SignAt(line);
    var i := IndexOf(line, '=');
    var left, right := line[..i], line[i + 1..];
    TrimEndSplits(left);
    TrimStartSplits(right);
    var key, value := TrimEnd(left), TrimStart(right);
    KeyHasNoSign(left, key);
    GivesInParts(line, left, right, key, value);
  }

  lemma GivesInParts(line: string, left: string, right: string, key: string, value: string)
    requires line == left + "=" + right && key <= left && |value| <= |right| && right[|right| - |value|..] == value
    requires Blank(left[|key|..]) && Blank(right[..|right| - |value|])
    requires NoEquals(key) && (key != "" ==> !IsSpace(key[|key| - 1])) && (value != "" ==> !IsSpace(value[0]))
    ensures Gives(line, key, value)
  {
    hide IsSpace, Blank, NoEquals;
    var before, after := left[|key|..], right[..|right| - |value|];
    assert left == key + before && right == after + value;
    TwoSides(key, before, after, value);
    assert GivesWith(line, key, before, after, value);
  }

  /** A line splits into a key and a value just when it gives them. */
  lemma SplitIsGives(line: string, key: string, value: string)
    ensures SplitKey(line) == Some(KeyValue(key, value)) <==> Gives(line, key, value)
  {
    hide SplitKey, Gives;
    if Gives(line, key, value) {
      GivesSplits(line, key, value);
    }
    if SplitKey(line) == Some(KeyValue(key, value)) {
      SplitGives(line);
    }
  }

  // ----- the main group -----

  lemma HeaderOpens(line: string)
    ensures Header(line).Some? <==> OpensGroup(line)
    ensures Header(line) == Some(ENTRY) <==> OpensMain(line)
  {
    if Header(line) == Some(ENTRY) {
      assert line == "[" + line[1..|line| - 1] + "]";
    }
    if OpensMain(line) {
      assert line[1..|line| - 1] == "Desktop Entry";
    }
  }

  /** The first value a key is given. */
  function FirstValue(lines: seq<string>, key: string): Option<string> {
    if lines == [] then None
    else
      match SplitKey(lines[0])
      case Some(KeyValue(k, v)) => if k == key then Some(v) else FirstValue(lines[1..], key)
      case None => FirstValue(lines[1..], key)
  }

  predicate AnyTrue(lines: seq<string>, key: string) {
    exists i :: 0 <= i < |lines| && SplitKey(lines[i]) == Some(KeyValue(key, "true"))
  }

  lemma AnyTrueLater(lines: seq<string>, key: string)
    requires lines != []
    ensures AnyTrue(lines, key) <==> SplitKey(lines[0]) == Some(KeyValue(key, "true")) || AnyTrue(lines[1..], key)
  {
    hide SplitKey;
    if AnyTrue(lines[1..], key) {
      var i :| 0 <= i < |lines[1..]| && SplitKey(lines[1..][i]) == Some(KeyValue(key, "true"));
      assert SplitKey(lines[i + 1]) == Some(KeyValue(key, "true"));
    }
    if AnyTrue(lines, key) {
      var i :| 0 <= i < |lines| && SplitKey(lines[i]) == Some(KeyValue(key, "true"));
      assert i > 0 ==> SplitKey(lines[1..][i - 1]) == Some(KeyValue(key, "true"));
    }
  }

  function Else(a: Option<string>, b: Option<string>): Option<string> {
    if a.Some? then a else b
  }

  lemma WordsDiffer()
    ensures "Exec" != "X-Bubbler-Instance" && "Exec" != "NoDisplay" && "Exec" != "Hidden"
    ensures "X-Bubbler-Instance" != "NoDisplay" && "X-Bubbler-Instance" != "Hidden" && "NoDisplay" != "Hidden"
  {
    assert |"Exec"| == 4 && |"X-Bubbler-Instance"| == 18 && |"NoDisplay"| == 9 && |"Hidden"| == 6;
  }

  lemma {:induction false} ReadHeadIs(h: Head, lines: seq<string>)
    ensures var r := ReadHead(h, lines);
            && r.exec == Else(h.exec, FirstValue(lines, "Exec"))
            && r.marker == Else(h.marker, FirstValue(lines, "X-Bubbler-Instance"))
            && (r.noDisplay <==> h.noDisplay || AnyTrue(lines, "NoDisplay"))
            && (r.hidden <==> h.hidden || AnyTrue(lines, "Hidden"))
    decreases |lines|
  {
    hide SplitKey, AnyTrue;
    WordsDiffer();
    if lines == [] {
      NothingTrue("NoDisplay");
      NothingTrue("Hidden");
    } else {
      AnyTrueLater(lines, "NoDisplay");
      AnyTrueLater(lines, "Hidden");
      ReadHeadIs(Noted(h, lines[0]), lines[1..]);
    }
  }

  lemma NothingTrue(key: string)
    ensures !AnyTrue([], key)
  {
  }

  /** The bounds of the first main group: its lines are those between. */
  lemma {:induction false} GroupBounds(lines: seq<string>) returns (h: nat, e: nat)
    ensures (exists i: nat :: i < |lines| && OpensMain(lines[i])) ==>
              && h < e <= |lines| && OpensMain(lines[h]) && (forall j :: 0 <= j < h ==> !OpensMain(lines[j]))
              && GroupLines(lines, ENTRY) == lines[h + 1..e]
              && (forall j :: h < j < e ==> !OpensGroup(lines[j])) && (e < |lines| ==> OpensGroup(lines[e]))
    ensures (forall i: nat :: i < |lines| ==> !OpensMain(lines[i])) ==> GroupLines(lines, ENTRY) == []
    decreases |lines|
  {
    hide Header, OpensMain, OpensGroup;
    if lines == [] {
      h, e := 0, 0;
    } else {
      HeaderOpens(lines[0]);
      if OpensMain(lines[0]) {
        var n := UntilBounds(lines[1..]);
        h, e := 0, 1 + n;
        assert lines[1..][..n] == lines[1..e];
        assert forall j :: 0 < j < e ==> lines[j] == lines[1..][j - 1];
      } else {
        var rest := lines[1..];
        h, e := GroupBounds(rest);
        if i: nat :| i < |lines| && OpensMain(lines[i]) {
          assert OpensMain(rest[i - 1]);
          assert rest[h + 1..e] == lines[h + 2..e + 1];
          assert forall j :: 0 < j < |lines| ==> lines[j] == rest[j - 1];
        } else {
          forall i: nat | i < |rest|
            ensures !OpensMain(rest[i])
          {
            assert rest[i] == lines[i + 1];
          }
        }
        h, e := h + 1, e + 1;
      }
    }
  }

  lemma {:induction false} UntilBounds(lines: seq<string>) returns (n: nat)
    ensures n <= |lines| && UntilHeader(lines) == lines[..n]
    ensures (forall j :: 0 <= j < n ==> !OpensGroup(lines[j])) && (n < |lines| ==> OpensGroup(lines[n]))
    decreases |lines|
  {
    hide Header, OpensGroup;
    if lines == [] {
      n := 0;
    } else {
      HeaderOpens(lines[0]);
      if Header(lines[0]).Some? {
        n := 0;
      } else {
        var rest := lines[1..];
        n := UntilBounds(rest);
        assert [lines[0]] + rest[..n] == lines[..n + 1];
        assert forall j :: 0 < j < n + 1 ==> lines[j] == rest[j - 1];
        n := n + 1;
      }
    }
  }

  /** The lines read are just those of the first main group, in their order. */
  lemma GroupIsMain(lines: seq<string>) returns (from: nat)
    ensures var g := GroupLines(lines, ENTRY);
            && from + |g| <= |lines| && g == lines[from..from + |g|]
            && (forall i: nat :: i < |lines| ==> (InMainGroup(lines, i) <==> from <= i < from + |g|))
  {
    hide Header, OpensMain, OpensGroup, GroupLines;
    var h, e := GroupBounds(lines);
    var g := GroupLines(lines, ENTRY);
    if exists i: nat :: i < |lines| && OpensMain(lines[i]) {
      from := h + 1;
      forall i: nat | i < |lines|
        ensures InMainGroup(lines, i) <==> from <= i < from + |g|
      {
        BetweenHeaders(lines, h, e, i);
      }
    } else {
      from := 0;
      assert g == lines[0..0];
      forall i: nat | i < |lines|
        ensures !InMainGroup(lines, i)
      {
      }
    }
  }

  lemma BetweenHeaders(lines: seq<string>, h: nat, e: nat, i: nat)
    requires h < e <= |lines| && i < |lines|
    requires OpensMain(lines[h]) && (forall j :: 0 <= j < h ==> !OpensMain(lines[j]))
    requires (forall j :: h < j < e ==> !OpensGroup(lines[j])) && (e < |lines| ==> OpensGroup(lines[e]))
    ensures InMainGroup(lines, i) <==> h < i < e
  {
    hide OpensMain, OpensGroup;
    if InMainGroup(lines, i) {
      var k: nat :| k < i && OpensMain(lines[k]) && (forall j :: 0 <= j < k ==> !OpensMain(lines[j]))
                    && (forall j :: k < j <= i ==> !OpensGroup(lines[j]));
      assert k == h;
    }
  }

  // ----- what is read, and what `patch` makes of it -----

  lemma {:induction false} FirstValueIs(lines: seq<string>, key: string, value: string)
    ensures FirstValue(lines, key) == Some(value) <==>
              exists i: nat :: i < |lines| && FirstAt(lines, i, key, value)
    decreases |lines|
  {
    hide SplitKey;
    if lines != [] {
      var rest := lines[1..];
      FirstValueIs(rest, key, value);
      assert forall j :: 0 < j < |lines| ==> lines[j] == rest[j - 1];
      if SplitKey(lines[0]).Some? && SplitKey(lines[0]).value.key == key {
        if i: nat :| i < |lines| && FirstAt(lines, i, key, value) {
          assert i == 0;
        }
        if SplitKey(lines[0]).value.value == value {
          assert FirstAt(lines, 0, key, value);
        }
      } else {
        if i: nat :| i < |lines| && FirstAt(lines, i, key, value) {
          assert FirstAt(rest, i - 1, key, value);
        }
        if i: nat :| i < |rest| && FirstAt(rest, i, key, value) {
          FirstShifts(lines, i, key, value);
        }
      }
    }
  }

  /** Line `i` is the first to give the key a value, and gives it that. */
  predicate FirstAt(lines: seq<string>, i: nat, key: string, value: string)
    requires i < |lines|
  {
    && SplitKey(lines[i]) == Some(KeyValue(key, value))
    && forall j: nat :: j < i && SplitKey(lines[j]).Some? ==> SplitKey(lines[j]).value.key != key
  }

  lemma FirstShifts(lines: seq<string>, i: nat, key: string, value: string)
    requires i + 1 < |lines| && FirstAt(lines[1..], i, key, value)
    requires SplitKey(lines[0]).Some? ==> SplitKey(lines[0]).value.key != key
    ensures FirstAt(lines, i + 1, key, value)
  {
    hide SplitKey;
    assert forall j :: 0 < j < |lines| ==> lines[j] == lines[1..][j - 1];
  }

  /** The flag is set by any line of the main group that gives the key `true`. */
  lemma TrueIsSaid(text: string, key: string)
    ensures AnyTrue(GroupLines(Lines(text), ENTRY), key) <==> MainSays(text, key, "true")
  {
    hide SplitKey, GroupLines, Lines, Gives, InMainGroup;
    var lines := Lines(text);
    var from := GroupIsMain(lines);
    var g := GroupLines(lines, ENTRY);
    if AnyTrue(g, key) {
      var i :| 0 <= i < |g| && SplitKey(g[i]) == Some(KeyValue(key, "true"));
      SplitIsGives(lines[from + i], key, "true");
      assert InMainGroup(lines, from + i);
    }
    if MainSays(text, key, "true") {
      var i: nat :| i < |lines| && InMainGroup(lines, i) && Gives(lines[i], key, "true");
      SplitIsGives(lines[i], key, "true");
      assert g[i - from] == lines[i];
    }
  }

  lemma FirstIsSaid(text: string, key: string, value: string)
    ensures FirstValue(GroupLines(Lines(text), ENTRY), key) == Some(value) <==> MainSaysFirst(text, key, value)
  {
    hide SplitKey, GroupLines, Lines, Gives, InMainGroup, FirstValue, FirstAt;
    var lines := Lines(text);
    var from := GroupIsMain(lines);
    var g := GroupLines(lines, ENTRY);
    FirstValueIs(g, key, value);
    forall i: nat | i < |g|
      ensures FirstAt(g, i, key, value) <==> FirstGiven(lines, from + i, key, value)
    {
      SameFirst(lines, from, g, i, key, value);
    }
    if FirstValue(g, key) == Some(value) {
      var i: nat :| i < |g| && FirstAt(g, i, key, value);
      assert FirstGiven(lines, from + i, key, value);
    }
    if MainSaysFirst(text, key, value) {
      var i: nat :| i < |lines| && FirstGiven(lines, i, key, value);
      assert FirstAt(g, i - from, key, value);
    }
  }

  lemma SameFirst(lines: seq<string>, from: nat, g: seq<string>, i: nat, key: string, value: string)
    requires from + |g| <= |lines| && g == lines[from..from + |g|] && i < |g|
    requires forall j: nat :: j < |lines| ==> (InMainGroup(lines, j) <==> from <= j < from + |g|)
    ensures FirstAt(g, i, key, value) <==> FirstGiven(lines, from + i, key, value)
  {
    hide SplitKey, Gives, InMainGroup;
    SplitIsGives(g[i], key, value);
    forall j: nat, other: string | j < |g|
      ensures SplitKey(g[j]) == Some(KeyValue(key, other)) <==> Gives(lines[from + j], key, other)
    {
      SplitIsGives(g[j], key, other);
    }
    if FirstAt(g, i, key, value) {
      forall j: nat, other: string | j < from + i && InMainGroup(lines, j)
        ensures !Gives(lines[j], key, other)
      {
        assert lines[j] == g[j - from];
        SplitIsGives(g[j - from], key, other);
      }
    }
    if FirstGiven(lines, from + i, key, value) {
      forall j: nat | j < i && SplitKey(g[j]).Some?
        ensures SplitKey(g[j]).value.key != key
      {
        var kv := SplitKey(g[j]).value;
        SplitIsGives(g[j], kv.key, kv.value);
        assert lines[from + j] == g[j];
        assert !Gives(lines[from + j], key, kv.value);
      }
    }
  }

  /** The head of an entry is what its main group says, in the words of the format. */
  lemma HeadSays(text: string, value: string)
    ensures HeadOf(text).hidden <==> MainSays(text, "Hidden", "true")
    ensures HeadOf(text).noDisplay <==> MainSays(text, "NoDisplay", "true")
    ensures HeadOf(text).exec == Some(value) <==> MainSaysFirst(text, "Exec", value)
    ensures HeadOf(text).marker == Some(value) <==> MainSaysFirst(text, "X-Bubbler-Instance", value)
  {
    hide GroupLines, Lines, ReadHead, AnyTrue, FirstValue, MainSays, MainSaysFirst;
    ReadHeadIs(NO_HEAD, GroupLines(Lines(text), ENTRY));
    TrueIsSaid(text, "Hidden");
    TrueIsSaid(text, "NoDisplay");
    FirstIsSaid(text, "Exec", value);
    FirstIsSaid(text, "X-Bubbler-Instance", value);
  }

  lemma MainIsThere(text: string)
    ensures HasGroup(Lines(text), ENTRY) <==> HasMain(text)
  {
    hide Lines, Header, OpensMain;
    var lines := Lines(text);
    if HasGroup(lines, ENTRY) {
      var i :| 0 <= i < |lines| && Header(lines[i]) == Some(ENTRY);
      HeaderOpens(lines[i]);
    }
    if HasMain(text) {
      var h: nat :| h < |lines| && OpensMain(lines[h]);
      HeaderOpens(lines[h]);
    }
  }

  /**
   Which texts are patched: those with a main group that has a command, no marker and no
   `Hidden=true`, for a program that is text. Any other is refused, by the first check it fails.
   */
  lemma PatchDecides(text: string, instance: string, program: Option<string>)
    ensures var r := Patch(text, instance, program);
            var command := exists v: string :: MainSaysFirst(text, "Exec", v);
            var marked := exists v: string :: MainSaysFirst(text, "X-Bubbler-Instance", v);
            && (r.Ok? <==> !marked && program.Some? && HasMain(text) && command && !MainSays(text, "Hidden", "true"))
            && (marked ==> r.Err? && r.error.Generated? && MainSaysFirst(text, "X-Bubbler-Instance", r.error.owner))
            && (!marked && program.None? ==> r == Err(ProgramNotUtf8))
            && (!marked && program.Some? && !HasMain(text) ==> r == Err(NoEntryGroup))
            && (!marked && program.Some? && HasMain(text) && !command ==> r == Err(NoExec))
            && (!marked && program.Some? && HasMain(text) && command && MainSays(text, "Hidden", "true") ==>
                  r == Err(IsHidden))
  {
    hide HeadOf, HasGroup, Lines, MainSays, MainSaysFirst, HasMain, Close, CopyAll, Pieces, Join, Eol;
    MainIsThere(text);
    var head := HeadOf(text);
    forall v: string
      ensures head.exec == Some(v) <==> MainSaysFirst(text, "Exec", v)
      ensures head.marker == Some(v) <==> MainSaysFirst(text, "X-Bubbler-Instance", v)
    {
      HeadSays(text, v);
    }
    HeadSays(text, "");
    assert head.exec.Some? ==> MainSaysFirst(text, "Exec", head.exec.value);
    assert head.marker.Some? ==> MainSaysFirst(text, "X-Bubbler-Instance", head.marker.value);
  }
}
