/**
 Launcher entries: a vendor's `.desktop` text copied with the few keys changed that make it
 start through the sandbox, and the reading of such a text.
 */
module Desktop {
  import opened Results

  const SUFFIX: string := " (Bubbler)"
  const MARKER: string := "X-Bubbler-Instance"
  const ENTRY: string := "Desktop Entry"
  const NAME: string := "Name"
  const EXEC: string := "Exec"
  const TRY_EXEC: string := "TryExec"
  const DBUS: string := "DBusActivatable"
  const NO_DISPLAY: string := "NoDisplay"
  const HIDDEN: string := "Hidden"

  // ----- text -----

  /** Characters of the Unicode property White_Space. */
  predicate IsSpace(c: char) {
    var n := c as int;
    || 9 <= n <= 13 || n == 32 || n == 0x85 || n == 0xA0 || n == 0x1680 || 0x2000 <= n <= 0x200A
    || n == 0x2028 || n == 0x2029 || n == 0x202F || n == 0x205F || n == 0x3000
  }

  predicate Blank(s: string) {
    forall i :: 0 <= i < |s| ==> IsSpace(s[i])
  }

  function TrimStart(s: string): (r: string)
    ensures |r| <= |s|
  {
    if s == "" || !IsSpace(s[0]) then s else TrimStart(s[1..])
  }

  function TrimEnd(s: string): (r: string)
    ensures |r| <= |s|
  {
    if s == "" || !IsSpace(s[|s| - 1]) then s else TrimEnd(s[..|s| - 1])
  }

  /** The pieces between line feeds. */
  function Split(text: string): (r: seq<string>)
    ensures r != []
  {
    if text == "" then [""]
    else if text[0] == '\n' then [""] + Split(text[1..])
    else
      var rest := Split(text[1..]);
      [[text[0]] + rest[0]] + rest[1..]
  }

  function Join(lines: seq<string>): string {
    if lines == [] then ""
    else if |lines| == 1 then lines[0]
    else lines[0] + "\n" + Join(lines[1..])
  }

  predicate EndsIn(s: string, c: char) {
    s != "" && s[|s| - 1] == c
  }

  /** A line without the carriage return of its ending. */
  function Body(line: string): string {
    if EndsIn(line, '\r') then line[..|line| - 1] else line
  }

  function Cr(line: string): string {
    if EndsIn(line, '\r') then "\r" else ""
  }

  function Bodies(lines: seq<string>): (r: seq<string>)
    ensures |r| == |lines|
    ensures forall i :: 0 <= i < |lines| ==> r[i] == Body(lines[i])
  {
    if lines == [] then [] else [Body(lines[0])] + Bodies(lines[1..])
  }

  /** The lines of a text; a last line nothing ends keeps a carriage return of its own. */
  function Lines(text: string): seq<string> {
    var pieces := Split(text);
    var last := pieces[|pieces| - 1];
    Bodies(pieces[..|pieces| - 1]) + (if last == "" then [] else [last])
  }

  predicate HoldsCrLf(text: string) {
    exists i :: 0 <= i < |text| - 1 && text[i] == '\r' && text[i + 1] == '\n'
  }

  // ----- lines -----

  /** The group a `[name]` line names. */
  function Header(line: string): Option<string> {
    if |line| >= 2 && line[0] == '[' && line[|line| - 1] == ']' then Some(line[1..|line| - 1]) else None
  }

  /** The first place of `c`, or the length. */
  function IndexOf(s: string, c: char): (r: nat)
    ensures r <= |s| && (r < |s| ==> s[r] == c)
    ensures forall i :: 0 <= i < r ==> s[i] != c
  {
    if s == "" || s[0] == c then 0 else 1 + IndexOf(s[1..], c)
  }

  datatype KeyValue = KeyValue(key: string, value: string)

  function SplitKey(line: string): Option<KeyValue> {
    var i := IndexOf(line, '=');
    if i == |line| then None else Some(KeyValue(TrimEnd(line[..i]), TrimStart(line[i + 1..])))
  }

  /** The part of a key before its locale. */
  function BaseKey(key: string): string {
    key[..IndexOf(key, '[')]
  }

  function UntilHeader(lines: seq<string>): seq<string> {
    if lines == [] || Header(lines[0]).Some? then [] else [lines[0]] + UntilHeader(lines[1..])
  }

  /** The lines of the first group of a name, without its header. */
  function GroupLines(lines: seq<string>, group: string): seq<string> {
    if lines == [] then []
    else if Header(lines[0]) == Some(group) then UntilHeader(lines[1..])
    else GroupLines(lines[1..], group)
  }

  datatype Head = Head(exec: Option<string>, marker: Option<string>, noDisplay: bool, hidden: bool)

  const NO_HEAD: Head := Head(None, None, false, false)

  function Noted(h: Head, line: string): Head {
    match SplitKey(line)
    case None => h
    case Some(KeyValue(key, value)) =>
      if key == EXEC && h.exec.None? then h.(exec := Some(value))
      else if key == MARKER && h.marker.None? then h.(marker := Some(value))
      else if key == NO_DISPLAY then h.(noDisplay := h.noDisplay || value == "true")
      else if key == HIDDEN then h.(hidden := h.hidden || value == "true")
      else h
  }

  function ReadHead(h: Head, lines: seq<string>): Head
    decreases |lines|
  {
    if lines == [] then h else ReadHead(Noted(h, lines[0]), lines[1..])
  }

  /** `head`: what the main group says. */
  function HeadOf(text: string): Head {
    ReadHead(NO_HEAD, GroupLines(Lines(text), ENTRY))
  }

  /** The instance an entry was generated for. */
  function Owner(text: string): Option<string> {
    HeadOf(text).marker
  }

  /** `head` as it runs. */
  method FindHead(text: string) returns (found: Head)
    ensures found == HeadOf(text)
  {
    var lines := GroupLines(Lines(text), ENTRY);
    found := NO_HEAD;
    var i := 0;
    assert lines[0..] == lines;
    while i < |lines|
      invariant i <= |lines|
      invariant ReadHead(found, lines[i..]) == ReadHead(NO_HEAD, lines)
    {
      assert lines[i..][1..] == lines[i + 1..];
      var kv := SplitKey(lines[i]);
      if kv.Some? {
        if kv.value.key == EXEC && found.exec.None? {
          found := found.(exec := Some(kv.value.value));
        } else if kv.value.key == MARKER && found.marker.None? {
          found := found.(marker := Some(kv.value.value));
        } else if kv.value.key == NO_DISPLAY {
          found := found.(noDisplay := found.noDisplay || kv.value.value == "true");
        } else if kv.value.key == HIDDEN {
          found := found.(hidden := found.hidden || kv.value.value == "true");
        }
      }
      i := i + 1;
    }
  }

  // ----- quoting -----

  const RESERVED: string := " \t\n\"'\\><~|&;$*?#()`"

  predicate Reserved(value: string) {
    exists i :: 0 <= i < |value| && value[i] in RESERVED
  }

  /** A literal percent is written twice. */
  function Doubled(value: string): string {
    if value == "" then ""
    else (if value[0] == '%' then "%%" else [value[0]]) + Doubled(value[1..])
  }

  function Escaped(value: string): string {
    if value == "" then ""
    else (if value[0] in "\"`$\\" then ['\\', value[0]] else [value[0]]) + Escaped(value[1..])
  }

  /** `value` as one argument of an `Exec` value. */
  function ExecQuote(value: string): string {
    var doubled := Doubled(value);
    if !Reserved(doubled) then doubled else "\"" + Escaped(doubled) + "\""
  }

  /** The text up to the closing quote, unescaped. */
  function Unquoted(quoted: string, out: string, escaped: bool): Option<string>
    decreases |quoted|
  {
    if quoted == "" then None
    else if !escaped && quoted[0] == '\\' then Unquoted(quoted[1..], out, true)
    else if !escaped && quoted[0] == '"' then Some(out)
    else Unquoted(quoted[1..], out + [quoted[0]], false)
  }

  predicate AsciiSpace(c: char) {
    c == ' ' || c == '\t' || c == '\n' || c == '\r' || c as int == 12
  }

  function FirstWord(s: string): string {
    if s == "" || AsciiSpace(s[0]) then "" else [s[0]] + FirstWord(s[1..])
  }

  function SkipAscii(s: string): string {
    if s != "" && AsciiSpace(s[0]) then SkipAscii(s[1..]) else s
  }

  /** The program an `Exec` value runs. */
  function ExecProgram(value: string): Option<string> {
    var v := TrimStart(value);
    if v != "" && v[0] == '"' then Unquoted(v[1..], "", false)
    else
      var word := FirstWord(SkipAscii(v));
      if word == "" then None else Some(word)
  }

  /** `exec_program` as it runs over a quoted value. */
  method ReadQuoted(quoted: string) returns (r: Option<string>)
    ensures r == Unquoted(quoted, "", false)
  {
    var out := "";
    var escaped := false;
    var i := 0;
    assert quoted[0..] == quoted;
    while i < |quoted|
      invariant i <= |quoted|
      invariant Unquoted(quoted[i..], out, escaped) == Unquoted(quoted, "", false)
    {
      assert quoted[i..][1..] == quoted[i + 1..];
      var c := quoted[i];
      if !escaped && c == '\\' {
        escaped := true;
      } else if !escaped && c == '"' {
        return Some(out);
      } else {
        out := out + [c];
        escaped := false;
      }
      i := i + 1;
    }
    r := None;
  }

  // ----- the rewriting -----

  datatype DesktopError = Generated(owner: string) | ProgramNotUtf8 | NoEntryGroup | NoExec | IsHidden

  /** Which of the keys to set the main group has carried so far. */
  datatype Present = Present(tryExec: bool, dbus: bool)

  /** What the entry is generated with. */
  datatype With = With(instance: string, program: string, eol: string)

  function Launch(w: With): string {
    ExecQuote(w.program) + " open " + w.instance + " -- "
  }

  /** A line as it is copied; `entry` in the main group. */
  function Rewrite(line: string, entry: bool, w: With): string {
    match SplitKey(Body(line))
    case None => line
    case Some(KeyValue(key, value)) =>
      if entry && BaseKey(key) == NAME then key + "=" + value + SUFFIX + Cr(line)
      else if key == EXEC then key + "=" + Launch(w) + value + Cr(line)
      else if entry && key == TRY_EXEC then key + "=" + w.program + Cr(line)
      else if entry && key == DBUS then key + "=false" + Cr(line)
      else line
  }

  function Saw(p: Present, line: string, entry: bool): Present {
    match SplitKey(Body(line))
    case None => p
    case Some(KeyValue(key, _)) =>
      if entry && BaseKey(key) != NAME && key == TRY_EXEC then p.(tryExec := true)
      else if entry && BaseKey(key) != NAME && key == DBUS then p.(dbus := true)
      else p
  }

  function Added(p: Present, w: With): seq<string> {
    (if p.tryExec then [] else [TRY_EXEC + "=" + w.program + w.eol])
    + (if p.dbus then [] else [DBUS + "=false" + w.eol])
    + [MARKER + "=" + w.instance + w.eol]
  }

  /** How many lines lead up to and with the last that is not blank. */
  function Inked(out: seq<string>): (r: nat)
    ensures r <= |out|
    ensures r > 0 ==> !Blank(out[r - 1])
    ensures forall i :: r <= i < |out| ==> Blank(out[i])
  {
    if out == [] then 0
    else if !Blank(out[|out| - 1]) then |out|
    else Inked(out[..|out| - 1])
  }

  function PushAdded(out: seq<string>, p: Present, w: With): seq<string> {
    var at := Inked(out);
    out[..at] + Added(p, w) + out[at..]
  }

  datatype Copy = Copy(out: seq<string>, group: Option<string>, present: Present)

  function Close(c: Copy, w: With): seq<string> {
    if c.group == Some(ENTRY) then PushAdded(c.out, c.present, w) else c.out
  }

  function CopyLine(c: Copy, line: string, w: With): Copy {
    var name := Header(Body(line));
    var entry := c.group == Some(ENTRY);
    if name.Some? then Copy(Close(c, w) + [line], name, c.present)
    else Copy(c.out + [Rewrite(line, entry, w)], c.group, Saw(c.present, line, entry))
  }

  function CopyAll(c: Copy, lines: seq<string>, w: With): Copy
    decreases |lines|
  {
    if lines == [] then c else CopyAll(CopyLine(c, lines[0], w), lines[1..], w)
  }

  const START: Copy := Copy([], None, Present(false, false))

  function Eol(text: string): string {
    if HoldsCrLf(text) then "\r" else ""
  }

  predicate HasGroup(lines: seq<string>, group: string) {
    exists i :: 0 <= i < |lines| && Header(lines[i]) == Some(group)
  }

  /** The lines a text is copied line by line from. */
  function Pieces(text: string): seq<string> {
    var pieces := Split(text);
    if EndsIn(text, '\n') then pieces[..|pieces| - 1] else pieces
  }

  /** `patch`; a program that is not UTF-8 is `None`. */
  function Patch(text: string, instance: string, program: Option<string>): Result<string, DesktopError> {
    if Owner(text).Some? then Err(Generated(Owner(text).value))
    else if program.None? then Err(ProgramNotUtf8)
    else if !HasGroup(Lines(text), ENTRY) then Err(NoEntryGroup)
    else if HeadOf(text).exec.None? then Err(NoExec)
    else if HeadOf(text).hidden then Err(IsHidden)
    else
      var w := With(instance, program.value, Eol(text));
      var out := Close(CopyAll(START, Pieces(text), w), w);
      Ok(Join(out) + if EndsIn(text, '\n') then "\n" else "")
  }

  /** `patch` as it runs. */
  method PatchText(text: string, instance: string, program: Option<string>) returns (r: Result<string, DesktopError>)
    ensures r == Patch(text, instance, program)
  {
    hide Lines, ReadHead, GroupLines, Header, Rewrite, Saw, Split, Join, Close, HoldsCrLf, ExecQuote;
    var head := FindHead(text);
    if head.marker.Some? {
      return Err(Generated(head.marker.value));
    }
    if program.None? {
      return Err(ProgramNotUtf8);
    }
    if !HasGroup(Lines(text), ENTRY) {
      return Err(NoEntryGroup);
    }
    if head.exec.None? {
      return Err(NoExec);
    }
    if head.hidden {
      return Err(IsHidden);
    }
    var w := With(instance, program.value, Eol(text));
    var lines := Pieces(text);
    var out := CopyLines(lines, w);
    var patched := Join(out);
    if EndsIn(text, '\n') {
      patched := patched + "\n";
    } else {
      assert patched + "" == patched;
    }
    r := Ok(patched);
  }

  /** The loop of `patch` over the lines. */
  method CopyLines(lines: seq<string>, w: With) returns (out: seq<string>)
    ensures out == Close(CopyAll(START, lines, w), w)
  {
    hide Header, Split, Join, PushAdded, Body, SplitKey, BaseKey, Launch, Cr;
    out := [];
    var group: Option<string> := None;
    var present := Present(false, false);
    var i := 0;
    assert lines[0..] == lines;
    while i < |lines|
      invariant i <= |lines|
      invariant CopyAll(Copy(out, group, present), lines[i..], w) == CopyAll(START, lines, w)
    {
      assert lines[i..][1..] == lines[i + 1..];
      var line := lines[i];
      var name := Header(Body(line));
      var entry := group == Some(ENTRY);
      if name.Some? {
        if entry {
          out := PushAdded(out, present, w);
        }
        group := name;
        out := out + [line];
      } else {
        var kv := SplitKey(Body(line));
        if kv.None? {
          out := out + [line];
        } else {
          var key, value := kv.value.key, kv.value.value;
          if entry && BaseKey(key) == NAME {
            out := out + [key + "=" + value + SUFFIX + Cr(line)];
          } else if key == EXEC {
            assert Saw(present, line, entry) == present by { KeysDiffer(); }
            out := out + [key + "=" + Launch(w) + value + Cr(line)];
          } else if entry && key == TRY_EXEC {
            present := present.(tryExec := true);
            out := out + [key + "=" + w.program + Cr(line)];
          } else if entry && key == DBUS {
            present := present.(dbus := true);
            out := out + [key + "=false" + Cr(line)];
          } else {
            out := out + [line];
          }
        }
      }
      i := i + 1;
    }
    if group == Some(ENTRY) {
      out := PushAdded(out, present, w);
    }
  }

  lemma KeysDiffer()
    ensures EXEC != TRY_EXEC && EXEC != DBUS && TRY_EXEC != DBUS && MARKER != EXEC && MARKER != TRY_EXEC
    ensures MARKER != DBUS && NAME != EXEC
  {
    assert |EXEC| == 4 && |TRY_EXEC| == 7 && |DBUS| == 15 && |MARKER| == 18;
    assert EXEC[0] == 'E' && NAME[0] == 'N';
  }
}
