/** The main group of a patched entry, and the instance it is found to belong to. */
module DesktopOwner {
  import opened Results
  import opened Desktop
  import opened DesktopText
  import opened DesktopPatch

  // ----- the main group found -----

  predicate IsEntry(line: string) {
    Header(line) == Some(ENTRY)
  }

  predicate HeadsEntry(line: string) {
    IsEntry(Body(line))
  }

  predicate HeadsGroup(line: string) {
    Header(Body(line)).Some?
  }

  /** The first header of a main group, or the number of lines. */
  function FirstEntry(lines: seq<string>): (r: nat)
    ensures r <= |lines|
    ensures r < |lines| ==> HeadsEntry(lines[r])
    ensures forall i :: 0 <= i < r ==> !HeadsEntry(lines[i])
  {
    if lines == [] || HeadsEntry(lines[0]) then 0 else 1 + FirstEntry(lines[1..])
  }

  /** The first header of any group, or the number of lines. */
  function GroupEnd(lines: seq<string>): (r: nat)
    ensures r <= |lines|
    ensures r < |lines| ==> HeadsGroup(lines[r])
    ensures forall i :: 0 <= i < r ==> !HeadsGroup(lines[i])
  {
    if lines == [] || HeadsGroup(lines[0]) then 0 else 1 + GroupEnd(lines[1..])
  }

  /** The lines after the first header of a main group. */
  function AfterHeader(lines: seq<string>): seq<string> {
    if FirstEntry(lines) == |lines| then [] else lines[FirstEntry(lines) + 1..]
  }

  /** The lines of the first main group. */
  function EntryOf(lines: seq<string>): seq<string> {
    AfterHeader(lines)[..GroupEnd(AfterHeader(lines))]
  }

  /** The lines from the end of the first main group on. */
  function AfterEntry(lines: seq<string>): seq<string> {
    AfterHeader(lines)[GroupEnd(AfterHeader(lines))..]
  }

  function SawAll(p: Present, lines: seq<string>): Present
    decreases |lines|
  {
    if lines == [] then p else SawAll(Saw(p, lines[0], true), lines[1..])
  }

  /** What comes out after a group that ends in front of `lines`. */
  function Later(lines: seq<string>, p: Present, w: With): seq<string> {
    if lines == [] then []
    else [lines[0]] + Rest([], Header(Body(lines[0])) == Some(ENTRY), p, lines[1..], w)
  }

  lemma RestLine(cur: seq<string>, entry: bool, p: Present, lines: seq<string>, w: With)
    requires lines != []
    ensures var name := Header(Body(lines[0]));
            && (name.Some? ==>
                  Rest(cur, entry, p, lines, w)
                  == CloseGroup(cur, entry, p, w) + [lines[0]] + Rest([], name == Some(ENTRY), p, lines[1..], w))
            && (name.None? ==>
                  Rest(cur, entry, p, lines, w)
                  == Rest(cur + [Rewrite(lines[0], entry, w)], entry, Saw(p, lines[0], entry), lines[1..], w))
            && (!entry ==> Saw(p, lines[0], entry) == p)
  {
    hide Header, Body, Rewrite, CloseGroup;
  }

  lemma CopiedLine(lines: seq<string>, w: With)
    requires lines != [] && Header(Body(lines[0])) != Some(ENTRY)
    ensures Copied(lines, false, w)
         == [if Header(Body(lines[0])).Some? then lines[0] else Rewrite(lines[0], false, w)]
            + Copied(lines[1..], false, w)
  {
    hide Header, Body, Rewrite;
  }

  lemma FirstEntryLine(lines: seq<string>)
    requires lines != []
    ensures FirstEntry(lines) == if Header(Body(lines[0])) == Some(ENTRY) then 0 else 1 + FirstEntry(lines[1..])
  {
    hide Header, Body;
  }

  lemma {:induction false} RestUpToEntry(cur: seq<string>, p: Present, lines: seq<string>, w: With)
    requires FirstEntry(lines) < |lines|
    ensures var k := FirstEntry(lines);
            Rest(cur, false, p, lines, w)
            == cur + Copied(lines[..k], false, w) + ([lines[k]] + Rest([], true, p, lines[k + 1..], w))
    decreases |lines|
  {
    hide Header, Body, Rewrite, Rest, Copied, FirstEntry;
    var k := FirstEntry(lines);
    var line := lines[0];
    var name := Header(Body(line));
    FirstEntryLine(lines);
    RestLine(cur, false, p, lines, w);
    if k == 0 {
      NothingCopied(w);
      assert cur + [] == cur && lines[..0] == [];
    } else {
      assert lines[..k][1..] == lines[1..][..k - 1] && lines[1..][k..] == lines[k + 1..];
      assert lines[1..][k - 1] == lines[k];
      CopiedLine(lines[..k], w);
      var tail := [lines[k]] + Rest([], true, p, lines[k + 1..], w);
      var copied := Copied(lines[1..][..k - 1], false, w);
      if name.Some? {
        RestUpToEntry([], p, lines[1..], w);
        Regrouped(cur, [line], copied, tail);
      } else {
        var r := Rewrite(line, false, w);
        RestUpToEntry(cur + [r], p, lines[1..], w);
        Regrouped(cur, [r], copied, tail);
      }
    }
  }

  lemma NothingCopied(w: With)
    ensures Copied([], false, w) == []
  {
  }

  lemma Regrouped(a: seq<string>, b: seq<string>, c: seq<string>, d: seq<string>)
    ensures a + b + ([] + c + d) == a + (b + c) + d
    ensures a + b + c + d == a + (b + c) + d
    ensures a + b + (c + d) == a + b + c + d
  {
  }

  lemma {:induction false} RestOfGroup(cur: seq<string>, p: Present, lines: seq<string>, w: With)
    ensures var m := GroupEnd(lines);
            var q := SawAll(p, lines[..m]);
            Rest(cur, true, p, lines, w)
            == PushAdded(cur + Copied(lines[..m], true, w), q, w) + Later(lines[m..], q, w)
    decreases |lines|
  {
    hide Header, Body, Rewrite, PushAdded, SplitKey, Saw;
    var m := GroupEnd(lines);
    if m == 0 {
      assert cur + [] == cur;
      if lines == [] {
        assert PushAdded(cur, p, w) + [] == PushAdded(cur, p, w);
      } else {
        var more := [lines[0]] + Rest([], Header(Body(lines[0])) == Some(ENTRY), p, lines[1..], w);
        assert PushAdded(cur, p, w) + [lines[0]] + Rest([], Header(Body(lines[0])) == Some(ENTRY), p, lines[1..], w)
            == PushAdded(cur, p, w) + more;
      }
    } else {
      var r := Rewrite(lines[0], true, w);
      assert lines[..m][1..] == lines[1..][..m - 1];
      assert lines[1..][m - 1..] == lines[m..];
      RestOfGroup(cur + [r], Saw(p, lines[0], true), lines[1..], w);
      assert cur + [r] + Copied(lines[1..][..m - 1], true, w) == cur + Copied(lines[..m], true, w);
    }
  }

  // ----- reading a group -----

  predicate NoHeaders(lines: seq<string>) {
    forall i :: 0 <= i < |lines| ==> Header(lines[i]).None?
  }

  predicate NoEntryHeader(lines: seq<string>) {
    forall i :: 0 <= i < |lines| ==> !IsEntry(lines[i])
  }

  /** The lines of the first main group. */
  function MainGroup(lines: seq<string>): seq<string> {
    GroupLines(lines, ENTRY)
  }

  lemma {:induction false} GroupLinesSkip(a: seq<string>, b: seq<string>)
    requires NoEntryHeader(a)
    ensures MainGroup(a + b) == MainGroup(b)
  {
    hide Header;
    if a == [] {
      assert a + b == b;
    } else {
      assert (a + b)[1..] == a[1..] + b;
      GroupLinesSkip(a[1..], b);
    }
  }

  lemma {:induction false} UntilHeaderAll(x: seq<string>, t: seq<string>)
    requires NoHeaders(x) && (t == [] || Header(t[0]).Some?)
    ensures UntilHeader(x + t) == x
  {
    hide Header;
    if x == [] {
      assert x + t == t;
    } else {
      assert (x + t)[1..] == x[1..] + t;
      UntilHeaderAll(x[1..], t);
    }
  }

  /** A group between a header and the next. */
  lemma GroupBetween(before: seq<string>, header: string, x: seq<string>, t: seq<string>)
    requires NoEntryHeader(before) && IsEntry(header)
    requires NoHeaders(x) && (t == [] || Header(t[0]).Some?)
    ensures MainGroup(before + [header] + x + t) == x
  {
    hide Header, UntilHeader, MainGroup, NoHeaders, NoEntryHeader, IsEntry;
    GroupLinesSkip(before, [header] + (x + t));
    assert before + [header] + x + t == before + ([header] + (x + t));
    GroupHeaded(header, x + t);
    UntilHeaderAll(x, t);
  }

  lemma GroupHeaded(header: string, rest: seq<string>)
    requires IsEntry(header)
    ensures MainGroup([header] + rest) == UntilHeader(rest)
  {
    assert ([header] + rest)[1..] == rest;
  }

  lemma {:induction false} UntilHeaderPrefix(s: seq<string>, t: seq<string>)
    ensures UntilHeader(s) <= UntilHeader(s + t)
  {
    hide Header;
    if s != [] {
      assert (s + t)[1..] == s[1..] + t;
      UntilHeaderPrefix(s[1..], t);
    }
  }

  lemma {:induction false} GroupPrefix(s: seq<string>, t: seq<string>)
    ensures MainGroup(s) <= MainGroup(s + t)
  {
    hide Header, UntilHeader;
    if s != [] {
      assert (s + t)[1..] == s[1..] + t;
      UntilHeaderPrefix(s[1..], t);
      GroupPrefix(s[1..], t);
    }
  }

  // ----- the marker -----

  predicate HasKey(line: string, key: string) {
    SplitKey(line).Some? && SplitKey(line).value.key == key
  }

  function FirstMarker(lines: seq<string>): Option<string> {
    if lines == [] then None
    else if HasKey(lines[0], MARKER) then Some(SplitKey(lines[0]).value.value)
    else FirstMarker(lines[1..])
  }

  lemma {:induction false} MarkerIsFirst(h: Head, lines: seq<string>)
    ensures ReadHead(h, lines).marker == if h.marker.Some? then h.marker else FirstMarker(lines)
    decreases |lines|
  {
    hide SplitKey;
    KeysDiffer();
    if lines != [] {
      MarkerIsFirst(Noted(h, lines[0]), lines[1..]);
    }
  }

  lemma {:induction false} MarkerConcat(a: seq<string>, b: seq<string>)
    ensures FirstMarker(a + b) == if FirstMarker(a).Some? then FirstMarker(a) else FirstMarker(b)
  {
    hide HasKey;
    if a == [] {
      assert a + b == b;
    } else {
      assert (a + b)[1..] == a[1..] + b;
      MarkerConcat(a[1..], b);
    }
  }

  lemma {:induction false} MarkerNowhere(lines: seq<string>)
    ensures FirstMarker(lines).None? <==> forall i :: 0 <= i < |lines| ==> !HasKey(lines[i], MARKER)
  {
    hide HasKey;
    if lines != [] {
      MarkerNowhere(lines[1..]);
      assert forall i :: 0 <= i < |lines[1..]| ==> lines[1..][i] == lines[i + 1];
      assert forall i :: 0 < i < |lines| ==> lines[i] == lines[1..][i - 1];
    }
  }

  lemma MarkerStays(s: seq<string>, t: seq<string>)
    requires FirstMarker(MainGroup(s)).Some?
    ensures FirstMarker(MainGroup(s + t)) == FirstMarker(MainGroup(s))
  {
    hide MainGroup, FirstMarker;
    GroupPrefix(s, t);
    var a, b := MainGroup(s), MainGroup(s + t);
    assert b == a + b[|a|..];
    MarkerConcat(a, b[|a|..]);
  }

  // ----- the parts of a patched entry -----

  /** What a text's lines up to its main group become. */
  function Before(lines: seq<string>, w: With): seq<string>
    requires FirstEntry(lines) < |lines|
  {
    Copied(lines[..FirstEntry(lines)], false, w) + [lines[FirstEntry(lines)]]
  }

  /** The main group's own lines as they are copied. */
  function OwnLines(lines: seq<string>, w: With): seq<string> {
    Copied(EntryOf(lines), true, w)
  }

  function Found(lines: seq<string>): Present {
    SawAll(Present(false, false), EntryOf(lines))
  }

  lemma OutFromEntry(lines: seq<string>, w: With)
    requires FirstEntry(lines) < |lines|
    ensures Out(lines, w) == Before(lines, w) + Rest([], true, Present(false, false), AfterHeader(lines), w)
  {
    hide Rest, Copied, FirstEntry, HeadsEntry;
    var k := FirstEntry(lines);
    RestUpToEntry([], Present(false, false), lines, w);
    NothingInFront(Copied(lines[..k], false, w));
  }

  lemma OutInParts(lines: seq<string>, w: With)
    requires FirstEntry(lines) < |lines|
    ensures Out(lines, w)
         == Before(lines, w) + PushAdded(OwnLines(lines, w), Found(lines), w)
            + Later(AfterEntry(lines), Found(lines), w)
  {
    hide Rest, Copied, FirstEntry, GroupEnd, PushAdded, Later, SawAll, HeadsEntry, HeadsGroup, AfterHeader, Before, Out;
    OutFromEntry(lines, w);
    RestOfGroup([], Present(false, false), AfterHeader(lines), w);
    NothingInFront(OwnLines(lines, w));
    Associated(Before(lines, w), PushAdded(OwnLines(lines, w), Found(lines), w),
               Later(AfterEntry(lines), Found(lines), w));
  }

  lemma NothingInFront(a: seq<string>)
    ensures [] + a == a
  {
  }

  lemma Associated(a: seq<string>, b: seq<string>, c: seq<string>)
    ensures a + (b + c) == a + b + c
  {
  }

  lemma {:induction false} CopiedHeaders(lines: seq<string>, w: With)
    requires Fits(w) && NoEntryHeader(Bodies(lines))
    ensures NoEntryHeader(Bodies(Copied(lines, false, w)))
    decreases |lines|
  {
    hide Header, Body, Rewrite, SplitKey, Fits, Bodies;
    if lines != [] {
      assert !IsEntry(Bodies(lines)[0]);
      CopiedLine(lines, w);
      RewriteKeeps(lines[0], false, w);
      forall i | 0 <= i < |lines[1..]|
        ensures !IsEntry(Bodies(lines[1..])[i])
      {
        assert !IsEntry(Bodies(lines)[i + 1]);
      }
      CopiedHeaders(lines[1..], w);
      var copied := Copied(lines, false, w);
      forall i | 0 <= i < |copied|
        ensures !IsEntry(Bodies(copied)[i])
      {
        if i > 0 {
          assert !IsEntry(Bodies(Copied(lines[1..], false, w))[i - 1]);
        }
      }
    }
  }

  /** In a group each line is copied on its own. */
  lemma {:induction false} CopiedInGroup(lines: seq<string>, w: With)
    requires forall i :: 0 <= i < |lines| ==> Header(Body(lines[i])).None?
    ensures forall i :: 0 <= i < |lines| ==> Copied(lines, true, w)[i] == Rewrite(lines[i], true, w)
    decreases |lines|
  {
    hide Header, Body, Rewrite;
    if lines != [] {
      CopiedInGroup(lines[1..], w);
    }
  }

  lemma OwnLinesAre(lines: seq<string>, w: With)
    ensures var own, entry := OwnLines(lines, w), EntryOf(lines);
            && |own| == |entry|
            && (forall i :: 0 <= i < |entry| ==> Header(Body(entry[i])).None?)
            && forall i :: 0 <= i < |entry| ==> own[i] == Rewrite(entry[i], true, w)
  {
    hide Header, Body, Rewrite;
    CopiedInGroup(EntryOf(lines), w);
  }

  lemma OwnLinesHeadNothing(lines: seq<string>, w: With)
    requires Fits(w)
    ensures NoHeaders(Bodies(OwnLines(lines, w)))
  {
    hide Header, Body, Rewrite, SplitKey, Fits, OwnLines, EntryOf;
    OwnLinesAre(lines, w);
    forall i | 0 <= i < |EntryOf(lines)|
      ensures Header(Bodies(OwnLines(lines, w))[i]).None?
    {
      RewriteKeeps(EntryOf(lines)[i], true, w);
    }
  }

  /** The added lines read back. */
  lemma AddedReads(w: With)
    requires Fits(w)
    ensures SplitKey(Body(MARKER + "=" + w.instance + w.eol)) == Some(KeyValue(MARKER, TrimStart(w.instance)))
    ensures SplitKey(Body(TRY_EXEC + "=" + w.program + w.eol)) == Some(KeyValue(TRY_EXEC, TrimStart(w.program)))
    ensures SplitKey(Body(DBUS + "=false" + w.eol)) == Some(KeyValue(DBUS, "false"))
  {
    hide SplitKey, TrimStart, Body, KeyName;
    AddedNames();
    AddedOne(MARKER, w.instance, w.eol);
    AddedOne(TRY_EXEC, w.program, w.eol);
    AddedOne(DBUS, "false", w.eol);
    TrimStartInk("false");
    assert DBUS + "=false" + w.eol == DBUS + "=" + "false" + w.eol;
  }

  lemma AddedHeadsNothing(line: string, w: With)
    requires Fits(w) && AddedLine(line, w)
    ensures Header(Body(line)).None? && !Blank(line)
  {
    hide SplitKey, TrimStart, Body, Header, Blank, KeyName;
    AddedNames();
    AddedOne(MARKER, w.instance, w.eol);
    AddedOne(TRY_EXEC, w.program, w.eol);
    AddedOne(DBUS, "false", w.eol);
    assert DBUS + "=false" + w.eol == DBUS + "=" + "false" + w.eol;
  }

  /** A key that reads back as itself. */
  predicate KeyName(key: string) {
    NoEquals(key) && key != "" && !IsSpace(key[0]) && key[0] != '[' && !IsSpace(key[|key| - 1])
  }

  lemma AddedNames()
    ensures KeyName(MARKER) && KeyName(TRY_EXEC) && KeyName(DBUS)
  {
  }

  lemma AddedOne(key: string, value: string, eol: string)
    requires NoBreaks(value) && (eol == "" || eol == "\r") && KeyName(key)
    ensures var line := key + "=" + value + eol;
            && SplitKey(Body(line)) == Some(KeyValue(key, TrimStart(value)))
            && Header(Body(line)).None? && !Blank(line)
  {
    hide SplitKey, TrimStart, Body, IsSpace;
    var line := key + "=" + value + eol;
    var body := key + "=" + value;
    assert line == body + eol;
    assert !EndsIn(body, '\r');
    BodyPlusCr(body, eol);
    SplitKeyOf(key, value);
    assert line[0] == key[0] && body[0] == key[0];
  }

  lemma AddedAreLines(p: Present, w: With)
    requires Fits(w)
    ensures NoHeaders(Bodies(Added(p, w)))
    ensures FirstMarker(Bodies(Added(p, w))) == Some(TrimStart(w.instance))
  {
    hide Header, Body, SplitKey, TrimStart, AddedLine, Fits;
    AddedReads(w);
    AddedLines(p, w);
    var added := Added(p, w);
    var last := added[|added| - 1];
    var front := added[..|added| - 1];
    MarkerIsLast(p, w);
    forall i | 0 <= i < |front|
      ensures !HasKey(Bodies(front)[i], MARKER)
    {
      FrontIsNotMarker(p, w, i);
    }
    MarkerNowhere(Bodies(front));
    BodiesConcat(front, [last]);
    assert added == front + [last];
    MarkerConcat(Bodies(front), Bodies([last]));
    assert Bodies([last]) == [Body(last)];
    forall i | 0 <= i < |added|
      ensures Header(Bodies(added)[i]).None?
    {
      AddedHeadsNothing(added[i], w);
    }
  }

  lemma FrontIsNotMarker(p: Present, w: With, i: nat)
    requires Fits(w) && i < |Added(p, w)| - 1
    ensures !HasKey(Body(Added(p, w)[i]), MARKER)
  {
    hide Body, SplitKey, TrimStart, Header;
    KeysDiffer();
    AddedReads(w);
    var line := Added(p, w)[i];
    assert line == TRY_EXEC + "=" + w.program + w.eol || line == DBUS + "=false" + w.eol;
  }

  lemma NoHeadersJoined(a: seq<string>, b: seq<string>)
    ensures NoHeaders(Bodies(a + b)) <==> NoHeaders(Bodies(a)) && NoHeaders(Bodies(b))
  {
    hide Header, Body, Bodies;
    BodiesConcat(a, b);
    var x, y := Bodies(a), Bodies(b);
    if NoHeaders(x + y) {
      forall i | 0 <= i < |x|
        ensures Header(x[i]).None?
      {
        assert (x + y)[i] == x[i];
      }
      forall i | 0 <= i < |y|
        ensures Header(y[i]).None?
      {
        assert (x + y)[|x| + i] == y[i];
      }
    }
  }

  lemma PushedHeadsNothing(own: seq<string>, p: Present, w: With)
    requires Fits(w) && NoHeaders(Bodies(own))
    ensures NoHeaders(Bodies(PushAdded(own, p, w)))
  {
    hide Added, Inked, Fits, Bodies, NoHeaders, TrimStart, FirstMarker, Blank;
    AddedAreLines(p, w);
    var at := Inked(own);
    assert own == own[..at] + own[at..];
    NoHeadersJoined(own[..at], own[at..]);
    NoHeadersJoined(own[..at], Added(p, w));
    NoHeadersJoined(own[..at] + Added(p, w), own[at..]);
  }

  lemma BeforeHeads(lines: seq<string>, w: With)
    requires FirstEntry(lines) < |lines| && Fits(w)
    ensures NoEntryHeader(Bodies(Copied(lines[..FirstEntry(lines)], false, w)))
    ensures IsEntry(Body(lines[FirstEntry(lines)]))
  {
    hide Header, Body, Bodies, Fits;
    var front := lines[..FirstEntry(lines)];
    forall i | 0 <= i < |front|
      ensures !IsEntry(Bodies(front)[i])
    {
      assert Bodies(front)[i] == Body(lines[i]);
    }
    CopiedHeaders(front, w);
  }

  /** Any lines put where the main group of the copy stands are read as that group. */
  lemma GroupRead(lines: seq<string>, w: With, x: seq<string>, t: seq<string>)
    requires FirstEntry(lines) < |lines| && Fits(w)
    requires NoHeaders(Bodies(x)) && (t == [] || Header(t[0]).Some?)
    ensures MainGroup(Bodies(Before(lines, w) + x) + t) == Bodies(x)
  {
    hide Header, Body, Bodies, Fits, FirstEntry, Copied, MainGroup, NoHeaders, NoEntryHeader, IsEntry;
    BeforeHeads(lines, w);
    var front, header := Copied(lines[..FirstEntry(lines)], false, w), lines[FirstEntry(lines)];
    BodiesConcat(front + [header], x);
    BodiesConcat(front, [header]);
    assert Bodies([header]) == [Body(header)];
    GroupBetween(Bodies(front), Body(header), Bodies(x), t);
  }

  lemma EntryPieces(lines: seq<string>)
    requires FirstEntry(lines) < |lines|
    ensures var k := FirstEntry(lines);
            lines == lines[..k] + [lines[k]] + EntryOf(lines) + AfterEntry(lines)
  {
    hide FirstEntry, EntryOf, AfterEntry, AfterHeader;
    var k := FirstEntry(lines);
    EntryAndAfter(lines);
    HeaderAndRest(lines);
    Regrouped(lines[..k], [lines[k]], EntryOf(lines), AfterEntry(lines));
  }

  lemma EntryAndAfter(lines: seq<string>)
    requires FirstEntry(lines) < |lines|
    ensures AfterHeader(lines) == EntryOf(lines) + AfterEntry(lines)
  {
    hide FirstEntry, GroupEnd, HeadsEntry, HeadsGroup;
  }

  lemma HeaderAndRest(lines: seq<string>)
    requires FirstEntry(lines) < |lines|
    ensures lines == lines[..FirstEntry(lines)] + [lines[FirstEntry(lines)]] + AfterHeader(lines)
  {
    hide FirstEntry, HeadsEntry, IsEntry;
    AtIndex(lines, FirstEntry(lines));
  }

  lemma AtIndex<T>(s: seq<T>, k: nat)
    requires k < |s|
    ensures s == s[..k] + [s[k]] + s[k + 1..]
  {
  }

  lemma EntryParts(lines: seq<string>)
    requires FirstEntry(lines) < |lines|
    ensures NoEntryHeader(Bodies(lines[..FirstEntry(lines)])) && NoHeaders(Bodies(EntryOf(lines)))
    ensures AfterEntry(lines) != [] ==> Header(Body(AfterEntry(lines)[0])).Some?
  {
    hide Header, Body, Bodies, FirstEntry, GroupEnd;
    var k := FirstEntry(lines);
    var front, entry := lines[..k], EntryOf(lines);
    forall i | 0 <= i < |front|
      ensures !IsEntry(Bodies(front)[i])
    {
      assert front[i] == lines[i];
    }
    forall i | 0 <= i < |entry|
      ensures Header(Bodies(entry)[i]).None?
    {
      assert entry[i] == AfterHeader(lines)[i];
    }
  }

  /** The text's own main group. */
  lemma EntryRead(lines: seq<string>)
    requires FirstEntry(lines) < |lines|
    ensures MainGroup(Bodies(lines)) == Bodies(EntryOf(lines))
  {
    hide Header, Body, Bodies, MainGroup, FirstEntry, GroupEnd, EntryOf, AfterEntry, NoHeaders, NoEntryHeader, IsEntry;
    var k := FirstEntry(lines);
    var entry, after := EntryOf(lines), AfterEntry(lines);
    EntryPieces(lines);
    EntryParts(lines);
    BodiesConcat(lines[..k] + [lines[k]] + entry, after);
    BodiesConcat(lines[..k] + [lines[k]], entry);
    BodiesConcat(lines[..k], [lines[k]]);
    assert Bodies([lines[k]]) == [Body(lines[k])];
    GroupBetween(Bodies(lines[..k]), Body(lines[k]), Bodies(entry), Bodies(after));
  }

  lemma LaterStarts(lines: seq<string>, p: Present, w: With)
    requires lines != [] ==> Header(Body(lines[0])).Some?
    ensures Later(lines, p, w) == [] <==> lines == []
    ensures lines != [] ==> Header(Bodies(Later(lines, p, w))[0]).Some?
  {
    hide Header, Body, Bodies, Rest;
  }

  /**
   The main group of the copy is the text's own, line for line as copied, with the added keys
   after its last line that is not blank.
   */
  lemma EntryGroupOfOut(lines: seq<string>, w: With)
    requires FirstEntry(lines) < |lines| && Fits(w)
    ensures MainGroup(Bodies(Out(lines, w))) == Bodies(PushAdded(OwnLines(lines, w), Found(lines), w))
    ensures MainGroup(Bodies(lines)) == Bodies(EntryOf(lines))
  {
    hide Header, Body, Bodies, Fits, Rest, Copied, MainGroup, PushAdded, Later, Found, OwnLines, Before, NoHeaders;
    var after := AfterEntry(lines);
    var x, t := PushAdded(OwnLines(lines, w), Found(lines), w), Later(after, Found(lines), w);
    OutInParts(lines, w);
    OwnLinesHeadNothing(lines, w);
    PushedHeadsNothing(OwnLines(lines, w), Found(lines), w);
    LaterStarts(after, Found(lines), w);
    BodiesConcat(Before(lines, w) + x, t);
    assert t == [] ==> Bodies(t) == [];
    GroupRead(lines, w, x, Bodies(t));
    EntryRead(lines);
  }
}
