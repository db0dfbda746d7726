/** The promises of a patched entry, from the text it is read as. */
module DesktopSafety {
  import opened Results
  import opened Desktop
  import opened DesktopText
  import opened DesktopPatch
  import opened DesktopOwner

  /** An instance name the configuration accepts. */
  predicate ValidInstance(name: string) {
    name != "" && forall i :: 0 <= i < |name| ==>
      'a' <= name[i] <= 'z' || 'A' <= name[i] <= 'Z' || '0' <= name[i] <= '9' || name[i] in "._-"
  }

  lemma ValidNamesFit(name: string)
    requires ValidInstance(name)
    ensures NoBreaks(name) && name != "" && !IsSpace(name[0])
  {
    assert forall i :: 0 <= i < |name| && name[i] in "._-" ==> name[i] == '.' || name[i] == '_' || name[i] == '-';
  }

  // ----- the text before it is patched -----

  /** Whether the lines end inside the first main group. */
  predicate Open(lines: seq<string>) {
    if lines == [] then false
    else if IsEntry(lines[0]) then NoHeaders(lines[1..])
    else Open(lines[1..])
  }

  lemma {:induction false} UntilHeaderLast(s: seq<string>, x: string)
    ensures UntilHeader(s + [x])
         == if NoHeaders(s) && Header(x).None? then UntilHeader(s) + [x] else UntilHeader(s)
    ensures NoHeaders(s) ==> UntilHeader(s) == s
  {
    hide Header;
    if s == [] {
      assert s + [x] == [x];
    } else {
      assert (s + [x])[1..] == s[1..] + [x];
      UntilHeaderLast(s[1..], x);
      if Header(s[0]).None? && NoHeaders(s[1..]) {
        assert s == [s[0]] + s[1..];
      }
    }
  }

  lemma {:induction false} GroupLast(s: seq<string>, x: string)
    ensures MainGroup(s + [x])
         == if Open(s) && Header(x).None? then MainGroup(s) + [x] else MainGroup(s)
  {
    hide Header, UntilHeader, NoHeaders;
    if s == [] {
      assert s + [x] == [x];
      GroupOfOne(x);
    } else {
      assert (s + [x])[1..] == s[1..] + [x];
      UntilHeaderLast(s[1..], x);
      GroupLast(s[1..], x);
    }
  }

  lemma GroupOfOne(x: string)
    ensures MainGroup([x]) == []
  {
    assert [x][1..] == [];
    assert GroupLines([], ENTRY) == [] && UntilHeader([]) == [];
  }

  lemma CrEndsNoHeader(line: string)
    requires EndsIn(line, '\r')
    ensures Header(line).None?
  {
  }

  lemma SameKey(line: string)
    requires SplitKey(Body(line)).Some?
    ensures SplitKey(line).Some? && SplitKey(line).value.key == SplitKey(Body(line)).value.key
  {
    hide TrimEnd, TrimStart;
    BodyOf(line);
    var body := Body(line);
    var i := IndexOf(body, '=');
    IndexIs(line, '=', i);
    assert line[..i] == body[..i];
  }

  /** A last line that only loses its carriage return names no instance if it named none with it. */
  lemma LastLineStaysSilent(s: seq<string>, last: string)
    requires EndsIn(last, '\r') && FirstMarker(MainGroup(s + [last])).None?
    ensures FirstMarker(MainGroup(s + [Body(last)])).None?
  {
    hide MainGroup, Header, Body, FirstMarker, SplitKey, EndsIn, Open, IsEntry;
    CrEndsNoHeader(last);
    GroupLast(s, last);
    GroupLast(s, Body(last));
    MarkerConcat(MainGroup(s), [last]);
    MarkerConcat(MainGroup(s), [Body(last)]);
    MarkerNowhere([last]);
    MarkerNowhere([Body(last)]);
    if HasKey(Body(last), MARKER) {
      SameKey(last);
      assert HasKey([last][0], MARKER);
    }
  }

  /** A text that says it belongs to nobody says so without the endings of its lines too. */
  lemma SourceHasNoMarker(lines: seq<string>, ended: bool)
    requires lines != []
    requires FirstMarker(MainGroup(EndedLines(lines, ended))).None?
    ensures FirstMarker(MainGroup(Bodies(lines))).None?
  {
    hide MainGroup, Body, Bodies, FirstMarker;
    if !ended {
      var front, last := lines[..|lines| - 1], lines[|lines| - 1];
      assert lines == front + [last];
      BodiesConcat(front, [last]);
      assert Bodies([last]) == [Body(last)];
      BodyOf(last);
      if EndsIn(last, '\r') {
        LastLineStaysSilent(Bodies(front), last);
      }
    }
  }

  lemma SourceHasEntry(lines: seq<string>, ended: bool)
    requires lines != [] && HasGroup(EndedLines(lines, ended), ENTRY)
    ensures FirstEntry(lines) < |lines|
  {
    hide EndedLines, IsEntry, FirstEntry, HasGroup;
    HasGroupMeans(EndedLines(lines, ended));
    var i :| 0 <= i < |EndedLines(lines, ended)| && IsEntry(EndedLines(lines, ended)[i]);
    EntryIsThere(lines, ended, i);
  }

  lemma EndedAt(lines: seq<string>, ended: bool, i: nat)
    requires lines != [] && i < |EndedLines(lines, ended)|
    ensures i < |lines|
    ensures EndedLines(lines, ended)[i] == Body(lines[i]) || EndedLines(lines, ended)[i] == lines[i]
  {
    hide Body;
  }

  lemma EntryIsThere(lines: seq<string>, ended: bool, i: nat)
    requires lines != [] && i < |EndedLines(lines, ended)| && IsEntry(EndedLines(lines, ended)[i])
    ensures FirstEntry(lines) < |lines|
  {
    hide FirstEntry, Header, Body, IsEntry, EndedLines;
    EndedAt(lines, ended, i);
    if EndedLines(lines, ended)[i] != Body(lines[i]) {
      NotBodyNoEntry(lines[i]);
    }
    HeadedHere(lines, i);
  }

  lemma NotBodyNoEntry(line: string)
    requires line != Body(line)
    ensures !IsEntry(line)
  {
    CrEndsNoHeader(line);
  }

  lemma {:induction false} HeadedHere(lines: seq<string>, i: nat)
    requires i < |lines| && IsEntry(Body(lines[i]))
    ensures FirstEntry(lines) < |lines|
  {
    hide IsEntry;
    assert HeadsEntry(lines[i]);
  }

  lemma HasGroupMeans(lines: seq<string>)
    requires HasGroup(lines, ENTRY)
    ensures exists i :: 0 <= i < |lines| && IsEntry(lines[i])
  {
    var i :| 0 <= i < |lines| && Header(lines[i]) == Some(ENTRY);
    assert IsEntry(lines[i]);
  }

  // ----- whose it is afterwards -----

  lemma KeysAreKept(lines: seq<string>, w: With)
    requires FirstEntry(lines) < |lines| && Fits(w)
    requires FirstMarker(MainGroup(Bodies(lines))).None?
    ensures FirstMarker(Bodies(OwnLines(lines, w))).None?
  {
    hide MainGroup, Header, Body, Bodies, SplitKey, Rewrite, Fits, FirstEntry, EntryOf, OwnLines, FirstMarker;
    EntryRead(lines);
    MarkerNowhere(Bodies(EntryOf(lines)));
    OwnLinesAre(lines, w);
    var own := OwnLines(lines, w);
    forall i | 0 <= i < |Bodies(own)|
      ensures !HasKey(Bodies(own)[i], MARKER)
    {
      RewriteKeeps(EntryOf(lines)[i], true, w);
      assert !HasKey(Bodies(EntryOf(lines))[i], MARKER);
    }
    MarkerNowhere(Bodies(own));
  }

  /** The copy up to and with the marker it adds to the first main group. */
  function UpToMarker(lines: seq<string>, w: With): seq<string>
    requires FirstEntry(lines) < |lines|
  {
    var own := OwnLines(lines, w);
    Before(lines, w) + (own[..Inked(own)] + Added(Found(lines), w))
  }

  function AfterMarker(lines: seq<string>, w: With): seq<string>
    requires FirstEntry(lines) < |lines|
  {
    var own := OwnLines(lines, w);
    own[Inked(own)..] + Later(AfterEntry(lines), Found(lines), w)
  }

  lemma OutAroundMarker(lines: seq<string>, w: With)
    requires FirstEntry(lines) < |lines|
    ensures Out(lines, w) == UpToMarker(lines, w) + AfterMarker(lines, w)
  {
    hide Rest, Copied, FirstEntry, GroupEnd, Later, SawAll, HeadsEntry, HeadsGroup, AfterHeader, Before, Added, Inked,
         OwnLines, Found, AfterEntry, Out;
    OutInParts(lines, w);
    var own := OwnLines(lines, w);
    FourParts(Before(lines, w), own[..Inked(own)], Added(Found(lines), w), own[Inked(own)..],
              Later(AfterEntry(lines), Found(lines), w));
  }

  lemma FourParts(a: seq<string>, b: seq<string>, c: seq<string>, d: seq<string>, e: seq<string>)
    ensures a + (b + c + d) + e == a + (b + c) + (d + e)
  {
  }

  /** The lines of the group that the added ones follow. */
  function InkedLines(lines: seq<string>, w: With): seq<string> {
    OwnLines(lines, w)[..Inked(OwnLines(lines, w))]
  }

  lemma InkedLinesAre(lines: seq<string>, w: With)
    requires FirstEntry(lines) < |lines| && Fits(w)
    requires FirstMarker(MainGroup(Bodies(lines))).None?
    ensures NoHeaders(Bodies(InkedLines(lines, w))) && FirstMarker(Bodies(InkedLines(lines, w))).None?
  {
    hide MainGroup, Header, Body, Bodies, SplitKey, Rewrite, Fits, FirstEntry, EntryOf, OwnLines, FirstMarker,
         NoHeaders, HasKey, Inked;
    var own := OwnLines(lines, w);
    var front, rest := own[..Inked(own)], own[Inked(own)..];
    KeysAreKept(lines, w);
    OwnLinesHeadNothing(lines, w);
    InTwo(own, Inked(own));
    NoHeadersJoined(front, rest);
    BodiesConcat(front, rest);
    MarkerConcat(Bodies(front), Bodies(rest));
  }

  lemma InTwo(s: seq<string>, at: nat)
    requires at <= |s|
    ensures s == s[..at] + s[at..]
  {
  }

  lemma UpToMarkerIs(lines: seq<string>, w: With)
    requires FirstEntry(lines) < |lines|
    ensures UpToMarker(lines, w) == Before(lines, w) + (InkedLines(lines, w) + Added(Found(lines), w))
  {
    hide OwnLines, Inked, Before, Added, Found, FirstEntry;
  }

  /** What stands in the main group's place is read as it. */
  lemma GroupReadAlone(lines: seq<string>, w: With, x: seq<string>)
    requires FirstEntry(lines) < |lines| && Fits(w) && NoHeaders(Bodies(x))
    ensures MainGroup(Bodies(Before(lines, w) + x)) == Bodies(x)
  {
    hide MainGroup, Bodies, Fits, FirstEntry, NoHeaders, Before;
    GroupRead(lines, w, x, []);
    assert Bodies(Before(lines, w) + x) + [] == Bodies(Before(lines, w) + x);
  }

  lemma MarkerRead(lines: seq<string>, w: With)
    requires FirstEntry(lines) < |lines| && Fits(w)
    requires FirstMarker(MainGroup(Bodies(lines))).None?
    ensures FirstMarker(MainGroup(Bodies(UpToMarker(lines, w)))) == Some(TrimStart(w.instance))
  {
    hide MainGroup, Bodies, Fits, FirstEntry, FirstMarker, TrimStart, Added, Before, Found, NoHeaders, InkedLines,
         UpToMarker;
    var front, added := InkedLines(lines, w), Added(Found(lines), w);
    InkedLinesAre(lines, w);
    AddedAreLines(Found(lines), w);
    NoHeadersJoined(front, added);
    UpToMarkerIs(lines, w);
    GroupReadAlone(lines, w, front + added);
    BodiesConcat(front, added);
    MarkerConcat(Bodies(front), Bodies(added));
  }

  /** The marker comes last when the main group runs to the end and its last line is not blank. */
  predicate MarkerComesLast(lines: seq<string>) {
    && lines != [] && FirstEntry(lines) < |lines|
    && AfterEntry(lines) == [] && !Blank(lines[|lines| - 1])
  }

  lemma LastIsInk(s: seq<string>, a: seq<string>, x: string, e: seq<string>, after: seq<string>)
    requires s == a + [x] + e + after && !Blank(x)
    ensures s != []
    ensures after == [] && !Blank(s[|s| - 1]) <==> after == [] && (e == [] || !Blank(e[|e| - 1]))
  {
    hide Blank;
    if after == [] {
      assert s[|s| - 1] == if e == [] then x else e[|e| - 1];
    }
  }

  lemma OwnInked(lines: seq<string>, w: With)
    requires Fits(w)
    ensures var own, entry := OwnLines(lines, w), EntryOf(lines);
            && |own| == |entry|
            && (Inked(own) == |own| <==> entry == [] || !Blank(entry[|entry| - 1]))
  {
    hide Header, Body, Rewrite, SplitKey, Fits, Blank, OwnLines, EntryOf;
    OwnLinesAre(lines, w);
    var entry := EntryOf(lines);
    if entry != [] {
      RewriteKeeps(entry[|entry| - 1], true, w);
    }
  }

  lemma NothingAfterMarker(lines: seq<string>, w: With)
    requires FirstEntry(lines) < |lines|
    ensures AfterMarker(lines, w) == []
       <==> Inked(OwnLines(lines, w)) == |OwnLines(lines, w)| && AfterEntry(lines) == []
  {
    hide FirstEntry, Blank, OwnLines, AfterEntry, Found, Later, Inked;
    LaterNothing(AfterEntry(lines), Found(lines), w);
    var own := OwnLines(lines, w);
    assert AfterMarker(lines, w) == [] <==> |AfterMarker(lines, w)| == 0;
  }

  lemma LastOfLines(lines: seq<string>)
    requires FirstEntry(lines) < |lines|
    ensures var entry := EntryOf(lines);
            AfterEntry(lines) == [] && !Blank(lines[|lines| - 1])
            <==> AfterEntry(lines) == [] && (entry == [] || !Blank(entry[|entry| - 1]))
  {
    hide FirstEntry, Blank, EntryOf, AfterEntry;
    EntryPieces(lines);
    FirstIsInk(lines);
    LastIsInk(lines, lines[..FirstEntry(lines)], lines[FirstEntry(lines)], EntryOf(lines), AfterEntry(lines));
  }

  lemma WhenMarkerComesLast(lines: seq<string>, w: With)
    requires FirstEntry(lines) < |lines| && Fits(w)
    ensures AfterMarker(lines, w) == [] <==> MarkerComesLast(lines)
  {
    hide Fits, FirstEntry, Blank, OwnLines, EntryOf, AfterEntry, Inked, AfterMarker;
    NothingAfterMarker(lines, w);
    OwnInked(lines, w);
    LastOfLines(lines);
  }

  lemma LaterNothing(lines: seq<string>, p: Present, w: With)
    ensures Later(lines, p, w) == [] <==> lines == []
  {
    hide Rest;
  }

  lemma FirstIsInk(lines: seq<string>)
    requires FirstEntry(lines) < |lines|
    ensures !Blank(lines[FirstEntry(lines)])
  {
    hide FirstEntry;
    HeaderIsInk(lines[FirstEntry(lines)]);
  }

  lemma BodiesOfLast(front: seq<string>, last: string)
    ensures Bodies(front + [last]) == Bodies(front) + [Body(last)]
    ensures EndedLines(front + [last], false) == Bodies(front) + [last]
  {
    hide Body;
    BodiesConcat(front, [last]);
    assert [last][1..] == [];
    var u := front + [last];
    assert u[..|u| - 1] == front && u[|u| - 1] == last;
  }

  /** A last line with nothing to end it, where without its carriage return it is the first to name. */
  lemma BareLast(u: seq<string>, front: seq<string>, last: string)
    requires u != [] && u[|u| - 1] == last && u[..|u| - 1] == front && Header(last).None? && HasKey(last, MARKER)
    requires FirstMarker(MainGroup(Bodies(u))).Some? && FirstMarker(MainGroup(Bodies(front))).None?
    ensures FirstMarker(MainGroup(EndedLines(u, false))) == Some(SplitKey(last).value.value)
  {
    hide MainGroup, Header, Body, Bodies, FirstMarker, SplitKey, HasKey, EndedLines;
    assert u == front + [last];
    BodiesOfLast(front, last);
    LastLineNames(Bodies(front), last);
  }

  /** The marker as the last line, with nothing to end it. */
  lemma BareMarker(lines: seq<string>, w: With)
    requires FirstEntry(lines) < |lines| && Fits(w) && w.instance != "" && !IsSpace(w.instance[0])
    requires FirstMarker(MainGroup(Bodies(lines))).None?
    ensures UpToMarker(lines, w) != []
    ensures FirstMarker(MainGroup(EndedLines(UpToMarker(lines, w), false))) == Some(w.instance + w.eol)
  {
    hide MainGroup, Header, Bodies, SplitKey, Fits, FirstEntry, FirstMarker, TrimStart, HasKey, UpToMarker, EndedLines,
         IsSpace;
    MarkerEndsIt(lines, w);
    MarkerRead(lines, w);
    UnmarkedFront(lines, w);
    BareLine(w);
    var u := UpToMarker(lines, w);
    BareLast(u, u[..|u| - 1], u[|u| - 1]);
  }

  lemma MarkerEndsIt(lines: seq<string>, w: With)
    requires FirstEntry(lines) < |lines|
    ensures var u := UpToMarker(lines, w);
            u != [] && u[|u| - 1] == MARKER + "=" + w.instance + w.eol
  {
    hide FirstEntry, OwnLines, Before, Found, Added, Inked;
    MarkerIsLast(Found(lines), w);
  }

  /** Where the line without its ending is the first to name an instance, so is the line itself. */
  lemma LastLineNames(s: seq<string>, last: string)
    requires FirstMarker(MainGroup(s)).None? && FirstMarker(MainGroup(s + [Body(last)])).Some?
    requires Header(last).None? && HasKey(last, MARKER)
    ensures FirstMarker(MainGroup(s + [last])) == Some(SplitKey(last).value.value)
  {
    hide MainGroup, Header, Body, FirstMarker, SplitKey, Open, IsEntry;
    GroupLast(s, Body(last));
    GroupLast(s, last);
    MarkerConcat(MainGroup(s), [last]);
    FirstOfOne(last);
  }

  lemma FirstOfOne(line: string)
    ensures HasKey(line, MARKER) ==> FirstMarker([line]) == Some(SplitKey(line).value.value)
  {
    hide SplitKey;
  }

  lemma BareLine(w: With)
    requires Fits(w) && w.instance != "" && !IsSpace(w.instance[0])
    ensures var last := MARKER + "=" + w.instance + w.eol;
            && HasKey(last, MARKER) && SplitKey(last).value.value == w.instance + w.eol
            && Header(last).None? && Header(Body(last)).None?
  {
    hide SplitKey, TrimStart, Body;
    AddedNames();
    var last := MARKER + "=" + w.instance + w.eol;
    assert last == MARKER + "=" + (w.instance + w.eol);
    SplitKeyOf(MARKER, w.instance + w.eol);
    TrimStartInk(w.instance + w.eol);
    assert last[0] == 'X';
    AddedOne(MARKER, w.instance, w.eol);
  }

  /** The added lines but the marker. */
  lemma AddedFront(p: Present, w: With)
    requires Fits(w)
    ensures var added := Added(p, w);
            && added != []
            && NoHeaders(Bodies(added[..|added| - 1])) && FirstMarker(Bodies(added[..|added| - 1])).None?
  {
    hide Header, Body, Bodies, SplitKey, Fits, FirstMarker, TrimStart, NoHeaders, HasKey, Added;
    MarkerIsLast(p, w);
    var added := Added(p, w);
    var some := added[..|added| - 1];
    AddedAreLines(p, w);
    assert added == some + [added[|added| - 1]];
    NoHeadersJoined(some, [added[|added| - 1]]);
    forall i | 0 <= i < |Bodies(some)|
      ensures !HasKey(Bodies(some)[i], MARKER)
    {
      FrontIsNotMarker(p, w, i);
    }
    MarkerNowhere(Bodies(some));
  }

  lemma AllButLast(a: seq<string>, b: seq<string>, c: seq<string>)
    requires c != []
    ensures var s := a + (b + c);
            s != [] && s[..|s| - 1] == a + (b + c[..|c| - 1])
  {
  }

  /** In front of the marker the first main group names no instance. */
  lemma UnmarkedFront(lines: seq<string>, w: With)
    requires FirstEntry(lines) < |lines| && Fits(w)
    requires FirstMarker(MainGroup(Bodies(lines))).None?
    ensures var u := UpToMarker(lines, w);
            u != [] && FirstMarker(MainGroup(Bodies(u[..|u| - 1]))).None?
  {
    hide MainGroup, Bodies, Fits, FirstEntry, FirstMarker, Before, Found, NoHeaders, Added, InkedLines, UpToMarker;
    var added := Added(Found(lines), w);
    AddedFront(Found(lines), w);
    var front, some := InkedLines(lines, w), added[..|added| - 1];
    InkedLinesAre(lines, w);
    NoHeadersJoined(front, some);
    UpToMarkerIs(lines, w);
    AllButLast(Before(lines, w), front, added);
    GroupReadAlone(lines, w, front + some);
    BodiesConcat(front, some);
    MarkerConcat(Bodies(front), Bodies(some));
  }

  lemma OwnerIsFirst(text: string)
    ensures Owner(text) == FirstMarker(MainGroup(Lines(text)))
  {
    hide GroupLines, Lines, FirstMarker, ReadHead;
    MarkerIsFirst(NO_HEAD, MainGroup(Lines(text)));
  }

  /** The first name stays the first whatever follows it. */
  lemma NamedBefore(u: seq<string>, r: seq<string>, ended: bool)
    requires FirstMarker(MainGroup(Bodies(u))).Some? && u + r != [] && (ended || r != [])
    ensures FirstMarker(MainGroup(EndedLines(u + r, ended))) == FirstMarker(MainGroup(Bodies(u)))
  {
    hide MainGroup, Bodies, FirstMarker;
    if ended {
      BodiesConcat(u, r);
      MarkerStays(Bodies(u), Bodies(r));
    } else {
      var front, last := r[..|r| - 1], r[|r| - 1];
      assert (u + r)[..|u + r| - 1] == u + front;
      BodiesConcat(u, front);
      assert EndedLines(u + r, false) == Bodies(u) + (Bodies(front) + [last]);
      MarkerStays(Bodies(u), Bodies(front) + [last]);
    }
  }

  lemma NamedInFull(lines: seq<string>, w: With, ended: bool)
    requires FirstEntry(lines) < |lines| && Fits(w) && ValidInstance(w.instance)
    requires FirstMarker(MainGroup(Bodies(lines))).None? && Out(lines, w) != []
    requires ended || AfterMarker(lines, w) != []
    ensures FirstMarker(MainGroup(EndedLines(Out(lines, w), ended))) == Some(w.instance)
  {
    hide MainGroup, Bodies, Fits, FirstEntry, FirstMarker, TrimStart, UpToMarker, AfterMarker, Out, EndedLines,
         ValidInstance, IsSpace;
    ValidNamesFit(w.instance);
    TrimStartInk(w.instance);
    MarkerRead(lines, w);
    OutAroundMarker(lines, w);
    NamedBefore(UpToMarker(lines, w), AfterMarker(lines, w), ended);
  }

  lemma NamedBare(lines: seq<string>, w: With)
    requires FirstEntry(lines) < |lines| && Fits(w) && ValidInstance(w.instance)
    requires FirstMarker(MainGroup(Bodies(lines))).None? && Out(lines, w) != []
    requires AfterMarker(lines, w) == []
    ensures FirstMarker(MainGroup(EndedLines(Out(lines, w), false))) == Some(w.instance + w.eol)
  {
    hide MainGroup, Bodies, Fits, FirstEntry, FirstMarker, UpToMarker, AfterMarker, Out, EndedLines,
         ValidInstance, IsSpace;
    ValidNamesFit(w.instance);
    OutAroundMarker(lines, w);
    NothingBehind(UpToMarker(lines, w));
    BareMarker(lines, w);
  }

  lemma NothingBehind(u: seq<string>)
    ensures u + [] == u
  {
  }

  /** What a caller can see before the patch: the marker would be the last line, bare, after CRLF lines. */
  predicate MarkerLosesItsEnding(text: string) {
    !EndsIn(text, '\n') && HoldsCrLf(text) && MarkerComesLast(Pieces(text))
  }

  /**
   A patched entry belongs to the instance it was made for exactly when its marker is not put,
   with a carriage return of its own, where no line feed follows it.
   */
  lemma PatchedKnowsItself(text: string, instance: string, program: string)
    requires Patch(text, instance, Some(program)).Ok? && ValidInstance(instance) && NoBreaks(program)
    ensures var out := Patch(text, instance, Some(program)).value;
            && (Owner(out) == Some(instance) <==> !MarkerLosesItsEnding(text))
            && (MarkerLosesItsEnding(text) ==> Owner(out) == Some(instance + "\r"))
  {
    hide Patch, Owner, Lines, Pieces, MainGroup, FirstMarker, Join, EndsIn, MarkerComesLast, Out, FirstEntry, Bodies,
         EndedLines, ValidInstance, HoldsCrLf, HasGroup, AfterMarker, NoBreaks;
    var w := WithOf(text, instance, program);
    var lines := Pieces(text);
    var ended := EndsIn(text, '\n');
    var out := Patch(text, instance, Some(program)).value;
    PatchedText(text, instance, program);
    LinesOfPieces(text);
    ValidNamesFit(instance);
    EolFits(text);
    OwnerIsFirst(text);
    OwnerIsFirst(out);
    SourceHasNoMarker(lines, ended);
    SourceHasEntry(lines, ended);
    OutReadsBack(lines, w, ended);
    WhenMarkerComesLast(lines, w);
    if ended || AfterMarker(lines, w) != [] {
      NamedInFull(lines, w, ended);
    } else {
      NamedBare(lines, w);
    }
    assert |instance + "\r"| != |instance| && instance + "" == instance;
  }

  /** Patched again, whatever with, an entry is refused as already generated. */
  lemma PatchedTwice(text: string, instance: string, program: string, other: string, again: Option<string>)
    requires Patch(text, instance, Some(program)).Ok? && ValidInstance(instance) && NoBreaks(program)
    ensures Patch(Patch(text, instance, Some(program)).value, other, again)
         == Err(Generated(if MarkerLosesItsEnding(text) then instance + "\r" else instance))
  {
    hide Owner, Lines, Pieces, MainGroup, ReadHead, Join, CopyAll, Close, HasGroup, HoldsCrLf, MarkerComesLast;
    PatchedKnowsItself(text, instance, program);
  }

  // ----- what the lines of the copy say -----

  /** Line by line: commands go through the launcher, names are marked, the two keys are set. */
  predicate WellSet(line: string, entry: bool, w: With) {
    && (HasKey(line, EXEC) ==> EXEC + "=" + Launch(w) <= line)
    && (entry && HasKey(line, TRY_EXEC) ==> SplitKey(line).value.value == TrimStart(w.program))
    && (entry && HasKey(line, DBUS) ==> SplitKey(line).value.value == "false")
    && (entry && SplitKey(line).Some? && BaseKey(SplitKey(line).value.key) == NAME ==> Marked(line))
  }

  predicate Marked(line: string) {
    |line| >= |SUFFIX| && line[|line| - |SUFFIX|..] == SUFFIX
  }

  predicate NoBracket(key: string) {
    forall i :: 0 <= i < |key| ==> key[i] != '['
  }

  lemma NoBrackets()
    ensures NoBracket(EXEC) && NoBracket(TRY_EXEC) && NoBracket(DBUS) && NoBracket(MARKER)
  {
  }

  lemma BaseKeys()
    ensures BaseKey(EXEC) == EXEC && BaseKey(TRY_EXEC) == TRY_EXEC && BaseKey(DBUS) == DBUS && BaseKey(MARKER) == MARKER
    ensures TRY_EXEC != NAME && DBUS != NAME && MARKER != NAME
  {
    hide BaseKey, NoBracket;
    NoBrackets();
    PlainKey(EXEC);
    PlainKey(TRY_EXEC);
    PlainKey(DBUS);
    PlainKey(MARKER);
    assert |NAME| == 4 && |TRY_EXEC| == 7 && |DBUS| == 15 && |MARKER| == 18;
  }

  lemma PlainKey(key: string)
    requires NoBracket(key)
    ensures BaseKey(key) == key
  {
    assert IndexOf(key, '[') == |key|;
  }

  /** What the rewritten line is and reads as. */
  lemma RewriteReads(line: string, entry: bool, w: With)
    requires Fits(w) && SplitKey(Body(line)).Some?
    ensures var key := SplitKey(Body(line)).value.key;
            var r := Body(Rewrite(line, entry, w));
            && SplitKey(r).Some? && SplitKey(r).value.key == key
            && ((entry && OwnedKey(key)) || key == EXEC ==>
                  var v := NewValue(key, SplitKey(Body(line)).value.value, entry, w);
                  r == key + "=" + v && SplitKey(r).value.value == TrimStart(v))
  {
    hide SplitKey, BaseKey, Body, TrimStart, Launch, Rewrite, NewValue, Fits, Cr, Header, Blank;
    var kv := SplitKey(Body(line)).value;
    RewriteKeeps(line, entry, w);
    ExecIsOwned();
    if (entry && OwnedKey(kv.key)) || kv.key == EXEC {
      var v := NewValue(kv.key, kv.value, entry, w);
      OwnedLine(line, entry, w);
      NewValueEnds(line, entry, w);
      BodyOf(line);
      BodyPlusCr(kv.key + "=" + v, Cr(line));
      KeyOf(Body(line));
      SplitKeyOf(kv.key, v);
    }
  }

  lemma ExecIsOwned()
    ensures OwnedKey(EXEC)
  {
  }

  lemma OwnedLine(line: string, entry: bool, w: With)
    requires SplitKey(Body(line)).Some?
    ensures var kv := SplitKey(Body(line)).value;
            (entry && OwnedKey(kv.key)) || kv.key == EXEC ==>
              Rewrite(line, entry, w) == kv.key + "=" + NewValue(kv.key, kv.value, entry, w) + Cr(line)
  {
    hide SplitKey, BaseKey, Body, Cr, Launch;
    KeysDiffer();
    BaseKeys();
    var kv := SplitKey(Body(line)).value;
    if entry && BaseKey(kv.key) == NAME {
      assert kv.key + "=" + kv.value + SUFFIX + Cr(line) == kv.key + "=" + (kv.value + SUFFIX) + Cr(line);
    } else if kv.key == EXEC {
      assert kv.key + "=" + Launch(w) + kv.value + Cr(line) == kv.key + "=" + (Launch(w) + kv.value) + Cr(line);
    } else if entry && kv.key == DBUS {
      assert kv.key + "=false" + Cr(line) == kv.key + "=" + "false" + Cr(line);
    }
  }

  lemma NewValues(key: string, value: string, entry: bool, w: With)
    ensures key == EXEC ==> NewValue(key, value, entry, w) == Launch(w) + value
    ensures key == TRY_EXEC ==> NewValue(key, value, entry, w) == w.program
    ensures key == DBUS ==> NewValue(key, value, entry, w) == "false"
    ensures entry && BaseKey(key) == NAME ==> NewValue(key, value, entry, w) == value + SUFFIX
    ensures key == TRY_EXEC || key == DBUS || BaseKey(key) == NAME ==> OwnedKey(key)
  {
    hide BaseKey, Launch;
    BaseKeys();
    KeysDiffer();
  }

  /** A value written where its key wants it. */
  lemma NewValueIsWellSet(key: string, value: string, line: string, entry: bool, w: With)
    requires SplitKey(line).Some? && SplitKey(line).value.key == key
    requires (entry && OwnedKey(key)) || key == EXEC ==>
               var v := NewValue(key, value, entry, w);
               line == key + "=" + v && SplitKey(line).value.value == TrimStart(v)
    ensures WellSet(line, entry, w)
  {
    hide SplitKey, BaseKey, TrimStart, Launch, Marked, NewValue, OwnedKey;
    NewValues(key, value, entry, w);
    TrimStartInk("false");
    EndsWithSuffix(key + "=", value);
    StartsWithLaunch(Launch(w), value);
  }

  lemma StartsWithLaunch(launch: string, value: string)
    ensures EXEC + "=" + launch <= EXEC + "=" + (launch + value)
  {
    assert EXEC + "=" + (launch + value) == EXEC + "=" + launch + value;
  }

  lemma RewriteIsWellSet(line: string, entry: bool, w: With)
    requires Fits(w)
    ensures WellSet(Body(Rewrite(line, entry, w)), entry, w)
  {
    hide SplitKey, BaseKey, Body, TrimStart, Launch, Rewrite, NewValue, OwnedKey, Fits;
    RewriteKeeps(line, entry, w);
    if SplitKey(Body(line)).Some? {
      RewriteReads(line, entry, w);
      var kv := SplitKey(Body(line)).value;
      NewValueIsWellSet(kv.key, kv.value, Body(Rewrite(line, entry, w)), entry, w);
    }
  }

  lemma EndsWithSuffix(front: string, value: string)
    ensures Marked(front + value + SUFFIX) && front + (value + SUFFIX) == front + value + SUFFIX
  {
    var s := front + value + SUFFIX;
    assert s[|s| - |SUFFIX|..] == SUFFIX;
  }

  lemma AddedIsWellSet(line: string, w: With)
    requires Fits(w) && AddedLine(line, w)
    ensures WellSet(Body(line), true, w) && WellSet(Body(line), false, w)
  {
    hide SplitKey, BaseKey, Body, TrimStart, Launch;
    AddedReads(w);
    BaseKeys();
    KeysDiffer();
  }

  lemma {:induction false} ShuffledAll(a: seq<string>, b: seq<string>, out: seq<string>, w: With)
    requires Shuffled(a, b, out)
    requires forall i :: 0 <= i < |a| ==> WellSet(Body(a[i]), false, w)
    requires forall i :: 0 <= i < |b| ==> WellSet(Body(b[i]), false, w)
    ensures forall i :: 0 <= i < |out| ==> WellSet(Body(out[i]), false, w)
    decreases |out|
  {
    hide WellSet, Body;
    if out != [] {
      if a != [] && a[0] == out[0] && Shuffled(a[1..], b, out[1..]) {
        ShuffledAll(a[1..], b, out[1..], w);
      } else {
        ShuffledAll(a, b[1..], out[1..], w);
      }
      assert forall i :: 0 < i < |out| ==> out[i] == out[1..][i - 1];
    }
  }

  lemma HeaderIsWellSet(line: string, w: With)
    requires Header(Body(line)).Some?
    ensures WellSet(Body(line), false, w)
  {
    hide SplitKey, Launch, Body;
    if SplitKey(Body(line)).Some? {
      KeyOfBracket(Body(line));
      assert EXEC[0] == 'E';
    }
  }

  lemma AnywhereWellSet(line: string, entry: bool, w: With)
    requires WellSet(line, entry, w)
    ensures WellSet(line, false, w)
  {
    hide SplitKey, Launch;
  }

  lemma {:induction false} CopiedIsWellSet(lines: seq<string>, entry: bool, w: With)
    requires Fits(w)
    ensures forall i :: 0 <= i < |lines| ==> WellSet(Body(Copied(lines, entry, w)[i]), false, w)
    decreases |lines|
  {
    hide WellSet, Body, Header, Rewrite, Fits;
    if lines != [] {
      var name := Header(Body(lines[0]));
      if name.Some? {
        HeaderIsWellSet(lines[0], w);
        CopiedIsWellSet(lines[1..], name == Some(ENTRY), w);
      } else {
        RewriteIsWellSet(lines[0], entry, w);
        AnywhereWellSet(Body(Rewrite(lines[0], entry, w)), entry, w);
        CopiedIsWellSet(lines[1..], entry, w);
      }
    }
  }

  /** In every group of a patched entry, actions included, every command starts with the launcher's. */
  lemma CommandsAreLaunched(text: string, instance: string, program: string, i: nat)
    requires Patch(text, instance, Some(program)).Ok? && NoBreaks(instance) && NoBreaks(program)
    requires i < |Pieces(Patch(text, instance, Some(program)).value)|
    ensures var line := Body(Pieces(Patch(text, instance, Some(program)).value)[i]);
            HasKey(line, EXEC) ==> EXEC + "=" + ExecQuote(program) + " open " + instance + " -- " <= line
  {
    hide Patch, Header, Body, Rewrite, SplitKey, Join, AddedLine, Shuffled, Pieces, Copied, Extras, Eol, HasKey, Rest,
         ExecQuote;
    var w := WithOf(text, instance, program);
    var lines := Pieces(text);
    PatchedText(text, instance, program);
    LinesOfPieces(text);
    EolFits(text);
    OutReadsBack(lines, w, EndsIn(text, '\n'));
    RestIsShuffled([], false, Present(false, false), lines, w);
    var copied, added := Copied(lines, false, w), Extras(lines, false, Present(false, false), w);
    assert [] + copied == copied;
    CopiedIsWellSet(lines, false, w);
    ExtrasAreAdded(lines, false, Present(false, false), w);
    forall j | 0 <= j < |added|
      ensures WellSet(Body(added[j]), false, w)
    {
      AddedIsWellSet(added[j], w);
    }
    ShuffledAll(copied, added, Out(lines, w), w);
    LaunchSpelled(w);
  }

  lemma LaunchSpelled(w: With)
    ensures EXEC + "=" + Launch(w) == EXEC + "=" + ExecQuote(w.program) + " open " + w.instance + " -- "
  {
    hide ExecQuote;
  }

  lemma {:induction false} SawIsThere(p: Present, lines: seq<string>)
    ensures SawAll(p, lines).tryExec ==> p.tryExec || Carries(lines, TRY_EXEC)
    ensures SawAll(p, lines).dbus ==> p.dbus || Carries(lines, DBUS)
    decreases |lines|
  {
    hide SplitKey, Body, BaseKey;
    if lines != [] {
      SawIsThere(Saw(p, lines[0], true), lines[1..]);
      CarriesMore(lines, TRY_EXEC);
      CarriesMore(lines, DBUS);
    }
  }

  /** Whether a line has the key. */
  predicate Carries(lines: seq<string>, key: string) {
    exists i :: 0 <= i < |lines| && HasKey(Body(lines[i]), key)
  }

  lemma CarriesMore(lines: seq<string>, key: string)
    requires lines != []
    ensures Carries(lines, key) <== HasKey(Body(lines[0]), key) || Carries(lines[1..], key)
  {
    hide HasKey, Body;
    if Carries(lines[1..], key) {
      var i :| 0 <= i < |lines[1..]| && HasKey(Body(lines[1..][i]), key);
      assert lines[i + 1] == lines[1..][i];
    }
  }

  lemma CarriesCopied(lines: seq<string>, w: With, key: string)
    requires Fits(w) && Carries(EntryOf(lines), key)
    ensures Carries(OwnLines(lines, w), key)
  {
    hide SplitKey, Body, Rewrite, Fits, EntryOf, OwnLines, Header;
    OwnLinesAre(lines, w);
    var i :| 0 <= i < |EntryOf(lines)| && HasKey(Body(EntryOf(lines)[i]), key);
    RewriteKeeps(EntryOf(lines)[i], true, w);
    assert HasKey(Body(OwnLines(lines, w)[i]), key);
  }

  lemma CarriesJoined(a: seq<string>, b: seq<string>, key: string)
    ensures Carries(a + b, key) <== Carries(a, key) || Carries(b, key)
  {
    hide HasKey, Body;
    if Carries(a, key) {
      var i :| 0 <= i < |a| && HasKey(Body(a[i]), key);
      assert (a + b)[i] == a[i];
    } else if Carries(b, key) {
      var i :| 0 <= i < |b| && HasKey(Body(b[i]), key);
      assert (a + b)[|a| + i] == b[i];
    }
  }

  lemma CarriesPushed(own: seq<string>, p: Present, w: With, key: string)
    requires Carries(own, key) || Carries(Added(p, w), key)
    ensures Carries(PushAdded(own, p, w), key)
  {
    hide Carries, Added, Inked;
    var at := Inked(own);
    InTwo(own, at);
    if Carries(own, key) {
      CarriesEither(own[..at], own[at..], key);
    }
    CarriesJoined(own[..at], Added(p, w), key);
    CarriesJoined(own[..at] + Added(p, w), own[at..], key);
  }

  lemma CarriesEither(a: seq<string>, b: seq<string>, key: string)
    requires Carries(a + b, key)
    ensures Carries(a, key) || Carries(b, key)
  {
    hide HasKey, Body;
    var i :| 0 <= i < |a + b| && HasKey(Body((a + b)[i]), key);
    if i < |a| {
      assert a[i] == (a + b)[i];
    } else {
      assert b[i - |a|] == (a + b)[i];
    }
  }

  lemma AddedCarries(p: Present, w: With)
    requires Fits(w)
    ensures !p.tryExec ==> Carries(Added(p, w), TRY_EXEC)
    ensures !p.dbus ==> Carries(Added(p, w), DBUS)
    ensures Carries(Added(p, w), MARKER)
  {
    hide SplitKey, Body, TrimStart;
    AddedReads(w);
    var added := Added(p, w);
    assert HasKey(Body(added[|added| - 1]), MARKER);
    if !p.dbus {
      assert HasKey(Body(added[|added| - 2]), DBUS);
    }
    if !p.tryExec {
      assert HasKey(Body(added[0]), TRY_EXEC);
    }
  }

  lemma PushedIsWellSet(lines: seq<string>, w: With)
    requires Fits(w)
    ensures var x := PushAdded(OwnLines(lines, w), Found(lines), w);
            && (forall i :: 0 <= i < |x| ==> WellSet(Body(x[i]), true, w))
            && Carries(x, TRY_EXEC) && Carries(x, DBUS) && Carries(x, MARKER)
  {
    hide WellSet, Body, Rewrite, Header, Added, Fits, EntryOf, OwnLines, Carries, Inked, AddedLine;
    var own, p := OwnLines(lines, w), Found(lines);
    OwnLinesAre(lines, w);
    forall i | 0 <= i < |own|
      ensures WellSet(Body(own[i]), true, w)
    {
      RewriteIsWellSet(EntryOf(lines)[i], true, w);
    }
    AddedLines(p, w);
    forall i | 0 <= i < |Added(p, w)|
      ensures WellSet(Body(Added(p, w)[i]), true, w)
    {
      AddedIsWellSet(Added(p, w)[i], w);
    }
    SawIsThere(Present(false, false), EntryOf(lines));
    AddedCarries(p, w);
    if p.tryExec {
      CarriesCopied(lines, w, TRY_EXEC);
    }
    if p.dbus {
      CarriesCopied(lines, w, DBUS);
    }
    CarriesPushed(own, p, w, TRY_EXEC);
    CarriesPushed(own, p, w, DBUS);
    CarriesPushed(own, p, w, MARKER);
  }

  /**
   The added keys land in the main group itself: read there are the launcher as `TryExec`,
   `DBusActivatable` turned off wherever it stands, the marker, and every name marked.
   */
  lemma MainGroupIsSet(text: string, instance: string, program: string)
    requires Patch(text, instance, Some(program)).Ok? && NoBreaks(instance) && NoBreaks(program)
    ensures var w := WithOf(text, instance, program);
            var group := MainGroup(Bodies(Pieces(Patch(text, instance, Some(program)).value)));
            && (forall i :: 0 <= i < |group| ==> WellSet(group[i], true, w))
            && (exists i :: 0 <= i < |group| && HasKey(group[i], TRY_EXEC))
            && (exists i :: 0 <= i < |group| && HasKey(group[i], DBUS))
            && (exists i :: 0 <= i < |group| && HasKey(group[i], MARKER))
  {
    hide Patch, Body, Bodies, Join, Pieces, Eol, WellSet, HasKey, MainGroup, Out, FirstEntry, PushAdded, OwnLines,
         Found, EntryOf, NoBreaks, HasGroup, EndedLines, EndsIn, Carries, Lines;
    var w := WithOf(text, instance, program);
    var lines := Pieces(text);
    var ended := EndsIn(text, '\n');
    PatchedText(text, instance, program);
    LinesOfPieces(text);
    EolFits(text);
    SourceHasEntry(lines, ended);
    OutReadsBack(lines, w, ended);
    EntryGroupOfOut(lines, w);
    PushedIsWellSet(lines, w);
    var x := PushAdded(OwnLines(lines, w), Found(lines), w);
    CarriedBy(x, TRY_EXEC);
    CarriedBy(x, DBUS);
    CarriedBy(x, MARKER);
    assert forall i :: 0 <= i < |x| ==> Bodies(x)[i] == Body(x[i]);
  }

  lemma CarriedBy(lines: seq<string>, key: string)
    requires Carries(lines, key)
    ensures exists i :: 0 <= i < |Bodies(lines)| && HasKey(Bodies(lines)[i], key)
  {
    hide HasKey, Body, Bodies;
    var i :| 0 <= i < |lines| && HasKey(Body(lines[i]), key);
    assert HasKey(Bodies(lines)[i], key);
  }
}
