/**
 What the patched entry is, group by group, and what follows: it knows its instance, it keeps
 every line, its commands all start through the launcher, and its added keys are in place.
 */
module DesktopPatch {
  import opened Results
  import opened Desktop
  import opened DesktopText

  // ----- the copy, one group at a time -----

  function CloseGroup(cur: seq<string>, entry: bool, p: Present, w: With): seq<string> {
    if entry then PushAdded(cur, p, w) else cur
  }

  /** What is still to come out: `cur` is the group so far, `lines` the rest of the text. */
  function Rest(cur: seq<string>, entry: bool, p: Present, lines: seq<string>, w: With): seq<string>
    decreases |lines|
  {
    if lines == [] then CloseGroup(cur, entry, p, w)
    else
      var line := lines[0];
      var name := Header(Body(line));
      if name.Some? then CloseGroup(cur, entry, p, w) + [line] + Rest([], name == Some(ENTRY), p, lines[1..], w)
      else Rest(cur + [Rewrite(line, entry, w)], entry, Saw(p, line, entry), lines[1..], w)
  }

  lemma HeaderIsInk(line: string)
    requires Header(Body(line)).Some?
    ensures !Blank(line)
  {
    assert line[0] == '[';
  }

  lemma InkedIs(out: seq<string>, k: nat)
    requires k <= |out| && (k > 0 ==> !Blank(out[k - 1])) && forall i :: k <= i < |out| ==> Blank(out[i])
    ensures Inked(out) == k
  {
    hide Blank;
  }

  lemma PushedAfter(done: seq<string>, cur: seq<string>, p: Present, w: With)
    requires done != [] && !Blank(done[|done| - 1])
    ensures PushAdded(done + cur, p, w) == done + PushAdded(cur, p, w)
  {
    hide Blank, Inked, Added;
    InkedIs(done + cur, |done| + Inked(cur));
    var at := Inked(cur);
    assert (done + cur)[..|done| + at] == done + cur[..at];
    assert (done + cur)[|done| + at..] == cur[at..];
  }

  /** The copy with its one growing list is the copy group by group. */
  lemma {:induction false} CopyIsRest(
    done: seq<string>, cur: seq<string>, group: Option<string>, p: Present, lines: seq<string>, w: With)
    requires group == Some(ENTRY) ==> done != [] && !Blank(done[|done| - 1])
    ensures Close(CopyAll(Copy(done + cur, group, p), lines, w), w)
         == done + Rest(cur, group == Some(ENTRY), p, lines, w)
    decreases |lines|
  {
    hide Header, Body, Rewrite, Saw, PushAdded, Blank;
    var entry := group == Some(ENTRY);
    assert Close(Copy(done + cur, group, p), w) == done + CloseGroup(cur, entry, p, w) by {
      if entry {
        PushedAfter(done, cur, p, w);
      }
    }
    if lines != [] {
      var line := lines[0];
      var name := Header(Body(line));
      var next := CopyLine(Copy(done + cur, group, p), line, w);
      if name.Some? {
        HeaderIsInk(line);
        var more := done + CloseGroup(cur, entry, p, w) + [line];
        assert next.out == more + [];
        CopyIsRest(more, [], name, p, lines[1..], w);
        assert more + Rest([], name == Some(ENTRY), p, lines[1..], w)
            == done + (CloseGroup(cur, entry, p, w) + [line] + Rest([], name == Some(ENTRY), p, lines[1..], w));
      } else {
        var r := Rewrite(line, entry, w);
        assert done + cur + [r] == done + (cur + [r]);
        CopyIsRest(done, cur + [r], group, Saw(p, line, entry), lines[1..], w);
      }
    }
  }

  function Out(lines: seq<string>, w: With): seq<string> {
    Rest([], false, Present(false, false), lines, w)
  }

  lemma OutIsCopied(lines: seq<string>, w: With)
    ensures Close(CopyAll(START, lines, w), w) == Out(lines, w)
  {
    hide CopyAll, Rest;
    var none: seq<string> := [];
    assert none + none == none;
    CopyIsRest(none, none, None, Present(false, false), lines, w);
    assert [] + Out(lines, w) == Out(lines, w);
  }

  // ----- nothing is lost -----

  /** Each line as it is copied, in its own group. */
  function Copied(lines: seq<string>, entry: bool, w: With): (r: seq<string>)
    ensures |r| == |lines|
    decreases |lines|
  {
    if lines == [] then []
    else
      var name := Header(Body(lines[0]));
      if name.Some? then [lines[0]] + Copied(lines[1..], name == Some(ENTRY), w)
      else [Rewrite(lines[0], entry, w)] + Copied(lines[1..], entry, w)
  }

  /** The lines added, at the end of each main group. */
  function Extras(lines: seq<string>, entry: bool, p: Present, w: With): seq<string>
    decreases |lines|
  {
    if lines == [] then (if entry then Added(p, w) else [])
    else
      var name := Header(Body(lines[0]));
      if name.Some? then (if entry then Added(p, w) else []) + Extras(lines[1..], name == Some(ENTRY), p, w)
      else Extras(lines[1..], entry, Saw(p, lines[0], entry), w)
  }

  /** `out` is `a` and `b` merged, each in its own order, and nothing else. */
  predicate Shuffled(a: seq<string>, b: seq<string>, out: seq<string>)
    decreases |out|
  {
    if out == [] then a == [] && b == []
    else
      || (a != [] && a[0] == out[0] && Shuffled(a[1..], b, out[1..]))
      || (b != [] && b[0] == out[0] && Shuffled(a, b[1..], out[1..]))
  }

  lemma {:induction false} ShuffledLeft(a: seq<string>)
    ensures Shuffled(a, [], a)
  {
    if a != [] {
      ShuffledLeft(a[1..]);
    }
  }

  lemma {:induction false} ShuffledRight(b: seq<string>)
    ensures Shuffled([], b, b)
  {
    if b != [] {
      ShuffledRight(b[1..]);
    }
  }

  lemma {:induction false} ShuffledConcat(
    a: seq<string>, b: seq<string>, o: seq<string>, c: seq<string>, d: seq<string>, q: seq<string>)
    requires Shuffled(a, b, o) && Shuffled(c, d, q)
    ensures Shuffled(a + c, b + d, o + q)
    decreases |o|
  {
    if o == [] {
      assert a + c == c && b + d == d && o + q == q;
    } else if a != [] && a[0] == o[0] && Shuffled(a[1..], b, o[1..]) {
      ShuffledConcat(a[1..], b, o[1..], c, d, q);
      assert (a + c)[1..] == a[1..] + c && (o + q)[1..] == o[1..] + q;
    } else {
      ShuffledConcat(a, b[1..], o[1..], c, d, q);
      assert (b + d)[1..] == b[1..] + d && (o + q)[1..] == o[1..] + q;
    }
  }

  lemma PushedIsShuffled(cur: seq<string>, p: Present, w: With)
    ensures Shuffled(cur, Added(p, w), PushAdded(cur, p, w))
  {
    hide Inked, Added, Shuffled;
    var at := Inked(cur);
    ShuffledLeft(cur[..at]);
    ShuffledRight(Added(p, w));
    ShuffledLeft(cur[at..]);
    ShuffledConcat(cur[..at], [], cur[..at], [], Added(p, w), Added(p, w));
    ShuffledConcat(cur[..at] + [], [] + Added(p, w), cur[..at] + Added(p, w), cur[at..], [], cur[at..]);
    assert cur[..at] + [] + cur[at..] == cur;
    assert [] + Added(p, w) + [] == Added(p, w);
  }

  lemma {:induction false} RestIsShuffled(cur: seq<string>, entry: bool, p: Present, lines: seq<string>, w: With)
    ensures Shuffled(cur + Copied(lines, entry, w), Extras(lines, entry, p, w), Rest(cur, entry, p, lines, w))
    decreases |lines|
  {
    hide Header, Body, Rewrite, Saw, PushAdded, Added, Shuffled;
    var closing := if entry then Added(p, w) else [];
    assert Shuffled(cur, closing, CloseGroup(cur, entry, p, w)) by {
      PushedIsShuffled(cur, p, w);
      ShuffledLeft(cur);
    }
    if lines == [] {
      assert cur + [] == cur;
    } else {
      var line := lines[0];
      var name := Header(Body(line));
      if name.Some? {
        var main := name == Some(ENTRY);
        RestIsShuffled([], main, p, lines[1..], w);
        ShuffledLeft([line]);
        ShuffledConcat(cur, closing, CloseGroup(cur, entry, p, w), [line], [], [line]);
        ShuffledConcat(cur + [line], closing + [], CloseGroup(cur, entry, p, w) + [line],
                       [] + Copied(lines[1..], main, w), Extras(lines[1..], main, p, w),
                       Rest([], main, p, lines[1..], w));
        assert cur + [line] + ([] + Copied(lines[1..], main, w)) == cur + Copied(lines, entry, w);
        assert closing + [] + Extras(lines[1..], main, p, w) == Extras(lines, entry, p, w);
      } else {
        var r := Rewrite(line, entry, w);
        RestIsShuffled(cur + [r], entry, Saw(p, line, entry), lines[1..], w);
        assert cur + [r] + Copied(lines[1..], entry, w) == cur + Copied(lines, entry, w);
      }
    }
  }

  predicate HeadsAny(line: string) {
    Header(Body(line)).Some?
  }

  /** The last group headed at or before line `i` is a main group; `entry` where none is. */
  ghost predicate InMain(lines: seq<string>, entry: bool, i: nat)
    requires i < |lines|
  {
    || (entry && forall j :: 0 <= j <= i ==> !HeadsAny(lines[j]))
    || (exists h :: 0 <= h <= i && Header(Body(lines[h])) == Some(ENTRY)
                    && forall j :: h < j <= i ==> !HeadsAny(lines[j]))
  }

  /**
   What becomes of a line. Headers and lines that are no key stay, and so does every key but
   four: names are marked, the program to try is the launcher and activation is off, all
   three in a main group alone, and a command goes through the launcher in every group.
   */
  predicate CopiedAs(line: string, r: string, main: bool, w: With) {
    && (HeadsAny(line) || SplitKey(Body(line)).None? ==> r == line)
    && (!HeadsAny(line) && SplitKey(Body(line)).Some? ==>
          var kv := SplitKey(Body(line)).value;
          && (main && BaseKey(kv.key) == NAME ==> r == kv.key + "=" + kv.value + SUFFIX + Cr(line))
          && (kv.key == EXEC ==> r == kv.key + "=" + Launch(w) + kv.value + Cr(line))
          && (main && kv.key == TRY_EXEC ==> r == kv.key + "=" + w.program + Cr(line))
          && (main && kv.key == DBUS ==> r == kv.key + "=false" + Cr(line))
          && (kv.key != EXEC && !(main && OwnedKey(kv.key)) ==> r == line))
  }

  lemma ExecIsPlain()
    ensures BaseKey(EXEC) != NAME && BaseKey(TRY_EXEC) != NAME && BaseKey(DBUS) != NAME
  {
    assert EXEC[0] == 'E' && TRY_EXEC[0] == 'T' && DBUS[0] == 'D' && NAME[0] == 'N' && |NAME| == 4;
    assert EXEC[0] != '[' && TRY_EXEC[0] != '[' && DBUS[0] != '[';
  }

  lemma RewriteIsCopiedAs(line: string, entry: bool, w: With)
    requires !HeadsAny(line)
    ensures CopiedAs(line, Rewrite(line, entry, w), entry, w)
  {
    hide SplitKey, BaseKey, Body, Cr, Launch, HeadsAny;
    KeysDiffer();
    ExecIsPlain();
  }

  /** One line more in front of a group. */
  lemma InMainLater(lines: seq<string>, entry: bool, i: nat)
    requires 0 < i < |lines|
    ensures var next := if HeadsAny(lines[0]) then Header(Body(lines[0])) == Some(ENTRY) else entry;
            InMain(lines, entry, i) <==> InMain(lines[1..], next, i - 1)
  {
    hide Header, Body;
    var rest := lines[1..];
    var next := if HeadsAny(lines[0]) then Header(Body(lines[0])) == Some(ENTRY) else entry;
    assert forall j :: 0 <= j <= i - 1 ==> rest[j] == lines[j + 1];
    assert forall j :: 1 <= j <= i ==> lines[j] == rest[j - 1];
    if InMain(rest, next, i - 1) && !InMain(rest, false, i - 1) {
      assert next && forall j :: 1 <= j <= i ==> !HeadsAny(lines[j]);
    } else if InMain(rest, next, i - 1) {
      var h :| 0 <= h <= i - 1 && Header(Body(rest[h])) == Some(ENTRY)
               && forall j :: h < j <= i - 1 ==> !HeadsAny(rest[j]);
      assert Header(Body(lines[h + 1])) == Some(ENTRY);
    }
    if InMain(lines, false, i) {
      var h :| 0 <= h <= i && Header(Body(lines[h])) == Some(ENTRY) && forall j :: h < j <= i ==> !HeadsAny(lines[j]);
      assert h > 0 ==> Header(Body(rest[h - 1])) == Some(ENTRY);
    }
  }

  lemma {:induction false} CopiedKeeps(lines: seq<string>, entry: bool, w: With, i: nat)
    requires i < |lines|
    ensures CopiedAs(lines[i], Copied(lines, entry, w)[i], InMain(lines, entry, i), w)
    decreases |lines|
  {
    hide Header, Body, Rewrite, CopiedAs, InMain;
    if i == 0 {
      FirstCopied(lines, entry, w);
    } else {
      InMainLater(lines, entry, i);
      var next := if HeadsAny(lines[0]) then Header(Body(lines[0])) == Some(ENTRY) else entry;
      CopiedKeeps(lines[1..], next, w, i - 1);
    }
  }

  lemma FirstCopied(lines: seq<string>, entry: bool, w: With)
    requires lines != []
    ensures CopiedAs(lines[0], Copied(lines, entry, w)[0], InMain(lines, entry, 0), w)
  {
    hide Body, Rewrite, SplitKey, BaseKey, Launch, Cr;
    if !HeadsAny(lines[0]) {
      RewriteIsCopiedAs(lines[0], entry, w);
    }
  }

  predicate AddedLine(line: string, w: With) {
    || line == TRY_EXEC + "=" + w.program + w.eol
    || line == DBUS + "=false" + w.eol
    || line == MARKER + "=" + w.instance + w.eol
  }

  lemma AddedLines(p: Present, w: With)
    ensures forall i :: 0 <= i < |Added(p, w)| ==> AddedLine(Added(p, w)[i], w)
  {
  }

  lemma {:induction false} ExtrasAreAdded(lines: seq<string>, entry: bool, p: Present, w: With)
    ensures forall i :: 0 <= i < |Extras(lines, entry, p, w)| ==> AddedLine(Extras(lines, entry, p, w)[i], w)
    decreases |lines|
  {
    hide Header, Body, Saw, Added, AddedLine;
    AddedLines(p, w);
    if lines != [] {
      var name := Header(Body(lines[0]));
      if name.Some? {
        ExtrasAreAdded(lines[1..], name == Some(ENTRY), p, w);
      } else {
        ExtrasAreAdded(lines[1..], entry, Saw(p, lines[0], entry), w);
      }
    }
  }

  /** What a text was patched with. */
  function WithOf(text: string, instance: string, program: string): With {
    With(instance, program, Eol(text))
  }

  lemma PatchedText(text: string, instance: string, program: string)
    requires Patch(text, instance, Some(program)).Ok?
    ensures text != "" && Owner(text).None? && HasGroup(Lines(text), ENTRY)
    ensures var out := Out(Pieces(text), WithOf(text, instance, program));
            Patch(text, instance, Some(program)).value == Join(out) + if EndsIn(text, '\n') then "\n" else ""
  {
    hide ReadHead, GroupLines, Join, Rest, CopyAll, Close, Header, Pieces, EndsIn, Eol;
    OutIsCopied(Pieces(text), WithOf(text, instance, program));
    if text == "" {
      NoLines();
    }
  }

  lemma NoLines()
    ensures Lines("") == []
  {
  }

  lemma OutIsText(lines: seq<string>, w: With)
    requires AllNoLf(lines) && Fits(w)
    ensures AllNoLf(Out(lines, w))
  {
    hide Header, Body, Rewrite, Saw, PushAdded, Added, Shuffled, Rest, NoLf;
    RestIsShuffled([], false, Present(false, false), lines, w);
    CopiedIsText(lines, false, w);
    ExtrasAreText(lines, false, Present(false, false), w);
    assert [] + Copied(lines, false, w) == Copied(lines, false, w);
    ShuffledText(Copied(lines, false, w), Extras(lines, false, Present(false, false), w), Out(lines, w));
  }

  lemma {:induction false} ShuffledText(a: seq<string>, b: seq<string>, out: seq<string>)
    requires Shuffled(a, b, out) && AllNoLf(a) && AllNoLf(b)
    ensures AllNoLf(out)
    decreases |out|
  {
    hide NoLf;
    if out != [] {
      if a != [] && a[0] == out[0] && Shuffled(a[1..], b, out[1..]) {
        ShuffledText(a[1..], b, out[1..]);
      } else {
        ShuffledText(a, b[1..], out[1..]);
      }
      assert out == [out[0]] + out[1..];
    }
  }

  lemma {:induction false} CopiedIsText(lines: seq<string>, entry: bool, w: With)
    requires AllNoLf(lines) && Fits(w)
    ensures AllNoLf(Copied(lines, entry, w))
    decreases |lines|
  {
    hide Header, Body, Rewrite, SplitKey, NoLf, Fits;
    if lines != [] {
      var name := Header(Body(lines[0]));
      RewriteKeeps(lines[0], entry, w);
      CopiedIsText(lines[1..], if name.Some? then name == Some(ENTRY) else entry, w);
    }
  }

  lemma AddedIsText(p: Present, w: With)
    requires Fits(w)
    ensures AllNoLf(Added(p, w))
  {
    hide Rewrite;
    assert NoBreaks(TRY_EXEC) && NoBreaks(DBUS) && NoBreaks("=false") && NoBreaks(MARKER);
  }

  lemma {:induction false} ExtrasAreText(lines: seq<string>, entry: bool, p: Present, w: With)
    requires Fits(w)
    ensures AllNoLf(Extras(lines, entry, p, w))
    decreases |lines|
  {
    hide Header, Body, Saw, Added, NoLf, Fits;
    AddedIsText(p, w);
    if lines != [] {
      var name := Header(Body(lines[0]));
      if name.Some? {
        ExtrasAreText(lines[1..], name == Some(ENTRY), p, w);
      } else {
        ExtrasAreText(lines[1..], entry, Saw(p, lines[0], entry), w);
      }
    }
  }

  /**
   A patched text is the source's own lines in their order with the added lines merged in:
   each line is what its own group makes of it, kept byte for byte outside the owned keys,
   and nothing else is put in.
   */
  lemma NothingIsLost(text: string, instance: string, program: string)
    requires Patch(text, instance, Some(program)).Ok?
    requires NoBreaks(instance) && NoBreaks(program)
    ensures var w := WithOf(text, instance, program);
            var lines, out := Pieces(text), Pieces(Patch(text, instance, Some(program)).value);
            exists copied, added ::
              && Shuffled(copied, added, out)
              && |copied| == |lines|
              && (forall i :: 0 <= i < |lines| ==> CopiedAs(lines[i], copied[i], InMain(lines, false, i), w))
              && (forall i :: 0 <= i < |added| ==> AddedLine(added[i], w))
  {
    hide Patch, Header, Body, Rewrite, CopiedAs, InMain, Rest, Join, AddedLine, Shuffled, Pieces, Copied, Extras,
         Eol, Lines, EndedLines, HasGroup, Owner, EndsIn, NoLf;
    var w := WithOf(text, instance, program);
    var lines := Pieces(text);
    PatchedText(text, instance, program);
    LinesOfPieces(text);
    EolFits(text);
    OutReadsBack(lines, w, EndsIn(text, '\n'));
    RestIsShuffled([], false, Present(false, false), lines, w);
    var copied, added := Copied(lines, false, w), Extras(lines, false, Present(false, false), w);
    forall i | 0 <= i < |lines|
      ensures CopiedAs(lines[i], copied[i], InMain(lines, false, i), w)
    {
      CopiedKeeps(lines, false, w, i);
    }
    ExtrasAreAdded(lines, false, Present(false, false), w);
    assert [] + copied == copied;
    assert Shuffled(copied, added, Out(lines, w));
  }

  lemma EolFits(text: string)
    ensures Eol(text) == "" || Eol(text) == "\r"
  {
  }

  lemma OutReadsBack(lines: seq<string>, w: With, ended: bool)
    requires lines != [] && AllNoLf(lines) && Fits(w) && (!ended ==> lines[|lines| - 1] != "")
    ensures var text := Join(Out(lines, w)) + if ended then "\n" else "";
            && Out(lines, w) != []
            && Pieces(text) == Out(lines, w)
            && Lines(text) == EndedLines(Out(lines, w), ended)
            && (EndsIn(text, '\n') <==> ended)
  {
    hide Join, Lines, Pieces, Rest, EndsIn;
    OutIsText(lines, w);
    LastIsNotEmpty([], false, Present(false, false), lines, w);
    WrittenLines(Out(lines, w), ended);
  }

  /** The copy ends in a line that is not empty if the text does. */
  lemma {:induction false} LastIsNotEmpty(cur: seq<string>, entry: bool, p: Present, lines: seq<string>, w: With)
    requires Fits(w) && (lines != [] || cur != [])
    ensures var out := Rest(cur, entry, p, lines, w);
            && out != []
            && ((if lines == [] then cur[|cur| - 1] else lines[|lines| - 1]) != "" ==> out[|out| - 1] != "")
    decreases |lines|
  {
    hide Header, Body, Rewrite, Saw, Inked, Fits;
    if lines == [] {
      MarkerIsLast(p, w);
    } else {
      var line := lines[0];
      var name := Header(Body(line));
      if name.Some? {
        if lines[1..] != [] {
          LastIsNotEmpty([], name == Some(ENTRY), p, lines[1..], w);
        } else {
          OneHeader(line, name == Some(ENTRY), p, w);
        }
      } else {
        RewriteKeeps(line, entry, w);
        LastIsNotEmpty(cur + [Rewrite(line, entry, w)], entry, Saw(p, line, entry), lines[1..], w);
      }
    }
  }

  lemma OneHeader(line: string, entry: bool, p: Present, w: With)
    ensures var out := [line] + Rest([], entry, p, [], w);
            out[|out| - 1] != "" || line == ""
  {
    MarkerIsLast(p, w);
    assert PushAdded([], p, w) == Added(p, w);
  }

  lemma MarkerIsLast(p: Present, w: With)
    ensures Added(p, w) != [] && Added(p, w)[|Added(p, w)| - 1] == MARKER + "=" + w.instance + w.eol
    ensures Added(p, w)[|Added(p, w)| - 1] != ""
  {
  }
}
