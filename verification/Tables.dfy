/**
 The protocol tables: copies of one interface, from many files, merged into the one entry that
 can stand for all of them on the wire.
 */
module Tables {
  import opened Results

  datatype Msg = Msg(name: string, since: nat, isDestructor: bool, args: seq<string>, newId: Option<string>)

  datatype Iface = Iface(version: nat, requests: seq<Msg>, events: seq<Msg>, source: string)

  /** One declaration of an interface in a file. */
  datatype Decl = Decl(name: string, iface: Iface)

  /** A parsed file, its interfaces in the order it declares them. */
  datatype File = File(unstable: bool, copies: seq<Decl>)

  type Table = map<string, Iface>

  predicate Prefix(kept: seq<Msg>, dropped: seq<Msg>) {
    |kept| >= |dropped| && forall i :: 0 <= i < |dropped| ==> kept[i] == dropped[i]
  }

  /** Whether `kept` can stand in for `dropped` on the wire. */
  predicate Supersedes(kept: Iface, dropped: Iface) {
    kept.version >= dropped.version && Prefix(kept.requests, dropped.requests) && Prefix(kept.events, dropped.events)
  }

  /** `check`: two copies of a name agree, the newer one standing for the older. */
  predicate Agree(held: Iface, offered: Iface) {
    if offered.version > held.version then Supersedes(offered, held) else Supersedes(held, offered)
  }

  /** Every opcode the dropped copy defines is the same message in the kept one, and nothing less says so. */
  lemma SupersedesIsByOpcode(kept: Iface, dropped: Iface)
    ensures Supersedes(kept, dropped) <==>
              && kept.version >= dropped.version
              && dropped.requests <= kept.requests && dropped.events <= kept.events
  {
    if Supersedes(kept, dropped) {
      assert kept.requests[..|dropped.requests|] == dropped.requests;
      assert kept.events[..|dropped.events|] == dropped.events;
    }
  }

  lemma SupersedesIsTransitive(a: Iface, b: Iface, c: Iface)
    requires Supersedes(a, b) && Supersedes(b, c)
    ensures Supersedes(a, c)
  {
  }

  // ----- one file -----

  /** A file folded into a map of its own; `None` once two of its copies disagree. */
  function Fold(own: Table, copies: seq<Decl>): Option<Table>
    decreases |copies|
  {
    if copies == [] then Some(own)
    else
      var c := copies[0];
      if c.name !in own then Fold(own[c.name := c.iface], copies[1..])
      else if !Agree(own[c.name], c.iface) then None
      else if c.iface.version > own[c.name].version then Fold(own[c.name := c.iface], copies[1..])
      else Fold(own, copies[1..])
  }

  predicate AllAgree(table: Table, own: Table) {
    forall name :: name in own && name in table ==> Agree(table[name], own[name])
  }

  function Joined(table: Table, own: Table): Table {
    map name | name in table.Keys + own.Keys :: if Newer(table, own, name) then own[name] else table[name]
  }

  predicate Newer(table: Table, own: Table, name: string) {
    name in own && (name !in table || own[name].version > table[name].version)
  }

  datatype Merged = Merged(table: Table, kept: seq<bool>)

  /** Files merged one after another. `None` is a build that fails on a stable file. */
  function Merge(table: Table, files: seq<File>): (r: Option<Merged>)
    ensures r.Some? ==> |r.value.kept| == |files|
    decreases |files|
  {
    if files == [] then Some(Merged(table, []))
    else
      var own := Fold(map[], files[0].copies);
      if own.Some? && AllAgree(table, own.value) then
        var rest :- Merge(Joined(table, own.value), files[1..]);
        Some(Merged(rest.table, [true] + rest.kept))
      else if files[0].unstable then
        var rest :- Merge(table, files[1..]);
        Some(Merged(rest.table, [false] + rest.kept))
      else None
  }

  /** The fold as it runs. It goes on after a conflict, which only remembers that there was one. */
  method FoldFile(copies: seq<Decl>) returns (own: Table, conflict: bool)
    ensures conflict <==> Fold(map[], copies).None?
    ensures !conflict ==> Fold(map[], copies) == Some(own)
  {
    own := map[];
    conflict := false;
    var i := 0;
    assert copies[0..] == copies;
    while i < |copies|
      invariant i <= |copies|
      invariant conflict ==> Fold(map[], copies).None?
      invariant !conflict ==> Fold(map[], copies) == Fold(own, copies[i..])
    {
      assert copies[i..][1..] == copies[i + 1..];
      var c := copies[i];
      if c.name !in own {
        own := own[c.name := c.iface];
      } else if !Agree(own[c.name], c.iface) {
        conflict := true;
      } else if c.iface.version > own[c.name].version {
        own := own[c.name := c.iface];
      }
      i := i + 1;
    }
  }

  /** The names of a file compared with the table's, one by one. */
  method Compare(table: Table, own: Table) returns (agree: bool)
    ensures agree <==> AllAgree(table, own)
  {
    var names := own.Keys;
    agree := true;
    while names != {}
      invariant names <= own.Keys
      invariant agree ==>
                  forall name :: name in own && name in table && name !in names ==> Agree(table[name], own[name])
      invariant !agree ==> !AllAgree(table, own)
      decreases |names|
    {
      var name :| name in names;
      names := names - {name};
      if name in table && !Agree(table[name], own[name]) {
        agree := false;
      }
    }
  }

  lemma InsertOne(table: Table, part: Table, name: string, iface: Iface)
    requires name !in part
    ensures name in Joined(table, part) <==> name in table
    ensures name in table ==> Joined(table, part)[name] == table[name]
    ensures Joined(table, part[name := iface])
         == if name !in table || iface.version > table[name].version then Joined(table, part)[name := iface]
            else Joined(table, part)
  {
    var more := part[name := iface];
    forall n | n in table.Keys + more.Keys
      ensures Newer(table, more, n) <==>
                if n == name then name !in table || iface.version > table[name].version else Newer(table, part, n)
    {
    }
  }

  /** A file's copies put into the table, where they are newer. */
  method Insert(table: Table, own: Table) returns (joined: Table)
    ensures joined == Joined(table, own)
  {
    hide Joined;
    joined := table;
    var names := own.Keys;
    JoinNothing(table);
    assert own - names == map[];
    while names != {}
      invariant names <= own.Keys && joined == Joined(table, own - names)
      decreases |names|
    {
      var name :| name in names;
      InsertOne(table, own - names, name, own[name]);
      assert own - (names - {name}) == (own - names)[name := own[name]];
      names := names - {name};
      if name !in joined || own[name].version > joined[name].version {
        joined := joined[name := own[name]];
      }
    }
    assert own - names == own;
  }

  lemma JoinNothing(table: Table)
    ensures Joined(table, map[]) == table
  {
  }

  lemma MergeNone(table: Table)
    ensures Merge(table, []) == Some(Merged(table, []))
  {
  }

  lemma MergeOne(table: Table, files: seq<File>)
    requires files != []
    ensures var own := Fold(map[], files[0].copies);
            var good := own.Some? && AllAgree(table, own.value);
            var rest := Merge(if good then Joined(table, own.value) else table, files[1..]);
            && (!good && !files[0].unstable ==> Merge(table, files).None?)
            && (good || files[0].unstable ==>
                  && Merge(table, files).Some? == rest.Some?
                  && (rest.Some? ==>
                        && Merge(table, files).value.table == rest.value.table
                        && Merge(table, files).value.kept == [good] + rest.value.kept))
  {
    hide Joined, Fold, AllAgree;
  }

  /** The merge loop of the build. */
  method MergeFiles(files: seq<File>) returns (r: Option<Merged>)
    ensures r == Merge(map[], files)
  {
    hide Joined, Fold, AllAgree, Merge;
    var table: Table := map[];
    var kept: seq<bool> := [];
    var i := 0;
    assert files[0..] == files;
    while i < |files|
      invariant i <= |files| && |kept| == i
      invariant Merge(map[], files).Some? == Merge(table, files[i..]).Some?
      invariant Merge(map[], files).Some? ==>
                  && Merge(map[], files).value.table == Merge(table, files[i..]).value.table
                  && Merge(map[], files).value.kept == kept + Merge(table, files[i..]).value.kept
    {
      assert files[i..][1..] == files[i + 1..];
      MergeOne(table, files[i..]);
      var own, conflict := FoldFile(files[i].copies);
      var agree := Compare(table, own);
      if conflict || !agree {
        if !files[i].unstable {
          return None;
        }
        kept := kept + [false];
      } else {
        table := Insert(table, own);
        kept := kept + [true];
      }
      i := i + 1;
    }
    assert kept + [] == kept && files[i..] == [];
    MergeNone(table);
    r := Some(Merged(table, kept));
  }

  // ----- what the table stands for -----

  /** The copy the table keeps of a name: the first of the newest ones. */
  predicate IsFirstNewest(copies: seq<Decl>, name: string, iface: Iface, at: nat) {
    && at < |copies| && copies[at] == Decl(name, iface)
    && (forall k :: 0 <= k < |copies| && copies[k].name == name ==> copies[k].iface.version <= iface.version)
    && (forall k :: 0 <= k < at && copies[k].name == name ==> copies[k].iface.version < iface.version)
  }

  /** A table that stands for `copies`: each entry one of them, superseding every copy of its name. */
  ghost predicate StandsFor(table: Table, copies: seq<Decl>) {
    && (forall k :: 0 <= k < |copies| ==>
          copies[k].name in table && Supersedes(table[copies[k].name], copies[k].iface))
    && (forall name :: name in table ==> exists at: nat :: IsFirstNewest(copies, name, table[name], at))
  }

  /** The newest copy of a name after more copies, none of them newer. */
  lemma StillFirst(copies: seq<Decl>, more: seq<Decl>, name: string, iface: Iface, at: nat)
    requires IsFirstNewest(copies, name, iface, at)
    requires forall k :: 0 <= k < |more| && more[k].name == name ==> more[k].iface.version <= iface.version
    ensures IsFirstNewest(copies + more, name, iface, at)
  {
    var all := copies + more;
    forall k | 0 <= k < |all| && all[k].name == name
      ensures all[k].iface.version <= iface.version
    {
      if k >= |copies| {
        assert all[k] == more[k - |copies|];
      }
    }
  }

  /** A newer copy after all the others. */
  lemma NowFirst(copies: seq<Decl>, more: seq<Decl>, name: string, iface: Iface, at: nat)
    requires IsFirstNewest(more, name, iface, at)
    requires forall k :: 0 <= k < |copies| && copies[k].name == name ==> copies[k].iface.version < iface.version
    ensures IsFirstNewest(copies + more, name, iface, |copies| + at)
  {
    var all := copies + more;
    forall k | 0 <= k < |all| && all[k].name == name
      ensures all[k].iface.version <= iface.version && (k < |copies| + at ==> all[k].iface.version < iface.version)
    {
      if k >= |copies| {
        assert all[k] == more[k - |copies|];
      }
    }
  }

  /** Two tables that agree, joined, stand for the copies of both. */
  lemma JoinedStands(table: Table, before: seq<Decl>, own: Table, copies: seq<Decl>)
    requires StandsFor(table, before) && StandsFor(own, copies) && AllAgree(table, own)
    ensures StandsFor(Joined(table, own), before + copies)
  {
    var joined, all := Joined(table, own), before + copies;
    forall k | 0 <= k < |all|
      ensures all[k].name in joined && Supersedes(joined[all[k].name], all[k].iface)
    {
      var name := all[k].name;
      var mine := if k < |before| then table[name] else own[name];
      assert Supersedes(mine, all[k].iface) by {
        if k >= |before| {
          assert all[k] == copies[k - |before|];
        }
      }
      assert Supersedes(joined[name], mine);
      SupersedesIsTransitive(joined[name], mine, all[k].iface);
    }
    forall name | name in joined
      ensures exists at: nat :: IsFirstNewest(all, name, joined[name], at)
    {
      JoinedIsNewest(table, before, own, copies, name);
    }
  }

  lemma JoinedIsNewest(table: Table, before: seq<Decl>, own: Table, copies: seq<Decl>, name: string)
    requires StandsFor(table, before) && StandsFor(own, copies) && name in Joined(table, own)
    ensures exists at: nat :: IsFirstNewest(before + copies, name, Joined(table, own)[name], at)
  {
    if Newer(table, own, name) {
      var at: nat :| IsFirstNewest(copies, name, own[name], at);
      forall k | 0 <= k < |before| && before[k].name == name
        ensures before[k].iface.version < own[name].version
      {
        assert Supersedes(table[name], before[k].iface);
      }
      NowFirst(before, copies, name, own[name], at);
    } else {
      var at: nat :| IsFirstNewest(before, name, table[name], at);
      forall k | 0 <= k < |copies| && copies[k].name == name
        ensures copies[k].iface.version <= table[name].version
      {
        assert Supersedes(own[name], copies[k].iface);
      }
      StillFirst(before, copies, name, table[name], at);
    }
  }

  lemma OneDeclStands(c: Decl)
    ensures StandsFor(map[c.name := c.iface], [c])
  {
    assert IsFirstNewest([c], c.name, c.iface, 0);
  }

  /** Adding one copy to a table is joining a table of that copy. */
  lemma FoldIsJoined(own: Table, c: Decl)
    ensures AllAgree(own, map[c.name := c.iface]) <==> c.name !in own || Agree(own[c.name], c.iface)
    ensures Joined(own, map[c.name := c.iface])
         == if c.name !in own || c.iface.version > own[c.name].version then own[c.name := c.iface] else own
  {
    var one := map[c.name := c.iface];
    assert c.name in one;
    assert Joined(own, one).Keys == own.Keys + {c.name};
  }

  lemma {:induction false} FoldStands(own: Table, before: seq<Decl>, copies: seq<Decl>)
    requires StandsFor(own, before) && Fold(own, copies).Some?
    ensures StandsFor(Fold(own, copies).value, before + copies)
    decreases |copies|
  {
    hide StandsFor, Agree, AllAgree, Joined;
    if copies == [] {
      assert before + copies == before;
    } else {
      var c := copies[0];
      var one := map[c.name := c.iface];
      FoldIsJoined(own, c);
      OneDeclStands(c);
      JoinedStands(own, before, one, [c]);
      FoldStands(Joined(own, one), before + [c], copies[1..]);
      assert before + [c] + copies[1..] == before + copies;
    }
  }

  /** The copies of the files that were kept, in order. */
  function KeptCopies(files: seq<File>, kept: seq<bool>): seq<Decl>
    requires |kept| == |files|
    decreases |files|
  {
    if files == [] then []
    else (if kept[0] then files[0].copies else []) + KeptCopies(files[1..], kept[1..])
  }

  lemma NothingStands()
    ensures StandsFor(map[], [])
  {
  }

  lemma {:induction false} MergeStands(table: Table, before: seq<Decl>, files: seq<File>)
    requires StandsFor(table, before) && Merge(table, files).Some?
    ensures var m := Merge(table, files).value;
            StandsFor(m.table, before + KeptCopies(files, m.kept))
    decreases |files|
  {
    hide StandsFor, AllAgree, Joined, Fold;
    if files == [] {
      assert before + [] == before;
    } else {
      var m := Merge(table, files).value;
      var own := Fold(map[], files[0].copies);
      var rest := KeptCopies(files[1..], m.kept[1..]);
      if own.Some? && AllAgree(table, own.value) {
        NothingStands();
        FoldStands(map[], [], files[0].copies);
        assert [] + files[0].copies == files[0].copies;
        JoinedStands(table, before, own.value, files[0].copies);
        MergeStands(Joined(table, own.value), before + files[0].copies, files[1..]);
        assert before + files[0].copies + rest == before + (files[0].copies + rest);
      } else {
        MergeStands(table, before, files[1..]);
        assert [] + rest == rest;
      }
    }
  }

  /** Only an unstable file is ever dropped. */
  lemma {:induction false} StableFilesAreKept(table: Table, files: seq<File>, i: nat)
    requires Merge(table, files).Some? && i < |files| && !files[i].unstable
    ensures Merge(table, files).value.kept[i]
    decreases |files|
  {
    hide AllAgree, Joined, Fold;
    var own := Fold(map[], files[0].copies);
    if i > 0 {
      if own.Some? && AllAgree(table, own.value) {
        StableFilesAreKept(Joined(table, own.value), files[1..], i - 1);
      } else {
        StableFilesAreKept(table, files[1..], i - 1);
      }
    }
  }

  lemma {:induction false} KeptCopiesAre(files: seq<File>, kept: seq<bool>, i: nat, k: nat)
    requires |kept| == |files| && i < |files| && kept[i] && k < |files[i].copies|
    ensures files[i].copies[k] in KeptCopies(files, kept)
    decreases |files|
  {
    if i > 0 {
      KeptCopiesAre(files[1..], kept[1..], i - 1, k);
    }
  }

  lemma {:induction false} KeptCopiesCome(files: seq<File>, kept: seq<bool>, c: Decl)
    requires |kept| == |files| && c in KeptCopies(files, kept)
    ensures exists i :: 0 <= i < |files| && kept[i] && c in files[i].copies
    decreases |files|
  {
    if kept[0] && c in files[0].copies {
    } else {
      KeptCopiesCome(files[1..], kept[1..], c);
      var i :| 0 <= i < |files[1..]| && kept[1..][i] && c in files[1..][i].copies;
      assert kept[i + 1] && c in files[i + 1].copies;
    }
  }

  /**
   After any files: the entry of a name stands for every copy of it in every file kept, message
   by message; it is the first of the newest of them; and no name comes from a dropped file alone.
   */
  lemma TableStandsForKeptCopies(files: seq<File>)
    requires Merge(map[], files).Some?
    ensures var m := Merge(map[], files).value;
            && (forall i, k :: 0 <= i < |files| && m.kept[i] && 0 <= k < |files[i].copies| ==>
                  var c := files[i].copies[k];
                  c.name in m.table && Supersedes(m.table[c.name], c.iface))
            && (forall name :: name in m.table ==>
                  exists at: nat :: IsFirstNewest(KeptCopies(files, m.kept), name, m.table[name], at))
            && (forall name :: name in m.table ==>
                  exists i :: 0 <= i < |files| && m.kept[i] && Decl(name, m.table[name]) in files[i].copies)
  {
    hide Merge, Supersedes, KeptCopies;
    var m := Merge(map[], files).value;
    NothingStands();
    MergeStands(map[], [], files);
    var all := KeptCopies(files, m.kept);
    assert [] + all == all;
    forall i, k | 0 <= i < |files| && m.kept[i] && 0 <= k < |files[i].copies|
      ensures files[i].copies[k].name in m.table
              && Supersedes(m.table[files[i].copies[k].name], files[i].copies[k].iface)
    {
      KeptCopiesAre(files, m.kept, i, k);
      var j :| 0 <= j < |all| && all[j] == files[i].copies[k];
    }
    forall name | name in m.table
      ensures exists i :: 0 <= i < |files| && m.kept[i] && Decl(name, m.table[name]) in files[i].copies
    {
      var at: nat :| IsFirstNewest(all, name, m.table[name], at);
      KeptCopiesCome(files, m.kept, all[at]);
    }
  }

  /** Any two copies of a name in files that are kept agree at every opcode both define. */
  lemma KeptCopiesAgree(files: seq<File>, i: nat, j: nat, a: Decl, b: Decl)
    requires Merge(map[], files).Some? && i < |files| && j < |files|
    requires Merge(map[], files).value.kept[i] && Merge(map[], files).value.kept[j]
    requires a in files[i].copies && b in files[j].copies && a.name == b.name
    ensures a.iface.requests <= b.iface.requests || b.iface.requests <= a.iface.requests
    ensures a.iface.events <= b.iface.events || b.iface.events <= a.iface.events
  {
    hide Merge, Supersedes, KeptCopies;
    TableStandsForKeptCopies(files);
    var entry := Merge(map[], files).value.table[a.name];
    var x :| 0 <= x < |files[i].copies| && files[i].copies[x] == a;
    var y :| 0 <= y < |files[j].copies| && files[j].copies[y] == b;
    SupersedesIsByOpcode(entry, a.iface);
    SupersedesIsByOpcode(entry, b.iface);
    PrefixesOfOne(entry.requests, a.iface.requests, b.iface.requests);
    PrefixesOfOne(entry.events, a.iface.events, b.iface.events);
  }

  lemma PrefixesOfOne(s: seq<Msg>, a: seq<Msg>, b: seq<Msg>)
    requires a <= s && b <= s
    ensures a <= b || b <= a
  {
    assert a == s[..|a|] && b == s[..|b|];
    if |a| <= |b| {
      assert b[..|a|] == a;
    } else {
      assert a[..|b|] == b;
    }
  }
}
