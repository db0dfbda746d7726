/**
 Which files the merge refuses, in versions and prefixes of messages alone: a copy is compared with
 the one held for its name, the first of the newest before it, and with no other.
 */
module Conflicts {
  import opened Results
  import opened Tables

  /** Neither of two copies of a name can stand for the other: the newer, or the earlier, lacks messages. */
  predicate Clash(earlier: Iface, later: Iface) {
    if later.version > earlier.version then !(earlier.requests <= later.requests && earlier.events <= later.events)
    else !(later.requests <= earlier.requests && later.events <= earlier.events)
  }

  /** A copy clashes with the first of the newest copies of its name in `done`. */
  ghost predicate ClashAt(done: seq<Decl>, c: Decl) {
    exists at: nat :: at < |done| && IsFirstNewest(done, c.name, done[at].iface, at) && Clash(done[at].iface, c.iface)
  }

  /** A file clashes with itself, copy by copy, or its newest copy of a name with what was kept before. */
  ghost predicate Clashes(before: seq<Decl>, copies: seq<Decl>) {
    || (exists k: nat :: k < |copies| && ClashAt(copies[..k], copies[k]))
    || (exists j: nat :: j < |copies| && IsFirstNewest(copies, copies[j].name, copies[j].iface, j)
                         && ClashAt(before, copies[j]))
  }

  lemma AgreeIs(held: Iface, offered: Iface)
    ensures Agree(held, offered) <==> !Clash(held, offered)
  {
    SupersedesIsByOpcode(held, offered);
    SupersedesIsByOpcode(offered, held);
  }

  lemma OneFirst(copies: seq<Decl>, name: string, a: Iface, i: nat, b: Iface, j: nat)
    requires IsFirstNewest(copies, name, a, i) && IsFirstNewest(copies, name, b, j)
    ensures i == j && a == b
  {
  }

  /** A table that stands for some copies holds the one a copy is compared with. */
  lemma HeldClash(table: Table, done: seq<Decl>, c: Decl)
    requires StandsFor(table, done)
    ensures ClashAt(done, c) <==> c.name in table && !Agree(table[c.name], c.iface)
  {
    hide Agree, Clash, Supersedes, IsFirstNewest;
    if ClashAt(done, c) {
      var at: nat :| at < |done| && IsFirstNewest(done, c.name, done[at].iface, at) && Clash(done[at].iface, c.iface);
      FirstIsNamed(done, c.name, done[at].iface, at);
      assert done[at].name in table;
      var held: nat :| IsFirstNewest(done, c.name, table[c.name], held);
      OneFirst(done, c.name, done[at].iface, at, table[c.name], held);
      AgreeIs(table[c.name], c.iface);
    }
    if c.name in table && !Agree(table[c.name], c.iface) {
      var held: nat :| IsFirstNewest(done, c.name, table[c.name], held);
      FirstIsNamed(done, c.name, table[c.name], held);
      AgreeIs(table[c.name], c.iface);
    }
  }

  lemma FirstIsNamed(copies: seq<Decl>, name: string, iface: Iface, at: nat)
    requires IsFirstNewest(copies, name, iface, at)
    ensures at < |copies| && copies[at] == Decl(name, iface)
  {
  }

  /** The fold of a file fails just when some copy in it clashes with the one held before it. */
  lemma {:induction false} FoldClash(own: Table, done: seq<Decl>, copies: seq<Decl>)
    requires StandsFor(own, done)
    ensures Fold(own, copies).None? <==> exists k: nat :: k < |copies| && ClashAt(done + copies[..k], copies[k])
    decreases |copies|
  {
    hide StandsFor, Agree, AllAgree, Joined, ClashAt;
    if copies != [] {
      var c := copies[0];
      var one := map[c.name := c.iface];
      assert done + copies[..0] == done;
      HeldClash(own, done, c);
      if !ClashAt(done, c) {
        FoldIsJoined(own, c);
        OneDeclStands(c);
        JoinedStands(own, done, one, [c]);
        var rest := copies[1..];
        FoldClash(Joined(own, one), done + [c], rest);
        forall k: nat | k < |rest|
          ensures ClashAt(done + [c] + rest[..k], rest[k]) == ClashAt(done + copies[..k + 1], copies[k + 1])
        {
          assert done + [c] + rest[..k] == done + copies[..k + 1];
        }
        if k: nat :| k < |copies| && ClashAt(done + copies[..k], copies[k]) {
          assert ClashAt(done + [c] + rest[..k - 1], rest[k - 1]);
        }
        if k: nat :| k < |rest| && ClashAt(done + [c] + rest[..k], rest[k]) {
          assert ClashAt(done + copies[..k + 1], copies[k + 1]);
        }
      }
    }
  }

  /** A file's own map agrees with the table unless a newest copy of the file clashes with what is held. */
  lemma OwnClash(table: Table, before: seq<Decl>, own: Table, copies: seq<Decl>)
    requires StandsFor(table, before) && StandsFor(own, copies)
    ensures !AllAgree(table, own) <==>
              exists j: nat :: j < |copies| && IsFirstNewest(copies, copies[j].name, copies[j].iface, j)
                               && ClashAt(before, copies[j])
  {
    hide Agree, Supersedes, ClashAt, IsFirstNewest;
    if !AllAgree(table, own) {
      var name :| name in own && name in table && !Agree(table[name], own[name]);
      var j: nat :| IsFirstNewest(copies, name, own[name], j);
      FirstIsNamed(copies, name, own[name], j);
      HeldClash(table, before, copies[j]);
    }
    if j: nat :|
      j < |copies| && IsFirstNewest(copies, copies[j].name, copies[j].iface, j) && ClashAt(before, copies[j]) {
      HeldClash(table, before, copies[j]);
      var name := copies[j].name;
      assert name in own;
      var held: nat :| IsFirstNewest(copies, name, own[name], held);
      OneFirst(copies, name, copies[j].iface, j, own[name], held);
    }
  }

  /** One file is refused just when it clashes. */
  lemma RefusedClashes(table: Table, before: seq<Decl>, file: File)
    requires StandsFor(table, before)
    ensures var own := Fold(map[], file.copies);
            own.Some? && AllAgree(table, own.value) <==> !Clashes(before, file.copies)
  {
    hide StandsFor, AllAgree, Fold, ClashAt, IsFirstNewest;
    NothingStands();
    FoldClash(map[], [], file.copies);
    forall k: nat | k < |file.copies|
      ensures [] + file.copies[..k] == file.copies[..k]
    {
    }
    var own := Fold(map[], file.copies);
    if own.Some? {
      FoldStands(map[], [], file.copies);
      assert [] + file.copies == file.copies;
      OwnClash(table, before, own.value, file.copies);
    }
  }

  /** The copies of the files among the first `i` that do not clash with those kept before them. */
  ghost function KeptBefore(files: seq<File>, i: nat): seq<Decl>
    requires i <= |files|
  {
    if i == 0 then []
    else
      var before := KeptBefore(files, i - 1);
      before + if Clashes(before, files[i - 1].copies) then [] else files[i - 1].copies
  }

  ghost predicate Refused(files: seq<File>, i: nat)
    requires i < |files|
  {
    Clashes(KeptBefore(files, i), files[i].copies)
  }

  /** From the `i`-th file on. */
  lemma {:induction false} MergeFrom(files: seq<File>, i: nat, table: Table)
    requires i <= |files| && StandsFor(table, KeptBefore(files, i))
    ensures Merge(table, files[i..]).None? <==>
              exists j: nat :: i <= j < |files| && !files[j].unstable && Refused(files, j)
    ensures Merge(table, files[i..]).Some? ==>
              forall j: nat :: i <= j < |files| ==> Merge(table, files[i..]).value.kept[j - i] == !Refused(files, j)
    decreases |files| - i
  {
    hide StandsFor, AllAgree, Fold, Clashes, Joined, Merge;
    if i == |files| {
      MergeNone(table);
      assert files[i..] == [];
    } else {
      var file, before := files[i], KeptBefore(files, i);
      assert files[i..][0] == file && files[i..][1..] == files[i + 1..];
      MergeOne(table, files[i..]);
      RefusedClashes(table, before, file);
      if !Refused(files, i) {
        var own := Fold(map[], file.copies).value;
        NothingStands();
        FoldStands(map[], [], file.copies);
        assert [] + file.copies == file.copies;
        JoinedStands(table, before, own, file.copies);
        MergeFrom(files, i + 1, Joined(table, own));
      } else if file.unstable {
        assert before + [] == before;
        MergeFrom(files, i + 1, table);
      }
    }
  }

  /**
   A build fails just when some stable file clashes with itself or with what was kept before it; and
   if it does not, the files dropped are just the unstable ones that clash.
   */
  lemma MergeIsExact(files: seq<File>)
    ensures Merge(map[], files).None? <==> exists i: nat :: i < |files| && !files[i].unstable && Refused(files, i)
    ensures Merge(map[], files).Some? ==>
              forall i: nat :: i < |files| ==> Merge(map[], files).value.kept[i] == !Refused(files, i)
  {
    hide StandsFor, Clashes, Merge, Refused;
    NothingStands();
    assert files[0..] == files;
    MergeFrom(files, 0, map[]);
  }

  /** A refusal always rests on two copies of one name that clash. */
  lemma RefusedPair(before: seq<Decl>, copies: seq<Decl>)
    requires Clashes(before, copies)
    ensures exists a: Decl, b: Decl ::
              && b in copies && (a in copies || a in before) && a.name == b.name && Clash(a.iface, b.iface)
  {
    hide Clash, ClashAt;
    if k: nat :| k < |copies| && ClashAt(copies[..k], copies[k]) {
      var a := HeldOf(copies[..k], copies[k]);
      assert a in copies;
    } else {
      var j: nat :|
        j < |copies| && IsFirstNewest(copies, copies[j].name, copies[j].iface, j) && ClashAt(before, copies[j]);
      var a := HeldOf(before, copies[j]);
    }
  }

  lemma HeldOf(done: seq<Decl>, c: Decl) returns (a: Decl)
    requires ClashAt(done, c)
    ensures a in done && a.name == c.name && Clash(a.iface, c.iface)
  {
    hide Clash, IsFirstNewest;
    var at: nat :| at < |done| && IsFirstNewest(done, c.name, done[at].iface, at) && Clash(done[at].iface, c.iface);
    FirstIsNamed(done, c.name, done[at].iface, at);
    a := done[at];
  }

  // ----- two copies that clash and are both kept -----

  function PlainMsg(name: string): Msg {
    Msg(name, 1, false, [], None)
  }

  const OLD: Decl := Decl("wl_shm", Iface(1, [PlainMsg("a"), PlainMsg("b")], [], "old.xml"))
  const NEW: Decl := Decl("wl_shm", Iface(3, [PlainMsg("a"), PlainMsg("b"), PlainMsg("c")], [], "new.xml"))
  const ODD: Decl := Decl("wl_shm", Iface(2, [PlainMsg("a")], [], "odd.xml"))

  lemma OneFile(table: Table, d: Decl, rest: seq<File>)
    ensures var taken := d.name !in table || !Clash(table[d.name], d.iface);
            var newer := d.name !in table || d.iface.version > table[d.name].version;
            var next := if newer then table[d.name := d.iface] else table;
            Merge(table, [File(false, [d])] + rest).Some? <==> taken && Merge(next, rest).Some?
  {
    hide Clash, Agree, AllAgree, Joined, Merge;
    var one := map[d.name := d.iface];
    assert [d][1..] == [];
    assert Fold(one, []) == Some(one);
    assert Fold(map[], [d]) == Some(one);
    FoldIsJoined(table, d);
    if d.name in table {
      AgreeIs(table[d.name], d.iface);
    }
    var files := [File(false, [d])] + rest;
    assert files[1..] == rest;
    MergeOne(table, files);
  }

  lemma ClashesHere()
    ensures Clash(OLD.iface, ODD.iface) && !Clash(OLD.iface, NEW.iface) && !Clash(NEW.iface, ODD.iface)
  {
    assert OLD.iface.requests == NEW.iface.requests[..2] && ODD.iface.requests == NEW.iface.requests[..1];
    assert |OLD.iface.requests| > |ODD.iface.requests|;
  }

  /**
   The converse fails: version 2 lacks a message that version 1 has, and both are kept where
   version 3 comes in between; without it in between the build fails.
   */
  lemma NotEveryPairIsSeen()
    ensures Clash(OLD.iface, ODD.iface)
    ensures Merge(map[], [File(false, [OLD]), File(false, [NEW]), File(false, [ODD])]).Some?
    ensures Merge(map[], [File(false, [OLD]), File(false, [ODD]), File(false, [NEW])]).None?
  {
    hide Clash, Merge;
    ClashesHere();
    var a, b, c := File(false, [OLD]), File(false, [NEW]), File(false, [ODD]);
    var held: Table := map[OLD.name := OLD.iface];
    var newer: Table := held[NEW.name := NEW.iface];
    assert [a, b, c] == [a] + ([b] + ([c] + []));
    assert [a, c, b] == [a] + ([c] + ([b] + []));
    OneFile(map[], OLD, [b] + ([c] + []));
    OneFile(held, NEW, [c] + []);
    OneFile(newer, ODD, []);
    MergeNone(newer);
    OneFile(map[], OLD, [c] + ([b] + []));
    OneFile(held, ODD, [b] + []);
  }
}
