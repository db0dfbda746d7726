/**
 Entries a configuration keeps turned off: where each sits among the granted entries of its
 own section, through the reading of a file, the sort by section and the writing back.
 */
module Placement {
  import opened Results

  /** Sections are numbered in the order a file writes them; nothing singles out 8, the desktop section. */
  const SECTIONS: nat := 10
  const LINT_ALLOW: nat := 0
  const SERVICE: nat := 1
  const ENV: nat := 2
  const ETC: nat := 3
  const TMP: nat := 4
  const TTY: nat := 5
  const USERNS: nat := 6
  const SECCOMP: nat := 7
  const COMMAND: nat := 9

  /** One granted thing; two with one key are the same grant. `body` 0 is a mode's default. */
  datatype Grant = Grant(key: nat, body: nat)

  /** A parsed node of section `rank` with everything it grants. */
  datatype Node = Node(rank: nat, grants: seq<Grant>)

  /** A `/-` entry, and the index of its section's enabled entries it sits before. */
  datatype Disabled = Disabled(node: Node, before: nat)

  /** The lines of a file: nodes, and nodes turned off. */
  datatype Line = On(node: Node) | Off(node: Node)

  /** Sections that hold any number of entries. */
  predicate Many(rank: nat) {
    rank == LINT_ALLOW || rank == SERVICE || rank == ENV
  }

  /** Sections with a mode, which is written only where it is not the default. */
  predicate HasMode(rank: nat) {
    rank == ETC || rank == TTY || rank == USERNS || rank == SECCOMP
  }

  predicate ValidNode(n: Node) {
    n.rank < SECTIONS && (!Many(n.rank) ==> |n.grants| == 1)
  }

  predicate ValidLines(lines: seq<Line>) {
    forall i :: 0 <= i < |lines| ==> ValidNode(lines[i].node)
  }

  /** What has been read so far: the entries held by each section, the modes set, the entries off. */
  datatype Draft = Draft(held: seq<seq<Grant>>, seen: set<nat>, disabled: seq<Disabled>)

  predicate Shaped(d: Draft) {
    && |d.held| == SECTIONS
    && forall r :: 0 <= r < SECTIONS && HasMode(r) && r !in d.seen ==> d.held[r] == []
  }

  const EMPTY: Draft := Draft([[], [], [], [], [], [], [], [], [], []], {}, [])

  // ----- reading -----

  predicate HoldsKey(held: seq<Grant>, key: nat) {
    exists i :: 0 <= i < |held| && held[i].key == key
  }

  /** Grants added one by one, refusing one already held (`grant`). */
  function PushAll(held: seq<Grant>, grants: seq<Grant>): (r: Option<seq<Grant>>)
    ensures r.Some? ==> r.value == held + grants
    decreases |grants|
  {
    if grants == [] then Some(held)
    else if HoldsKey(held, grants[0].key) then None
    else
      assert held + grants == held + [grants[0]] + grants[1..];
      PushAll(held + [grants[0]], grants[1..])
  }

  /** A node granted; `None` is a duplicate. */
  function Take(d: Draft, n: Node): (r: Option<Draft>)
    requires Shaped(d) && ValidNode(n)
    ensures r.Some? ==> Shaped(r.value) && r.value.disabled == d.disabled
    ensures r.Some? ==> forall k :: 0 <= k < SECTIONS ==> |d.held[k]| <= |r.value.held[k]|
  {
    var r := n.rank;
    if Many(r) then
      var all :- PushAll(d.held[r], n.grants);
      Some(d.(held := d.held[r := all]))
    else if HasMode(r) then
      if r in d.seen then None
      else
        var written := if n.grants[0].body == 0 then [] else n.grants;
        Some(d.(held := d.held[r := written], seen := d.seen + {r}))
    else if d.held[r] != [] then None
    else Some(d.(held := d.held[r := n.grants]))
  }

  /** A node turned off is placed among what its own section holds so far. */
  function Keep(d: Draft, n: Node): (r: Draft)
    requires Shaped(d) && ValidNode(n)
    ensures Shaped(r)
  {
    d.(disabled := d.disabled + [Disabled(n, |d.held[n.rank]|)])
  }

  function Read(d: Draft, lines: seq<Line>): (r: Option<Draft>)
    requires Shaped(d) && ValidLines(lines)
    ensures r.Some? ==> Shaped(r.value)
    decreases |lines|
  {
    if lines == [] then Some(d)
    else
      var next :- if lines[0].On? then Take(d, lines[0].node) else Some(Keep(d, lines[0].node));
      Read(next, lines[1..])
  }

  // ----- the sort by section -----

  /** The entries of section `rank`, in their order. */
  function OfRank(ds: seq<Disabled>, rank: nat): (r: seq<Disabled>)
    ensures forall i :: 0 <= i < |r| ==> r[i].node.rank == rank && r[i] in ds
  {
    if ds == [] then []
    else (if ds[0].node.rank == rank then [ds[0]] else []) + OfRank(ds[1..], rank)
  }

  /** The stable sort by section: section after section, each in its own order. */
  function SortFrom(ds: seq<Disabled>, rank: nat): seq<Disabled>
    decreases SECTIONS - rank
  {
    if rank >= SECTIONS then [] else OfRank(ds, rank) + SortFrom(ds, rank + 1)
  }

  lemma {:induction false} OfRankConcat(a: seq<Disabled>, b: seq<Disabled>, rank: nat)
    ensures OfRank(a + b, rank) == OfRank(a, rank) + OfRank(b, rank)
  {
    if a == [] {
      assert a + b == b;
    } else {
      assert (a + b)[1..] == a[1..] + b;
      OfRankConcat(a[1..], b, rank);
    }
  }

  lemma {:induction false} OfRankOnly(ds: seq<Disabled>, rank: nat, other: nat)
    requires forall i :: 0 <= i < |ds| ==> ds[i].node.rank == rank
    ensures OfRank(ds, other) == if other == rank then ds else []
  {
    if ds != [] {
      OfRankOnly(ds[1..], rank, other);
    }
  }

  /** The sort keeps every section as it was. */
  lemma {:induction false} SortIsStable(ds: seq<Disabled>, from: nat, rank: nat)
    ensures OfRank(SortFrom(ds, from), rank) == if from <= rank < SECTIONS then OfRank(ds, rank) else []
    decreases SECTIONS - from
  {
    hide OfRank, SortFrom;
    SortStep(ds, from);
    if from < SECTIONS {
      OfRankConcat(OfRank(ds, from), SortFrom(ds, from + 1), rank);
      OfRankOnly(OfRank(ds, from), from, rank);
      SortIsStable(ds, from + 1, rank);
    } else {
      OfRankOnly([], from, rank);
    }
  }

  lemma SortStep(ds: seq<Disabled>, from: nat)
    ensures SortFrom(ds, from) == if from < SECTIONS then OfRank(ds, from) + SortFrom(ds, from + 1) else []
  {
    hide OfRank;
  }

  lemma {:induction false} SortDependsOnSections(a: seq<Disabled>, b: seq<Disabled>, from: nat)
    requires forall rank :: from <= rank < SECTIONS ==> OfRank(a, rank) == OfRank(b, rank)
    ensures SortFrom(a, from) == SortFrom(b, from)
    decreases SECTIONS - from
  {
    if from < SECTIONS {
      SortDependsOnSections(a, b, from + 1);
    }
  }

  /** What a file parses to. */
  datatype Config = Config(held: seq<seq<Grant>>, disabled: seq<Disabled>)

  /** `parse_doc` over lines already parsed: read in order, then the entries off are sorted. */
  function Parse(lines: seq<Line>): Option<Config>
    requires ValidLines(lines)
  {
    var d :- Read(EMPTY, lines);
    Some(Config(d.held, SortFrom(d.disabled, 0)))
  }

  // ----- the reading as it runs -----

  /** The configuration under construction. */
  class Builder {
    var held: seq<seq<Grant>>
    var seen: set<nat>
    var disabled: seq<Disabled>

    ghost function View(): Draft
      reads this
    {
      Draft(held, seen, disabled)
    }

    constructor ()
      ensures View() == EMPTY
    {
      held, seen, disabled := [[], [], [], [], [], [], [], [], [], []], {}, [];
    }

    method GrantNode(n: Node) returns (ok: bool)
      requires Shaped(View()) && ValidNode(n)
      modifies this
      ensures ok <==> Take(old(View()), n).Some?
      ensures ok ==> View() == Take(old(View()), n).value
    {
      var r := n.rank;
      if Many(r) {
        var i := 0;
        ghost var before := held[r];
        assert n.grants[0..] == n.grants;
        while i < |n.grants|
          invariant i <= |n.grants| && |held| == SECTIONS && seen == old(seen) && disabled == old(disabled)
          invariant held == old(held)[r := held[r]]
          invariant PushAll(held[r], n.grants[i..]) == PushAll(before, n.grants)
        {
          var j := 0;
          while j < |held[r]|
            invariant j <= |held[r]|
            invariant forall k :: 0 <= k < j ==> held[r][k].key != n.grants[i].key
          {
            if held[r][j].key == n.grants[i].key {
              return false;
            }
            j := j + 1;
          }
          assert n.grants[i..][1..] == n.grants[i + 1..];
          held := held[r := held[r] + [n.grants[i]]];
          i := i + 1;
        }
        ok := true;
      } else if HasMode(r) {
        if r in seen {
          return false;
        }
        seen := seen + {r};
        held := held[r := if n.grants[0].body == 0 then [] else n.grants];
        ok := true;
      } else {
        if held[r] != [] {
          return false;
        }
        held := held[r := n.grants];
        ok := true;
      }
    }

    method KeepNode(n: Node)
      requires Shaped(View()) && ValidNode(n)
      modifies this
      ensures View() == Keep(old(View()), n)
    {
      disabled := disabled + [Disabled(n, |held[n.rank]|)];
    }
  }

  /** The loop of `parse_doc`. */
  method ParseLines(lines: seq<Line>) returns (r: Option<Config>)
    requires ValidLines(lines)
    ensures r == Parse(lines)
  {
    var cfg := new Builder();
    var i := 0;
    assert lines[0..] == lines;
    while i < |lines|
      invariant i <= |lines| && Shaped(cfg.View())
      invariant Read(EMPTY, lines) == Read(cfg.View(), lines[i..])
    {
      assert lines[i..][1..] == lines[i + 1..];
      var line := lines[i];
      if line.On? {
        var ok := cfg.GrantNode(line.node);
        if !ok {
          return None;
        }
      } else {
        cfg.KeepNode(line.node);
      }
      i := i + 1;
    }
    r := Some(Config(cfg.held, SortFrom(cfg.disabled, 0)));
  }

  // ----- every entry off has a place -----

  /** In one section: places inside the section's entries, and in order. */
  predicate PlacedAmong(ds: seq<Disabled>, count: nat) {
    && (forall i :: 0 <= i < |ds| ==> ds[i].before <= count)
    && (forall i, j :: 0 <= i < j < |ds| ==> ds[i].before <= ds[j].before)
  }

  predicate Placed(held: seq<seq<Grant>>, ds: seq<Disabled>) {
    forall r :: 0 <= r < |held| ==> PlacedAmong(OfRank(ds, r), |held[r]|)
  }

  lemma PlacedAmongMore(ds: seq<Disabled>, count: nat, more: nat)
    requires PlacedAmong(ds, count) && count <= more
    ensures PlacedAmong(ds, more)
  {
  }

  lemma TakePlaces(d: Draft, n: Node)
    requires Shaped(d) && ValidNode(n) && Placed(d.held, d.disabled) && Take(d, n).Some?
    ensures Placed(Take(d, n).value.held, Take(d, n).value.disabled)
  {
    hide Take, OfRank, PlacedAmong, HasMode;
    var next := Take(d, n).value;
    forall r | 0 <= r < SECTIONS
      ensures PlacedAmong(OfRank(next.disabled, r), |next.held[r]|)
    {
      PlacedAmongMore(OfRank(d.disabled, r), |d.held[r]|, |next.held[r]|);
    }
  }

  lemma PlacedAtEnd(ds: seq<Disabled>, d: Disabled, count: nat)
    requires PlacedAmong(ds, count) && d.before == count
    ensures PlacedAmong(ds + [d], count)
  {
  }

  lemma KeepPlaces(d: Draft, n: Node)
    requires Shaped(d) && ValidNode(n) && Placed(d.held, d.disabled)
    ensures Placed(Keep(d, n).held, Keep(d, n).disabled)
  {
    hide OfRank, PlacedAmong, HasMode;
    var off := Disabled(n, |d.held[n.rank]|);
    forall r | 0 <= r < SECTIONS
      ensures PlacedAmong(OfRank(d.disabled + [off], r), |d.held[r]|)
    {
      OfRankConcat(d.disabled, [off], r);
      OfRankOnly([off], n.rank, r);
      if r == n.rank {
        PlacedAtEnd(OfRank(d.disabled, r), off, |d.held[r]|);
      } else {
        assert OfRank(d.disabled, r) + [] == OfRank(d.disabled, r);
      }
    }
  }

  lemma {:induction false} ReadPlaces(d: Draft, lines: seq<Line>)
    requires Shaped(d) && ValidLines(lines) && Placed(d.held, d.disabled) && Read(d, lines).Some?
    ensures Placed(Read(d, lines).value.held, Read(d, lines).value.disabled)
    decreases |lines|
  {
    hide Take, Keep, Placed, Shaped;
    if lines != [] {
      var n := lines[0].node;
      if lines[0].On? {
        TakePlaces(d, n);
        ReadPlaces(Take(d, n).value, lines[1..]);
      } else {
        KeepPlaces(d, n);
        ReadPlaces(Keep(d, n), lines[1..]);
      }
    }
  }

  lemma StartsPlaced()
    ensures Shaped(EMPTY) && Placed(EMPTY.held, EMPTY.disabled)
    ensures AllWellHeld(EMPTY.held) && AllValidOff(EMPTY.disabled)
    ensures forall r :: 0 <= r < SECTIONS ==> EMPTY.held[r] == []
  {
  }

  /** After the whole file: inside its section's final entries, in order there, sections in order. */
  lemma EveryEntryHasItsPlace(lines: seq<Line>)
    requires ValidLines(lines) && Parse(lines).Some?
    ensures var cfg := Parse(lines).value;
            && |cfg.held| == SECTIONS
            && Placed(cfg.held, cfg.disabled)
            && SortFrom(cfg.disabled, 0) == cfg.disabled
  {
    hide Read, SortFrom, OfRank;
    StartsPlaced();
    ReadPlaces(EMPTY, lines);
    var d := Read(EMPTY, lines).value;
    var sorted := SortFrom(d.disabled, 0);
    forall r | 0 <= r < SECTIONS
      ensures OfRank(sorted, r) == OfRank(d.disabled, r)
    {
      SortIsStable(d.disabled, 0, r);
    }
    SortDependsOnSections(sorted, d.disabled, 0);
  }

  // ----- the writing back -----

  function Offs(ds: seq<Disabled>): (lines: seq<Line>)
    ensures |lines| == |ds|
    ensures forall i :: 0 <= i < |ds| ==> lines[i] == Off(ds[i].node)
  {
    seq(|ds|, i requires 0 <= i < |ds| => Off(ds[i].node))
  }

  function At(ds: seq<Disabled>, before: nat): seq<Disabled> {
    if ds == [] then []
    else (if ds[0].before == before then [ds[0]] else []) + At(ds[1..], before)
  }

  function AtLeast(ds: seq<Disabled>, before: nat): seq<Disabled> {
    if ds == [] then []
    else (if ds[0].before >= before then [ds[0]] else []) + AtLeast(ds[1..], before)
  }

  /** `section_entries`: each entry off before the entry it was read above, late ones last. */
  function Merge(rank: nat, held: seq<Grant>, ds: seq<Disabled>, i: nat): seq<Line>
    requires i <= |held|
    decreases |held| - i
  {
    if i == |held| then Offs(AtLeast(ds, i))
    else Offs(At(ds, i)) + [On(Node(rank, [held[i]]))] + Merge(rank, held, ds, i + 1)
  }

  /** The entries off before the `i`th entry, and that entry. */
  function MergeOne(rank: nat, held: seq<Grant>, ds: seq<Disabled>, i: nat): seq<Line>
    requires i < |held|
  {
    Offs(At(ds, i)) + [On(Node(rank, [held[i]]))]
  }

  /** `nodes`: the sections one after another. */
  function WriteFrom(cfg: Config, rank: nat): seq<Line>
    requires |cfg.held| == SECTIONS
    decreases SECTIONS - rank
  {
    if rank >= SECTIONS then []
    else Merge(rank, cfg.held[rank], OfRank(cfg.disabled, rank), 0) + WriteFrom(cfg, rank + 1)
  }

  function Write(cfg: Config): seq<Line>
    requires |cfg.held| == SECTIONS
  {
    WriteFrom(cfg, 0)
  }

  // ----- merging a section and splitting it again -----

  /** A section's lines as its entries on and its entries off, each off with the entries on above it. */
  function Split(lines: seq<Line>, above: nat): (seq<Grant>, seq<Disabled>) {
    if lines == [] then ([], [])
    else if lines[0].On? then
      var rest := Split(lines[1..], above + |lines[0].node.grants|);
      (lines[0].node.grants + rest.0, rest.1)
    else
      var rest := Split(lines[1..], above);
      (rest.0, [Disabled(lines[0].node, above)] + rest.1)
  }

  lemma {:induction false} SplitConcat(a: seq<Line>, b: seq<Line>, above: nat)
    ensures Split(a + b, above).0 == Split(a, above).0 + Split(b, above + |Split(a, above).0|).0
    ensures Split(a + b, above).1 == Split(a, above).1 + Split(b, above + |Split(a, above).0|).1
    decreases |a|
  {
    if a == [] {
      assert a + b == b;
    } else {
      assert (a + b)[1..] == a[1..] + b;
      SplitConcat(a[1..], b, if a[0].On? then above + |a[0].node.grants| else above);
    }
  }

  lemma {:induction false} SplitOffs(ds: seq<Disabled>, above: nat)
    requires forall i :: 0 <= i < |ds| ==> ds[i].before == above
    ensures Split(Offs(ds), above).0 == [] && Split(Offs(ds), above).1 == ds
    decreases |ds|
  {
    if ds != [] {
      assert Offs(ds)[1..] == Offs(ds[1..]);
      SplitOffs(ds[1..], above);
      assert ds[0] == Disabled(ds[0].node, above);
    }
  }

  lemma {:induction false} AtIsAt(ds: seq<Disabled>, before: nat)
    ensures forall i :: 0 <= i < |At(ds, before)| ==> At(ds, before)[i].before == before
  {
    if ds != [] {
      AtIsAt(ds[1..], before);
    }
  }

  lemma {:induction false} AtLeastNone(ds: seq<Disabled>, before: nat)
    requires forall i :: 0 <= i < |ds| ==> ds[i].before >= before
    ensures AtLeast(ds, before) == ds
  {
    if ds != [] {
      AtLeastNone(ds[1..], before);
    }
  }

  lemma {:induction false} AtNone(ds: seq<Disabled>, before: nat)
    requires forall i :: 0 <= i < |ds| ==> ds[i].before > before
    ensures At(ds, before) == []
  {
    if ds != [] {
      AtNone(ds[1..], before);
    }
  }

  /** In order, the entries from one place on are those at it and those after it. */
  lemma {:induction false} AtThenAfter(ds: seq<Disabled>, before: nat, count: nat)
    requires PlacedAmong(ds, count)
    ensures AtLeast(ds, before) == At(ds, before) + AtLeast(ds, before + 1)
  {
    hide At, AtLeast, PlacedAmong;
    AtStep(ds, before);
    if ds == [] {
    } else if ds[0].before > before {
      AfterFirst(ds, count);
      AtNone(ds, before);
      AtLeastNone(ds, before);
      AtLeastNone(ds, before + 1);
    } else {
      AfterFirst(ds, count);
      AtThenAfter(ds[1..], before, count);
    }
  }

  lemma AtStep(ds: seq<Disabled>, before: nat)
    ensures ds == [] ==> At(ds, before) == [] && AtLeast(ds, before) == [] && AtLeast(ds, before + 1) == []
    ensures ds != [] && ds[0].before == before ==>
              && At(ds, before) == [ds[0]] + At(ds[1..], before)
              && AtLeast(ds, before) == [ds[0]] + AtLeast(ds[1..], before)
              && AtLeast(ds, before + 1) == AtLeast(ds[1..], before + 1)
    ensures ds != [] && ds[0].before < before ==>
              && At(ds, before) == At(ds[1..], before)
              && AtLeast(ds, before) == AtLeast(ds[1..], before)
              && AtLeast(ds, before + 1) == AtLeast(ds[1..], before + 1)
  {
  }

  lemma AfterFirst(ds: seq<Disabled>, count: nat)
    requires PlacedAmong(ds, count) && ds != []
    ensures PlacedAmong(ds[1..], count) && forall i :: 0 <= i < |ds| ==> ds[0].before <= ds[i].before
  {
  }

  lemma {:induction false} AtEnd(ds: seq<Disabled>, count: nat)
    requires forall i :: 0 <= i < |ds| ==> ds[i].before <= count
    ensures forall i :: 0 <= i < |AtLeast(ds, count)| ==> AtLeast(ds, count)[i].before == count
  {
    if ds != [] {
      AtEnd(ds[1..], count);
    }
  }

  lemma SplitOn(line: Line, above: nat)
    requires line.On?
    ensures Split([line], above).0 == line.node.grants && Split([line], above).1 == []
  {
    assert [line][1..] == [];
  }

  lemma SplitMergeOne(rank: nat, held: seq<Grant>, ds: seq<Disabled>, i: nat)
    requires i < |held|
    ensures var s := Split(MergeOne(rank, held, ds, i), i);
            s.0 == [held[i]] && s.1 == At(ds, i)
  {
    hide Split, At;
    var on := On(Node(rank, [held[i]]));
    AtIsAt(ds, i);
    SplitOffs(At(ds, i), i);
    SplitConcat(Offs(At(ds, i)), [on], i);
    SplitOn(on, i);
  }

  lemma {:induction false} SplitMergeFrom(rank: nat, held: seq<Grant>, ds: seq<Disabled>, i: nat)
    requires PlacedAmong(ds, |held|) && i <= |held|
    ensures var s := Split(Merge(rank, held, ds, i), i);
            s.0 == held[i..] && s.1 == AtLeast(ds, i)
    decreases |held| - i
  {
    hide Split, At, AtLeast;
    if i == |held| {
      AtEnd(ds, i);
      SplitOffs(AtLeast(ds, i), i);
    } else {
      SplitMergeOne(rank, held, ds, i);
      SplitMergeFrom(rank, held, ds, i + 1);
      SplitConcat(MergeOne(rank, held, ds, i), Merge(rank, held, ds, i + 1), i);
      AtThenAfter(ds, i, |held|);
    }
  }

  lemma {:induction false} SplitPlaces(lines: seq<Line>, above: nat)
    ensures var s := Split(lines, above);
            && PlacedAmong(s.1, above + |s.0|)
            && forall i :: 0 <= i < |s.1| ==> above <= s.1[i].before
    decreases |lines|
  {
    if lines != [] {
      SplitPlaces(lines[1..], if lines[0].On? then above + |lines[0].node.grants| else above);
    }
  }

  /**
   Merging a section's entries and splitting it again gives the same lists exactly when
   the entries off are in order and none lies past the end.
   */
  lemma MergeSplits(rank: nat, held: seq<Grant>, ds: seq<Disabled>)
    ensures Split(Merge(rank, held, ds, 0), 0) == (held, ds) <==> PlacedAmong(ds, |held|)
  {
    if PlacedAmong(ds, |held|) {
      SplitMergeFrom(rank, held, ds, 0);
      AtLeastNone(ds, 0);
    }
    SplitPlaces(Merge(rank, held, ds, 0), 0);
  }

  // ----- a file read, written and read again -----

  predicate DistinctKeys(held: seq<Grant>) {
    forall i, j :: 0 <= i < j < |held| ==> held[i].key != held[j].key
  }

  /** What a section may hold. */
  predicate WellHeld(rank: nat, held: seq<Grant>) {
    if Many(rank) then DistinctKeys(held)
    else |held| <= 1 && (HasMode(rank) && held != [] ==> held[0].body != 0)
  }

  predicate AllWellHeld(held: seq<seq<Grant>>) {
    forall r :: 0 <= r < |held| ==> WellHeld(r, held[r])
  }

  lemma {:induction false} PushDistinct(held: seq<Grant>, grants: seq<Grant>)
    requires DistinctKeys(held) && PushAll(held, grants).Some?
    ensures DistinctKeys(PushAll(held, grants).value)
    decreases |grants|
  {
    if grants != [] {
      PushDistinct(held + [grants[0]], grants[1..]);
    }
  }

  lemma {:induction false} ReadHolds(d: Draft, lines: seq<Line>)
    requires Shaped(d) && ValidLines(lines) && AllWellHeld(d.held) && Read(d, lines).Some?
    ensures AllWellHeld(Read(d, lines).value.held)
    decreases |lines|
  {
    if lines != [] {
      if lines[0].On? {
        var n := lines[0].node;
        if Many(n.rank) {
          PushDistinct(d.held[n.rank], n.grants);
        }
        ReadHolds(Take(d, n).value, lines[1..]);
      } else {
        ReadHolds(Keep(d, lines[0].node), lines[1..]);
      }
    }
  }

  predicate AllValidOff(ds: seq<Disabled>) {
    forall i :: 0 <= i < |ds| ==> ValidNode(ds[i].node)
  }

  lemma {:induction false} ReadKeepsValid(d: Draft, lines: seq<Line>)
    requires Shaped(d) && ValidLines(lines) && AllValidOff(d.disabled) && Read(d, lines).Some?
    ensures AllValidOff(Read(d, lines).value.disabled)
    decreases |lines|
  {
    if lines != [] {
      ReadKeepsValid(if lines[0].On? then Take(d, lines[0].node).value else Keep(d, lines[0].node), lines[1..]);
    }
  }

  lemma {:induction false} ReadConcat(d: Draft, a: seq<Line>, b: seq<Line>)
    requires Shaped(d) && ValidLines(a) && ValidLines(b)
    ensures ValidLines(a + b)
    ensures Read(d, a + b) == if Read(d, a).Some? then Read(Read(d, a).value, b) else None
    decreases |a|
  {
    if a == [] {
      assert a + b == b;
    } else {
      assert (a + b)[1..] == a[1..] + b;
      var next := if a[0].On? then Take(d, a[0].node) else Some(Keep(d, a[0].node));
      if next.Some? {
        ReadConcat(next.value, a[1..], b);
      }
    }
  }

  /** Entries off that sit at the end of what their section holds are read back as they were. */
  lemma {:induction false} ReadOffs(d: Draft, ds: seq<Disabled>, rank: nat)
    requires Shaped(d) && rank < SECTIONS && AllOfRank(ds, rank)
    requires forall i :: 0 <= i < |ds| ==> ds[i].before == |d.held[rank]|
    ensures ValidLines(Offs(ds))
    ensures Read(d, Offs(ds)) == Some(d.(disabled := d.disabled + ds))
    decreases |ds|
  {
    if ds == [] {
      assert d.disabled + ds == d.disabled;
    } else {
      assert Offs(ds)[1..] == Offs(ds[1..]);
      var next := Keep(d, ds[0].node);
      ReadOffs(next, ds[1..], rank);
      assert d.disabled + [ds[0]] + ds[1..] == d.disabled + ds;
    }
  }

  /** An entry of a section read again after those before it. */
  lemma TakeNext(d: Draft, rank: nat, held: seq<Grant>, i: nat)
    requires Shaped(d) && rank < SECTIONS && WellHeld(rank, held) && i < |held| && d.held[rank] == held[..i]
    requires HasMode(rank) ==> rank !in d.seen
    ensures var r := Take(d, Node(rank, [held[i]]));
            && r.Some?
            && r.value.held == d.held[rank := held[..i + 1]]
            && r.value.seen == (if HasMode(rank) then d.seen + {rank} else d.seen)
  {
    assert held[..i] + [held[i]] == held[..i + 1];
    if Many(rank) {
      assert PushAll(held[..i], [held[i]]) == PushAll(held[..i + 1], []) by {
        assert [held[i]][1..] == [];
        assert !HoldsKey(held[..i], held[i].key);
      }
    } else {
      assert i == 0 && held[..1] == [held[0]];
    }
  }

  lemma ReadMergedOne(d: Draft, rank: nat, held: seq<Grant>, ds: seq<Disabled>, i: nat)
    requires Shaped(d) && rank < SECTIONS && i < |held| && d.held[rank] == held[..i]
    requires WellHeld(rank, held) && (HasMode(rank) && i == 0 ==> rank !in d.seen)
    requires AllOfRank(ds, rank)
    ensures ValidLines(MergeOne(rank, held, ds, i))
    ensures var r := Read(d, MergeOne(rank, held, ds, i));
            && r.Some? && r.value.held == d.held[rank := held[..i + 1]]
            && r.value.disabled == d.disabled + At(ds, i)
            && r.value.seen <= d.seen + {rank}
  {
    hide Take, Read, WellHeld, At;
    var on := [On(Node(rank, [held[i]]))];
    AtIsAt(ds, i);
    PickedFromRank(ds, rank, i);
    ReadOffs(d, At(ds, i), rank);
    var placed := d.(disabled := d.disabled + At(ds, i));
    ModeIsFirst(rank, held, i);
    TakeNext(placed, rank, held, i);
    ReadOn(placed, on[0].node);
    ReadConcat(d, Offs(At(ds, i)), on);
  }

  lemma ModeIsFirst(rank: nat, held: seq<Grant>, i: nat)
    requires WellHeld(rank, held) && i < |held|
    ensures HasMode(rank) ==> i == 0
  {
  }

  lemma ReadOn(d: Draft, n: Node)
    requires Shaped(d) && ValidNode(n)
    ensures ValidLines([On(n)]) && Read(d, [On(n)]) == Take(d, n)
  {
    hide Take;
    assert [On(n)][1..] == [];
  }

  lemma {:induction false} ReadMerged(d: Draft, rank: nat, held: seq<Grant>, ds: seq<Disabled>, i: nat)
    requires Shaped(d) && rank < SECTIONS && i <= |held| && d.held[rank] == held[..i]
    requires WellHeld(rank, held) && (HasMode(rank) && i == 0 ==> rank !in d.seen)
    requires PlacedAmong(ds, |held|) && AllOfRank(ds, rank)
    ensures ValidLines(Merge(rank, held, ds, i))
    ensures var r := Read(d, Merge(rank, held, ds, i));
            && r.Some? && r.value.held == d.held[rank := held]
            && r.value.disabled == d.disabled + AtLeast(ds, i)
            && r.value.seen <= d.seen + {rank}
    decreases |held| - i
  {
    hide Take, Read, WellHeld, At, AtLeast;
    if i == |held| {
      AtEnd(ds, i);
      PickedFromRank(ds, rank, i);
      ReadOffs(d, AtLeast(ds, i), rank);
      assert held[..i] == held;
      assert d.held[rank := held] == d.held;
    } else {
      var rest := Merge(rank, held, ds, i + 1);
      ReadMergedOne(d, rank, held, ds, i);
      var next := Read(d, MergeOne(rank, held, ds, i)).value;
      ReadMerged(next, rank, held, ds, i + 1);
      ReadConcat(d, MergeOne(rank, held, ds, i), rest);
      AtThenAfter(ds, i, |held|);
      assert d.disabled + At(ds, i) + AtLeast(ds, i + 1) == d.disabled + AtLeast(ds, i);
      assert next.held[rank := held] == d.held[rank := held];
    }
  }

  predicate AllOfRank(ds: seq<Disabled>, rank: nat) {
    forall i :: 0 <= i < |ds| ==> ds[i].node.rank == rank && ValidNode(ds[i].node)
  }

  lemma {:induction false} PickedFromRank(ds: seq<Disabled>, rank: nat, before: nat)
    requires AllOfRank(ds, rank)
    ensures AllOfRank(At(ds, before), rank) && AllOfRank(AtLeast(ds, before), rank)
  {
    if ds != [] {
      PickedFromRank(ds[1..], rank, before);
    }
  }

  /** The sections before `rank` read again, the others not yet. */
  ghost predicate ReadUpTo(d: Draft, cfg: Config, rank: nat) {
    && |cfg.held| == SECTIONS && Shaped(d)
    && (forall r :: 0 <= r < SECTIONS ==> d.held[r] == if r < rank then cfg.held[r] else [])
    && forall r :: rank <= r < SECTIONS ==> r !in d.seen
  }

  lemma ReadUpToNext(d: Draft, next: Draft, cfg: Config, rank: nat)
    requires ReadUpTo(d, cfg, rank) && rank < SECTIONS && Shaped(next)
    requires next.held == d.held[rank := cfg.held[rank]] && next.seen <= d.seen + {rank}
    ensures ReadUpTo(next, cfg, rank + 1)
  {
  }

  /** One section of the file read again. */
  lemma ReadSection(d: Draft, cfg: Config, rank: nat)
    requires ReadUpTo(d, cfg, rank) && rank < SECTIONS
    requires AllWellHeld(cfg.held) && Placed(cfg.held, cfg.disabled) && AllValidOff(cfg.disabled)
    ensures var lines := Merge(rank, cfg.held[rank], OfRank(cfg.disabled, rank), 0);
            && ValidLines(lines)
            && Read(d, lines).Some?
            && Shaped(Read(d, lines).value)
            && ReadUpTo(Read(d, lines).value, cfg, rank + 1)
            && Read(d, lines).value.disabled == d.disabled + OfRank(cfg.disabled, rank)
  {
    hide Read, Merge, OfRank, WellHeld, AtLeast, HasMode, PlacedAmong;
    var ds := OfRank(cfg.disabled, rank);
    ValidOfRank(cfg.disabled, rank);
    assert PlacedAmong(ds, |cfg.held[rank]|);
    assert d.held[rank] == cfg.held[rank][..0];
    ReadMerged(d, rank, cfg.held[rank], ds, 0);
    AtLeastNone(ds, 0);
    ReadUpToNext(d, Read(d, Merge(rank, cfg.held[rank], ds, 0)).value, cfg, rank);
  }

  lemma WriteStep(cfg: Config, rank: nat)
    requires |cfg.held| == SECTIONS
    ensures WriteFrom(cfg, rank)
         == if rank < SECTIONS then
              Merge(rank, cfg.held[rank], OfRank(cfg.disabled, rank), 0) + WriteFrom(cfg, rank + 1)
            else []
  {
    hide Merge, OfRank;
  }

  lemma {:induction false} ReadWritten(d: Draft, cfg: Config, rank: nat)
    requires ReadUpTo(d, cfg, rank) && rank <= SECTIONS
    requires AllWellHeld(cfg.held) && Placed(cfg.held, cfg.disabled) && AllValidOff(cfg.disabled)
    ensures ValidLines(WriteFrom(cfg, rank))
    ensures var r := Read(d, WriteFrom(cfg, rank));
            r.Some? && r.value.held == cfg.held && r.value.disabled == d.disabled + SortFrom(cfg.disabled, rank)
    decreases SECTIONS - rank
  {
    hide Read, Merge, OfRank, WriteFrom, SortFrom, Placed, AllWellHeld, AllValidOff, HasMode;
    WriteStep(cfg, rank);
    SortStep(cfg.disabled, rank);
    if rank < SECTIONS {
      var ds := OfRank(cfg.disabled, rank);
      var lines := Merge(rank, cfg.held[rank], ds, 0);
      ReadSection(d, cfg, rank);
      ReadWritten(Read(d, lines).value, cfg, rank + 1);
      ReadConcat(d, lines, WriteFrom(cfg, rank + 1));
      assert d.disabled + ds + SortFrom(cfg.disabled, rank + 1) == d.disabled + SortFrom(cfg.disabled, rank);
    } else {
      assert d.held == cfg.held;
      assert d.disabled + [] == d.disabled;
      ReadNothing(d);
    }
  }

  lemma ReadNothing(d: Draft)
    requires Shaped(d)
    ensures ValidLines([]) && Read(d, []) == Some(d)
  {
  }

  lemma ValidOfRank(ds: seq<Disabled>, rank: nat)
    requires AllValidOff(ds)
    ensures AllOfRank(OfRank(ds, rank), rank)
  {
    forall i | 0 <= i < |OfRank(ds, rank)|
      ensures OfRank(ds, rank)[i].node.rank == rank && ValidNode(OfRank(ds, rank)[i].node)
    {
      assert OfRank(ds, rank)[i] in ds;
    }
  }

  /** A configuration written back and read again is the configuration that was read. */
  lemma WrittenReadsBack(lines: seq<Line>)
    requires ValidLines(lines) && Parse(lines).Some?
    ensures var cfg := Parse(lines).value;
            && |cfg.held| == SECTIONS
            && ValidLines(Write(cfg))
            && Parse(Write(cfg)) == Some(cfg)
  {
    hide Read, SortFrom, WriteFrom, Placed, WellHeld;
    var cfg := Parse(lines).value;
    EveryEntryHasItsPlace(lines);
    StartsPlaced();
    ReadHolds(EMPTY, lines);
    ReadKeepsValid(EMPTY, lines);
    SortedAreValid(Read(EMPTY, lines).value.disabled, 0);
    ReadWritten(EMPTY, cfg, 0);
    assert EMPTY.disabled + SortFrom(cfg.disabled, 0) == cfg.disabled;
  }

  lemma {:induction false} SortedAreValid(ds: seq<Disabled>, rank: nat)
    requires AllValidOff(ds)
    ensures AllValidOff(SortFrom(ds, rank))
    decreases SECTIONS - rank
  {
    if rank < SECTIONS {
      SortedAreValid(ds, rank + 1);
    }
  }
}
