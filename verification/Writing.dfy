/**
 What a configuration is written as, for any configuration an editor may have made of it: section
 after section, every entry where it belongs, and none dropped.
 */
module Writing {
  import opened Results
  import opened Placement

  /** The entries off, those past the last entry on brought back to just behind it. */
  function Clamped(ds: seq<Disabled>, count: nat): (r: seq<Disabled>)
    ensures |r| == |ds|
  {
    if ds == [] then []
    else [Disabled(ds[0].node, if ds[0].before < count then ds[0].before else count)] + Clamped(ds[1..], count)
  }

  lemma Regrouped<T>(a: seq<T>, b: seq<T>, c: seq<T>)
    ensures a + (b + c) == a + b + c
  {
  }

  lemma {:induction false} AtConcat(a: seq<Disabled>, b: seq<Disabled>, place: nat)
    ensures At(a + b, place) == At(a, place) + At(b, place)
    decreases |a|
  {
    if a == [] {
      assert a + b == b;
    } else {
      var first := if a[0].before == place then [a[0]] else [];
      assert (a + b)[0] == a[0] && (a + b)[1..] == a[1..] + b;
      AtConcat(a[1..], b, place);
      Regrouped(first, At(a[1..], place), At(b, place));
    }
  }

  lemma {:induction false} AtElsewhere(ds: seq<Disabled>, place: nat)
    requires forall i :: 0 <= i < |ds| ==> ds[i].before != place
    ensures At(ds, place) == []
  {
    if ds != [] {
      AtElsewhere(ds[1..], place);
    }
  }

  lemma {:induction false} AtHere(ds: seq<Disabled>, place: nat)
    requires forall i :: 0 <= i < |ds| ==> ds[i].before == place
    ensures At(ds, place) == ds
  {
    if ds != [] {
      AtHere(ds[1..], place);
    }
  }

  lemma {:induction false} ClampedBelow(ds: seq<Disabled>, count: nat, place: nat)
    requires place < count
    ensures At(Clamped(ds, count), place) == At(ds, place)
  {
    if ds != [] {
      ClampedBelow(ds[1..], count, place);
      var first := Disabled(ds[0].node, if ds[0].before < count then ds[0].before else count);
      assert Clamped(ds, count)[1..] == Clamped(ds[1..], count);
      assert ds[0].before == place ==> first == ds[0];
    }
  }

  lemma {:induction false} ClampedAtEnd(ds: seq<Disabled>, count: nat)
    ensures At(Clamped(ds, count), count) == Clamped(AtLeast(ds, count), count)
  {
    if ds != [] {
      ClampedAtEnd(ds[1..], count);
      var first := Disabled(ds[0].node, if ds[0].before < count then ds[0].before else count);
      var rest := AtLeast(ds[1..], count);
      AtConcat([first], Clamped(ds[1..], count), count);
      assert At([first], count) == if ds[0].before >= count then [first] else [];
      if ds[0].before >= count {
        assert AtLeast(ds, count) == [ds[0]] + rest && ([ds[0]] + rest)[1..] == rest;
        assert Clamped([ds[0]] + rest, count) == [first] + Clamped(rest, count);
      } else {
        assert AtLeast(ds, count) == rest;
      }
    }
  }

  lemma {:induction false} ClampedPlaces(ds: seq<Disabled>, count: nat)
    ensures forall i :: 0 <= i < |ds| ==> Clamped(ds, count)[i].before <= count
  {
    if ds != [] {
      ClampedPlaces(ds[1..], count);
    }
  }

  lemma {:induction false} SplitLate(ds: seq<Disabled>, count: nat)
    requires forall i :: 0 <= i < |ds| ==> ds[i].before >= count
    ensures Split(Offs(ds), count) == ([], Clamped(ds, count))
    ensures forall i :: 0 <= i < |ds| ==> Clamped(ds, count)[i].before == count
  {
    if ds != [] {
      assert Offs(ds)[1..] == Offs(ds[1..]);
      SplitLate(ds[1..], count);
    }
  }

  lemma {:induction false} LateAre(ds: seq<Disabled>, count: nat)
    ensures forall i :: 0 <= i < |AtLeast(ds, count)| ==> AtLeast(ds, count)[i].before >= count
  {
    if ds != [] {
      LateAre(ds[1..], count);
    }
  }

  lemma MergeStep(rank: nat, held: seq<Grant>, ds: seq<Disabled>, i: nat)
    requires i < |held|
    ensures Merge(rank, held, ds, i) == MergeOne(rank, held, ds, i) + Merge(rank, held, ds, i + 1)
    ensures [held[i]] + held[i + 1..] == held[i..]
  {
  }

  lemma {:induction false} MergePlacesFrom(rank: nat, held: seq<Grant>, ds: seq<Disabled>, i: nat, place: nat)
    requires i <= |held|
    ensures var s := Split(Merge(rank, held, ds, i), i);
            s.0 == held[i..] && (i <= place ==> At(s.1, place) == At(Clamped(ds, |held|), place))
    decreases |held| - i
  {
    hide Split, At, AtLeast, Clamped, PlacedAmong, MergeOne;
    if i == |held| {
      LateAre(ds, i);
      SplitLate(AtLeast(ds, i), i);
      if place == i {
        ClampedAtEnd(ds, i);
        AtHere(Clamped(AtLeast(ds, i), i), i);
      } else if i < place {
        ClampedPlaces(ds, i);
        AtElsewhere(Clamped(ds, i), place);
        AtElsewhere(Clamped(AtLeast(ds, i), i), place);
      }
    } else {
      var rest := Split(Merge(rank, held, ds, i + 1), i + 1);
      MergeStep(rank, held, ds, i);
      SplitMergeOne(rank, held, ds, i);
      MergePlacesFrom(rank, held, ds, i + 1, place);
      SplitConcat(MergeOne(rank, held, ds, i), Merge(rank, held, ds, i + 1), i);
      AtConcat(At(ds, i), rest.1, place);
      AtIsAt(ds, i);
      if place == i {
        ClampedBelow(ds, |held|, i);
        AtHere(At(ds, i), i);
        SplitPlaces(Merge(rank, held, ds, i + 1), i + 1);
        AtElsewhere(rest.1, i);
      } else if i < place {
        AtElsewhere(At(ds, i), place);
      }
    }
  }

  /**
   A section is written whole, wherever its entries off were put: its entries on in their order, and
   before each of them the entries off that were read above it, in theirs; an entry off that points
   past the last comes behind it.
   */
  lemma MergePlaces(rank: nat, held: seq<Grant>, ds: seq<Disabled>, place: nat)
    ensures var s := Split(Merge(rank, held, ds, 0), 0);
            && s.0 == held && PlacedAmong(s.1, |held|)
            && At(s.1, place) == At(Clamped(ds, |held|), place)
  {
    MergePlacesFrom(rank, held, ds, 0, place);
    SplitPlaces(Merge(rank, held, ds, 0), 0);
  }

  // ----- section after section -----

  function LinesOf(lines: seq<Line>, rank: nat): seq<Line> {
    if lines == [] then []
    else (if lines[0].node.rank == rank then [lines[0]] else []) + LinesOf(lines[1..], rank)
  }

  lemma {:induction false} LinesConcat(a: seq<Line>, b: seq<Line>, rank: nat)
    ensures LinesOf(a + b, rank) == LinesOf(a, rank) + LinesOf(b, rank)
    decreases |a|
  {
    if a == [] {
      assert a + b == b;
    } else {
      var first := if a[0].node.rank == rank then [a[0]] else [];
      assert (a + b)[0] == a[0] && (a + b)[1..] == a[1..] + b;
      LinesConcat(a[1..], b, rank);
      Regrouped(first, LinesOf(a[1..], rank), LinesOf(b, rank));
    }
  }

  predicate AllOf(lines: seq<Line>, rank: nat) {
    forall i :: 0 <= i < |lines| ==> lines[i].node.rank == rank
  }

  lemma {:induction false} LinesOfOne(lines: seq<Line>, rank: nat, other: nat)
    requires AllOf(lines, rank)
    ensures LinesOf(lines, other) == if other == rank then lines else []
    decreases |lines|
  {
    if lines != [] {
      LinesOfOne(lines[1..], rank, other);
    }
  }

  lemma {:induction false} PickedAreOf(ds: seq<Disabled>, rank: nat, place: nat)
    requires forall i :: 0 <= i < |ds| ==> ds[i].node.rank == rank
    ensures AllOf(Offs(At(ds, place)), rank) && AllOf(Offs(AtLeast(ds, place)), rank)
    decreases |ds|
  {
    if ds != [] {
      PickedAreOf(ds[1..], rank, place);
      assert forall i :: 0 <= i < |At(ds[1..], place)| ==> Offs(At(ds[1..], place))[i].node.rank == rank;
      assert forall i :: 0 <= i < |AtLeast(ds[1..], place)| ==> Offs(AtLeast(ds[1..], place))[i].node.rank == rank;
    }
  }

  lemma {:induction false} MergedIsOf(rank: nat, held: seq<Grant>, ds: seq<Disabled>, i: nat)
    requires i <= |held| && forall k :: 0 <= k < |ds| ==> ds[k].node.rank == rank
    ensures AllOf(Merge(rank, held, ds, i), rank)
    decreases |held| - i
  {
    hide At, AtLeast;
    PickedAreOf(ds, rank, i);
    if i < |held| {
      MergedIsOf(rank, held, ds, i + 1);
    }
  }

  predicate InOrder(lines: seq<Line>) {
    forall i, j :: 0 <= i < j < |lines| ==> lines[i].node.rank <= lines[j].node.rank
  }

  lemma {:induction false} WrittenFrom(cfg: Config, from: nat, rank: nat)
    requires |cfg.held| == 10 && rank < 10
    ensures var lines := WriteFrom(cfg, from);
            && (forall i :: 0 <= i < |lines| ==> from <= lines[i].node.rank) && InOrder(lines)
            && (from <= rank ==> LinesOf(lines, rank) == Merge(rank, cfg.held[rank], OfRank(cfg.disabled, rank), 0))
    decreases 10 - from
  {
    hide Merge, LinesOf, OfRank;
    if from < 10 {
      var here := Merge(from, cfg.held[from], OfRank(cfg.disabled, from), 0);
      var rest := WriteFrom(cfg, from + 1);
      WrittenFrom(cfg, from + 1, rank);
      MergedIsOf(from, cfg.held[from], OfRank(cfg.disabled, from), 0);
      LinesConcat(here, rest, rank);
      LinesOfOne(here, from, rank);
      if rank == from {
        NoLinesOf(rest, rank);
        assert here + [] == here;
      } else {
        assert [] + LinesOf(rest, rank) == LinesOf(rest, rank);
      }
    }
  }

  lemma {:induction false} NoLinesOf(lines: seq<Line>, rank: nat)
    requires forall i :: 0 <= i < |lines| ==> lines[i].node.rank > rank
    ensures LinesOf(lines, rank) == []
    decreases |lines|
  {
    if lines != [] {
      NoLinesOf(lines[1..], rank);
    }
  }

  /**
   A configuration is written section after section, and each section is its entries on with its own
   entries off put among them: nothing is left out and nothing else is written.
   */
  lemma WrittenInSections(cfg: Config, rank: nat, place: nat)
    requires |cfg.held| == 10 && rank < 10
    ensures InOrder(Write(cfg))
    ensures var s := Split(LinesOf(Write(cfg), rank), 0);
            && s.0 == cfg.held[rank] && PlacedAmong(s.1, |cfg.held[rank]|)
            && At(s.1, place) == At(Clamped(OfRank(cfg.disabled, rank), |cfg.held[rank]|), place)
  {
    hide Merge, LinesOf, OfRank, Split, At, Clamped, WriteFrom;
    WrittenFrom(cfg, 0, rank);
    MergePlaces(rank, cfg.held[rank], OfRank(cfg.disabled, rank), place);
  }
}
