/**
 What reading the nodes of a document comes to, said of the whole list: when it is refused as holding
 a grant twice, what each section then holds, and where each disabled entry stands.
 */
module Granting {
  import opened Results
  import opened Placement

  /** Everything the enabled nodes of a section grant, in order. */
  function Granted(lines: seq<Line>, rank: nat): seq<Grant> {
    if lines == [] then []
    else (if lines[0].On? && lines[0].node.rank == rank then lines[0].node.grants else []) + Granted(lines[1..], rank)
  }

  /** Nothing is granted twice: no key within the three lists, no second node in any other section. */
  ghost predicate NoneTwice(lines: seq<Line>) {
    forall rank: nat :: rank < 10 ==>
      if rank <= 2 then DistinctKeys(Granted(lines, rank)) else |Granted(lines, rank)| <= 1
  }

  /** The modes are `etc`, `tty`, `userns` and `seccomp`; one at its default is as good as not written. */
  function HeldBy(lines: seq<Line>, rank: nat): seq<Grant> {
    var all := Granted(lines, rank);
    if (rank == 3 || 5 <= rank <= 7) && |all| == 1 && all[0].body == 0 then [] else all
  }

  /** Each disabled node, before what comes after it in its own section. */
  function DisabledOf(lines: seq<Line>, from: nat): seq<Disabled>
    requires from <= |lines|
    decreases |lines| - from
  {
    if from == |lines| then []
    else
      var n := lines[from].node;
      (if lines[from].Off? then [Disabled(n, |HeldBy(lines[..from], n.rank)|)] else []) + DisabledOf(lines, from + 1)
  }

  lemma {:induction false} GrantedConcat(a: seq<Line>, b: seq<Line>, rank: nat)
    ensures Granted(a + b, rank) == Granted(a, rank) + Granted(b, rank)
    decreases |a|
  {
    if a == [] {
      assert a + b == b;
    } else {
      assert (a + b)[1..] == a[1..] + b;
      GrantedConcat(a[1..], b, rank);
    }
  }

  lemma GrantedOne(line: Line, rank: nat)
    ensures Granted([line], rank) == if line.On? && line.node.rank == rank then line.node.grants else []
  {
    assert [line][1..] == [];
  }

  lemma RanksAre(rank: nat)
    ensures Many(rank) <==> rank <= 2
    ensures HasMode(rank) <==> rank == 3 || 5 <= rank <= 7
    ensures SECTIONS == 10
  {
  }

  lemma {:induction false} PushIff(held: seq<Grant>, grants: seq<Grant>)
    requires DistinctKeys(held)
    ensures PushAll(held, grants).Some? <==> DistinctKeys(held + grants)
    decreases |grants|
  {
    if grants == [] {
      assert held + [] == held;
    } else {
      var first, all := grants[0], held + grants;
      assert all == held + [first] + grants[1..];
      if HoldsKey(held, first.key) {
        var i :| 0 <= i < |held| && held[i].key == first.key;
        assert all[i].key == all[|held|].key;
      } else {
        assert DistinctKeys(held + [first]);
        PushIff(held + [first], grants[1..]);
      }
    }
  }

  /** The draft is what the lines read so far come to. */
  ghost predicate Stands(d: Draft, done: seq<Line>) {
    && Shaped(d) && NoneTwice(done)
    && (forall r: nat :: r < 10 ==> d.held[r] == HeldBy(done, r))
    && (forall r: nat :: r < 10 && HasMode(r) ==> (r in d.seen <==> Granted(done, r) != []))
    && d.disabled == DisabledOf(done, 0)
  }

  lemma {:induction false} DisabledMore(lines: seq<Line>, line: Line, from: nat)
    requires from <= |lines|
    ensures DisabledOf(lines + [line], from)
         == DisabledOf(lines, from)
            + if line.Off? then [Disabled(line.node, |HeldBy(lines, line.node.rank)|)] else []
    decreases |lines| - from
  {
    hide HeldBy;
    var all := lines + [line];
    if from < |lines| {
      assert all[..from] == lines[..from];
      DisabledMore(lines, line, from + 1);
    } else {
      assert all[..from] == lines;
      assert DisabledOf(all, from + 1) == [];
    }
  }

  lemma GrantedNext(done: seq<Line>, line: Line, rank: nat)
    ensures Granted(done + [line], rank)
         == Granted(done, rank) + if line.On? && line.node.rank == rank then line.node.grants else []
  {
    GrantedConcat(done, [line], rank);
    GrantedOne(line, rank);
  }

  /** One node more is fine just when its own section allows it. */
  lemma NoneTwiceNext(done: seq<Line>, n: Node)
    requires NoneTwice(done) && ValidNode(n)
    ensures NoneTwice(done + [On(n)]) <==>
              if n.rank <= 2 then DistinctKeys(Granted(done, n.rank) + n.grants) else Granted(done, n.rank) == []
  {
    hide DistinctKeys, Granted;
    RanksAre(n.rank);
    var all := done + [On(n)];
    forall r: nat
      ensures Granted(all, r) == Granted(done, r) + if n.rank == r then n.grants else []
    {
      GrantedNext(done, On(n), r);
    }
    assert n.rank > 2 ==> |Granted(all, n.rank)| == |Granted(done, n.rank)| + 1;
    assert Granted(all, n.rank) == Granted(done, n.rank) + n.grants;
    if (if n.rank <= 2 then DistinctKeys(Granted(done, n.rank) + n.grants) else Granted(done, n.rank) == []) {
      forall r: nat | r < 10
        ensures if r <= 2 then DistinctKeys(Granted(all, r)) else |Granted(all, r)| <= 1
      {
        assert r != n.rank ==> Granted(all, r) == Granted(done, r);
      }
    }
  }

  lemma HeldNext(done: seq<Line>, n: Node, r: nat)
    requires ValidNode(n) && (n.rank > 2 ==> Granted(done, n.rank) == [])
    ensures var all := done + [On(n)];
            && (r != n.rank ==> HeldBy(all, r) == HeldBy(done, r) && Granted(all, r) == Granted(done, r))
            && (r == n.rank ==> Granted(all, r) == Granted(done, r) + n.grants)
            && (r == n.rank && Many(r) ==> HeldBy(all, r) == HeldBy(done, r) + n.grants)
            && (r == n.rank && HasMode(r) ==> HeldBy(all, r) == if n.grants[0].body == 0 then [] else n.grants)
            && (r == n.rank && !Many(r) && !HasMode(r) ==> HeldBy(all, r) == n.grants)
  {
    hide Granted;
    GrantedNext(done, On(n), r);
    RanksAre(r);
    assert Granted(done, r) + [] == Granted(done, r);
    assert [] + n.grants == n.grants;
  }

  /** One node granted: it is taken just when nothing is then granted twice. */
  lemma TakeStands(d: Draft, done: seq<Line>, n: Node)
    requires Stands(d, done) && ValidNode(n)
    ensures Take(d, n).Some? <==> NoneTwice(done + [On(n)])
    ensures Take(d, n).Some? ==> Stands(Take(d, n).value, done + [On(n)])
  {
    TakenIf(d, done, n);
    if Take(d, n).Some? {
      TakenStands(d, done, n);
    }
  }

  lemma ManyHeld(d: Draft, done: seq<Line>, rank: nat)
    requires Stands(d, done) && rank < 10
    ensures rank <= 2 || rank == 4 || rank >= 8 ==> d.held[rank] == Granted(done, rank)
  {
    hide Granted, DistinctKeys, DisabledOf;
  }

  lemma TakenIf(d: Draft, done: seq<Line>, n: Node)
    requires Stands(d, done) && ValidNode(n)
    ensures Take(d, n).Some? <==> NoneTwice(done + [On(n)])
  {
    hide PushAll, DistinctKeys, DisabledOf, Granted, NoneTwice, HeldBy;
    RanksAre(n.rank);
    NoneTwiceNext(done, n);
    ManyHeld(d, done, n.rank);
    PushesIff(Granted(done, n.rank), n.grants, n.rank, done);
  }

  lemma TakenStands(d: Draft, done: seq<Line>, n: Node)
    requires Stands(d, done) && ValidNode(n) && Take(d, n).Some?
    ensures Stands(Take(d, n).value, done + [On(n)])
  {
    hide PushAll, DistinctKeys, DisabledOf, Granted, NoneTwice, HeldBy, Many, HasMode;
    TakenIf(d, done, n);
    NoneTwiceNext(done, n);
    DisabledMore(done, On(n), 0);
    assert DisabledOf(done, 0) + [] == DisabledOf(done, 0);
    var next := Take(d, n).value;
    forall r: nat | r < 10
      ensures next.held[r] == HeldBy(done + [On(n)], r)
      ensures HasMode(r) ==> (r in next.seen <==> Granted(done + [On(n)], r) != [])
    {
      HeldNext(done, n, r);
      RanksAre(r);
    }
  }

  lemma PushesIff(held: seq<Grant>, grants: seq<Grant>, rank: nat, done: seq<Line>)
    requires held == Granted(done, rank) && NoneTwice(done) && rank < 10
    ensures rank <= 2 ==> (PushAll(held, grants).Some? <==> DistinctKeys(held + grants))
  {
    hide PushAll, DistinctKeys, Granted;
    if rank <= 2 {
      PushIff(held, grants);
    }
  }

  lemma KeepStands(d: Draft, done: seq<Line>, n: Node)
    requires Stands(d, done) && ValidNode(n)
    ensures Stands(Keep(d, n), done + [Off(n)])
  {
    hide DistinctKeys, DisabledOf, Granted;
    var all := done + [Off(n)];
    forall r: nat
      ensures Granted(all, r) == Granted(done, r)
    {
      GrantedNext(done, Off(n), r);
    }
    RanksAre(n.rank);
    DisabledMore(done, Off(n), 0);
  }

  /** What is granted twice stays granted twice. */
  lemma TwiceStays(a: seq<Line>, b: seq<Line>)
    requires NoneTwice(a + b)
    ensures NoneTwice(a)
  {
    hide Granted;
    forall rank: nat | rank < 10
      ensures if rank <= 2 then DistinctKeys(Granted(a, rank)) else |Granted(a, rank)| <= 1
    {
      GrantedConcat(a, b, rank);
      DistinctPrefix(Granted(a, rank), Granted(b, rank));
    }
  }

  lemma DistinctPrefix(a: seq<Grant>, b: seq<Grant>)
    ensures DistinctKeys(a + b) ==> DistinctKeys(a)
  {
    if DistinctKeys(a + b) {
      forall i, j | 0 <= i < j < |a|
        ensures a[i].key != a[j].key
      {
        assert (a + b)[i] == a[i] && (a + b)[j] == a[j];
      }
    }
  }

  lemma {:induction false} ReadStands(d: Draft, done: seq<Line>, rest: seq<Line>)
    requires Stands(d, done) && ValidLines(rest)
    ensures Read(d, rest).Some? <==> NoneTwice(done + rest)
    ensures Read(d, rest).Some? ==> Stands(Read(d, rest).value, done + rest)
    decreases |rest|
  {
    hide Stands, NoneTwice, Take, Keep;
    if rest == [] {
      assert done + rest == done;
      StandsFine(d, done);
    } else {
      var line := rest[0];
      assert done + rest == done + [line] + rest[1..];
      StandsFine(d, done);
      if line.On? {
        TakeStands(d, done, line.node);
        if Take(d, line.node).Some? {
          ReadStands(Take(d, line.node).value, done + [line], rest[1..]);
        } else if NoneTwice(done + rest) {
          TwiceStays(done + [line], rest[1..]);
        }
      } else {
        KeepStands(d, done, line.node);
        ReadStands(Keep(d, line.node), done + [line], rest[1..]);
      }
    }
  }

  lemma StandsFine(d: Draft, done: seq<Line>)
    requires Stands(d, done)
    ensures Shaped(d) && NoneTwice(done)
  {
    hide NoneTwice;
  }

  lemma StartStands()
    ensures Stands(EMPTY, [])
  {
  }

  /**
   A document is read just when nothing in it is granted twice. Each section then holds what its
   enabled nodes grant, in their order, a mode at its default counting as none; and the disabled
   entries are those of the document, each before what its own section was granted after it.
   */
  lemma ParseIsExact(lines: seq<Line>)
    requires ValidLines(lines)
    ensures Parse(lines).Some? <==> NoneTwice(lines)
    ensures Parse(lines).Some? ==>
              && (forall rank: nat :: rank < 10 ==> Parse(lines).value.held[rank] == HeldBy(lines, rank))
              && (forall rank: nat :: rank < 10 ==>
                    OfRank(Parse(lines).value.disabled, rank) == OfRank(DisabledOf(lines, 0), rank))
  {
    hide NoneTwice, HeldBy, DisabledOf, SortFrom, OfRank, Read;
    StartStands();
    ReadStands(EMPTY, [], lines);
    assert [] + lines == lines;
    if Parse(lines).Some? {
      forall rank: nat | rank < 10
        ensures OfRank(Parse(lines).value.disabled, rank) == OfRank(DisabledOf(lines, 0), rank)
      {
        SortIsStable(DisabledOf(lines, 0), 0, rank);
      }
    }
  }
}
