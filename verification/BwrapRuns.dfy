/**
 The finished command lines of all histories: how they read, what phase 1 says, and what the
 mounts show at the paths that matter.
 */
module BwrapRuns {
  import opened Results
  import opened Bwrap
  import opened BwrapPlan
  import opened Mounts
  import opened BwrapSafety

  // ----- writing the items out -----

  lemma {:induction false} EmitConcat(a: seq<Item>, b: seq<Item>, n: nat, alloc: Alloc)
    ensures Emit(a + b, n, alloc).Some? <==> Emit(a, n, alloc).Some? && Emit(b, n + |a|, alloc).Some?
    ensures Emit(a + b, n, alloc).Some? ==>
              Emit(a + b, n, alloc).value == Emit(a, n, alloc).value + Emit(b, n + |a|, alloc).value
    decreases |a|
  {
    hide ArgsOf;
    if a == [] {
      assert a + b == b;
      if Emit(b, n, alloc).Some? {
        assert [] + Emit(b, n, alloc).value == Emit(b, n, alloc).value;
      }
    } else {
      assert (a + b)[1..] == a[1..] + b;
      EmitConcat(a[1..], b, n + 1, alloc);
      if Emit(a + b, n, alloc).Some? {
        var op := Op(a[0].origin, ArgsOf(n, a[0].kind, alloc).value);
        assert [op] + (Emit(a[1..], n + 1, alloc).value + Emit(b, n + |a|, alloc).value)
            == [op] + Emit(a[1..], n + 1, alloc).value + Emit(b, n + |a|, alloc).value;
      }
    }
  }

  lemma {:induction false} FlattenConcat(a: seq<Op>, b: seq<Op>)
    ensures Flatten(a + b) == Flatten(a) + Flatten(b) && Lengths(a + b) == Lengths(a) + Lengths(b)
    ensures Lengths(a) == |Flatten(a)|
  {
    if a == [] {
      assert a + b == b;
    } else {
      assert (a + b)[1..] == a[1..] + b;
      FlattenConcat(a[1..], b);
    }
  }

  /** What an item becomes once named reads as options. */
  lemma NamedReads(i: Item, n: nat, alloc: Alloc)
    requires ArgsOf(n, i.kind, alloc).Some? && TidyItem(i)
    ensures var args := ArgsOf(n, i.kind, alloc).value;
            && Tidy(args)
            && (QuietItem(i) ==> Quiet(Settings(args).0))
            && (i.kind.InfoFd? ==> Settings(args).0 == [Setting(Opt.InfoFd, [args[1]])])
            && (i.kind.Data? ==>
                  && alloc(n, File(i.kind.dest, i.kind.content)).Some?
                  && Settings(args).0
                     == [Setting(Opt.RoBind,
                                 [alloc(n, File(i.kind.dest, i.kind.content)).value, Path(i.kind.dest)])])
  {
    hide Settings;
    var args := ArgsOf(n, i.kind, alloc).value;
    if i.kind.Data? {
      TwoReads(i.origin, Opt.RoBind, args[1], args[2]);
    } else if i.kind.InfoFd? {
      OneReads(i.origin, Opt.InfoFd, args[1]);
    } else if i.kind.BlockFd? {
      OneReads(i.origin, Opt.BlockFd, args[1]);
    } else if i.kind.Seccomp? {
      OneReads(i.origin, AddSeccompFd, args[1]);
    }
  }

  /** The options `items` are written as, the first of them being operation `n`. */
  function Written(items: seq<Item>, n: nat, alloc: Alloc): seq<Setting> {
    if items == [] || ArgsOf(n, items[0].kind, alloc).None? then []
    else Settings(ArgsOf(n, items[0].kind, alloc).value).0 + Written(items[1..], n + 1, alloc)
  }

  lemma {:induction false} WrittenConcat(a: seq<Item>, b: seq<Item>, n: nat, alloc: Alloc)
    requires Emit(a, n, alloc).Some?
    ensures Written(a + b, n, alloc) == Written(a, n, alloc) + Written(b, n + |a|, alloc)
    decreases |a|
  {
    hide ArgsOf, Settings;
    if a == [] {
      assert a + b == b;
    } else {
      assert (a + b)[1..] == a[1..] + b;
      WrittenConcat(a[1..], b, n + 1, alloc);
    }
  }

  lemma {:induction false} WhatIsWritten(items: seq<Item>, n: nat, alloc: Alloc)
    requires TidyItems(items) && Emit(items, n, alloc).Some?
    ensures OnlyOptions(Flatten(Emit(items, n, alloc).value))
    ensures Settings(Flatten(Emit(items, n, alloc).value)).0 == Written(items, n, alloc)
    ensures Paired(Written(items, n, alloc))
    ensures QuietItems(items) ==> Quiet(Written(items, n, alloc))
    decreases |items|
  {
    hide ArgsOf, Settings, TidyItem, QuietItem;
    SettingsStep([]);
    if items != [] {
      NamedReads(items[0], n, alloc);
      WhatIsWritten(items[1..], n + 1, alloc);
      var args := ArgsOf(n, items[0].kind, alloc).value;
      SettingsConcat(args, Flatten(Emit(items[1..], n + 1, alloc).value));
      PairedConcat(Settings(args).0, Written(items[1..], n + 1, alloc));
    }
  }

  lemma WrittenOne(i: Item, n: nat, alloc: Alloc)
    ensures ArgsOf(n, i.kind, alloc).Some? ==>
              Written([i], n, alloc) == Settings(ArgsOf(n, i.kind, alloc).value).0
  {
    hide ArgsOf, Settings;
    assert [i][1..] == [];
  }

  // ----- a finished history -----

  /** A history that panics nowhere, whose command line the allocator could complete. */
  ghost predicate Finishes(base: Base, calls: seq<Call>, command: seq<Word>, alloc: Alloc) {
    HostEtcs(calls) <= 1 && Finish(Draw(base, PlanOf(NOTHING, calls)), command, alloc).Some?
  }

  ghost function ArgvOf(base: Base, calls: seq<Call>, command: seq<Word>, alloc: Alloc): Argv
    requires Finishes(base, calls, command, alloc)
  {
    IntoArgv(Finish(Draw(base, PlanOf(NOTHING, calls)), command, alloc).value)
  }

  /** It is what the builder makes of the calls. */
  lemma ArgvIsTheBuilders(base: Base, calls: seq<Call>, command: seq<Word>, alloc: Alloc)
    requires Finishes(base, calls, command, alloc)
    ensures BaselineOf(base).namespaces != [] && Run(BaselineOf(base), calls).Some?
    ensures Finish(Run(BaselineOf(base), calls).value, command, alloc).Some?
    ensures IntoArgv(Finish(Run(BaselineOf(base), calls).value, command, alloc).value)
         == ArgvOf(base, calls, command, alloc)
  {
    hide Run, Draw, PlanOf, Finish, IntoArgv;
    OnlyASecondHostEtcPanics(base, calls);
  }

  lemma NothingIsSound()
    ensures SoundPlan(NOTHING)
  {
  }

  lemma TrailerStarts(s: Phases, socket: Word, command: seq<Word>)
    ensures var t := Flatten(Trailer(s, socket, command));
            t != [] && t[0] == Dashes
  {
    var trailer := Trailer(s, socket, command);
    assert trailer[0].args[0] == Dashes;
    assert Flatten(trailer) == trailer[0].args + Flatten(trailer[1..]);
  }

  /**
   Read as bwrap reads it, a finished command line is options up to exactly the place it
   remembers, where the double dash stands; a value that spells an option is never taken for one.
   */
  lemma ArgvReadsBack(base: Base, calls: seq<Call>, command: seq<Word>, alloc: Alloc)
    requires Finishes(base, calls, command, alloc)
    ensures var argv := ArgvOf(base, calls, command, alloc);
            && argv.commandAt < |argv.args|
            && argv.args[argv.commandAt] == Dashes
            && Settings(argv.args).1 == argv.args[argv.commandAt..]
            && Settings(argv.args).0 == Settings(argv.args[..argv.commandAt]).0
            && Settings(argv.args).0 == Written(Items(Draw(base, PlanOf(NOTHING, calls))), 0, alloc)
            && Paired(Settings(argv.args).0)
  {
    hide Settings, Emit, Draw, NamespacesOf, Outer, Written, Trailer, TidyItem, QuietItem, Flatten, Lengths;
    var p := PlanOf(NOTHING, calls);
    var s := Draw(base, p);
    NothingIsSound();
    PlanIsSound(NOTHING, calls);
    OuterIsPlain(base, p);
    NamespacesAreTidy(p);
    var items := Items(s);
    assert TidyItems(items);
    WhatIsWritten(items, 0, alloc);
    var ops := Emit(items, 0, alloc).value;
    var trailer := Trailer(s, alloc(|ops|, InitSocket).value, command);
    FlattenConcat(ops, trailer);
    TrailerStarts(s, alloc(|ops|, InitSocket).value, command);
    assert (ops + trailer)[..|ops|] == ops;
    SettingsConcat(Flatten(ops), Flatten(trailer));
    SettingsStep(Flatten(trailer));
    assert (Flatten(ops) + Flatten(trailer))[..|Flatten(ops)|] == Flatten(ops);
    assert (Flatten(ops) + Flatten(trailer))[|Flatten(ops)|..] == Flatten(trailer);
    assert Settings(Flatten(ops)).0 + [] == Settings(Flatten(ops)).0;
  }

  // ----- phase 1 -----

  /** How often an option is given. */
  function Times(ss: seq<Setting>, opt: Opt): nat {
    if ss == [] then 0 else (if ss[0].opt == opt then 1 else 0) + Times(ss[1..], opt)
  }

  /** bwrap takes `--disable-userns` only together with `--unshare-user`. */
  predicate Coupled(ss: seq<Setting>) {
    && (forall i :: 0 <= i < |ss| && ss[i].opt.UnshareUser? ==> i + 1 < |ss| && ss[i + 1].opt.DisableUserns?)
    && (forall i :: 0 <= i < |ss| && ss[i].opt.DisableUserns? ==> i > 0 && ss[i - 1].opt.UnshareUser?)
  }

  function LastDir(calls: seq<Call>, dir: Parts): Parts {
    if calls == [] then dir else LastDir(calls[1..], if calls[0].Chdir? then calls[0].dir else dir)
  }

  function LastTmpSize(calls: seq<Call>, bytes: nat): nat {
    if calls == [] then bytes else LastTmpSize(calls[1..], if calls[0].TmpSize? then calls[0].bytes else bytes)
  }

  /** The operations that forbid nested user namespaces. */
  function Pairs(items: seq<Item>): nat {
    if items == [] then 0 else (if IsLedBy(items[0], UnshareUser) then 1 else 0) + Pairs(items[1..])
  }

  lemma {:induction false} TimesConcat(a: seq<Setting>, b: seq<Setting>, opt: Opt)
    ensures Times(a + b, opt) == Times(a, opt) + Times(b, opt)
  {
    if a == [] {
      assert a + b == b;
    } else {
      assert (a + b)[1..] == a[1..] + b;
      TimesConcat(a[1..], b, opt);
    }
  }

  lemma {:induction false} QuietTimes(ss: seq<Setting>, opt: Opt)
    requires Quiet(ss) && PhaseOne(opt)
    ensures Times(ss, opt) == 0 && Coupled(ss)
  {
    if ss != [] {
      QuietTimes(ss[1..], opt);
    }
  }

  lemma CoupledConcat(a: seq<Setting>, b: seq<Setting>)
    requires Coupled(a) && Coupled(b)
    ensures Coupled(a + b)
  {
  }

  lemma {:induction false} PairsConcat(a: seq<Item>, b: seq<Item>)
    ensures Pairs(a + b) == Pairs(a) + Pairs(b)
  {
    hide IsLedBy;
    if a == [] {
      assert a + b == b;
    } else {
      assert (a + b)[1..] == a[1..] + b;
      PairsConcat(a[1..], b);
    }
  }

  lemma {:induction false} PairsMeansSome(items: seq<Item>)
    ensures Pairs(items) > 0 <==> HasPair(items)
  {
    hide IsLedBy;
    if items != [] {
      PairsMeansSome(items[1..]);
      if HasPair(items) && !IsLedBy(items[0], UnshareUser) {
        var k :| 0 <= k < |items| && IsLedBy(items[k], UnshareUser);
        assert IsLedBy(items[1..][k - 1], UnshareUser);
      }
      if HasPair(items[1..]) {
        var k :| 0 <= k < |items[1..]| && IsLedBy(items[1..][k], UnshareUser);
        assert IsLedBy(items[k + 1], UnshareUser);
      }
    }
  }

  predicate Given(calls: seq<Call>, c: Call) {
    exists i :: 0 <= i < |calls| && calls[i] == c
  }

  lemma GivenFrom(calls: seq<Call>, c: Call)
    requires calls != []
    ensures Given(calls, c) <==> calls[0] == c || Given(calls[1..], c)
  {
    if Given(calls, c) && calls[0] != c {
      var i :| 0 <= i < |calls| && calls[i] == c;
      assert calls[1..][i - 1] == c;
    }
    if Given(calls[1..], c) {
      var i :| 0 <= i < |calls[1..]| && calls[1..][i] == c;
      assert calls[i + 1] == c;
    }
  }

  lemma NextRemembers(p: Plan, c: Call)
    requires Pairs(p.later) <= 1
    ensures Next(p, c).share.Some? <==> p.share.Some? || c == Call.ShareNet
    ensures Next(p, c).dir == if c.Chdir? then c.dir else p.dir
    ensures Next(p, c).tmp.1 == if c.TmpSize? then c.bytes else p.tmp.1
    ensures Pairs(Next(p, c).later) == if c == Call.DisableUserns then 1 else Pairs(p.later)
  {
    hide Pushed, HasPair, Pairs;
    PairsMeansSome(p.later);
    OnePair(p.origin);
    if Next(p, c).later != p.later {
      PairsConcat(p.later, [Next(p, c).later[|p.later|]]);
    }
    if c.BlockUntilReleased? {
      NotAPair(Item(p.origin, Kind.BlockFd));
    } else if c.AddSeccomp? {
      NotAPair(Item(p.origin, Kind.Seccomp(c.program, c.arches)));
    }
  }

  lemma OnePair(origin: Origin)
    ensures Pairs([UsernsPair(origin)]) == 1
  {
  }

  lemma NotAPair(i: Item)
    requires !i.kind.Args?
    ensures Pairs([i]) == 0
  {
  }

  lemma {:induction false} PlanRemembers(p: Plan, calls: seq<Call>)
    requires Pairs(p.later) <= 1
    ensures var q := PlanOf(p, calls);
            && (q.share.Some? <==> p.share.Some? || Given(calls, Call.ShareNet))
            && q.dir == LastDir(calls, p.dir)
            && q.tmp.1 == LastTmpSize(calls, p.tmp.1)
            && Pairs(q.later) == if Given(calls, Call.DisableUserns) then 1 else Pairs(p.later)
    decreases |calls|
  {
    hide Next, Pairs, Given;
    if calls == [] {
      NothingGiven(Call.ShareNet);
      NothingGiven(Call.DisableUserns);
    } else {
      NextRemembers(p, calls[0]);
      PlanRemembers(Next(p, calls[0]), calls[1..]);
      GivenFrom(calls, Call.ShareNet);
      GivenFrom(calls, Call.DisableUserns);
    }
  }

  lemma NothingGiven(c: Call)
    ensures !Given([], c)
  {
  }

  /** An item written as one option. */
  predicate Single(i: Item) {
    Literal(i.kind) ==> |Settings(i.kind.args).0| == 1
  }

  lemma {:induction false} SinglesAreWritten(items: seq<Item>, n: nat, alloc: Alloc)
    requires TidyItems(items) && Emit(items, n, alloc).Some?
    requires forall i :: 0 <= i < |items| ==> Single(items[i])
    ensures |Written(items, n, alloc)| == |items|
    ensures forall k :: 0 <= k < |items| && Literal(items[k].kind) ==>
              [Written(items, n, alloc)[k]] == Settings(items[k].kind.args).0
    ensures forall k :: 0 <= k < |items| && items[k].kind.InfoFd? ==>
              Written(items, n, alloc)[k].opt == Opt.InfoFd
    decreases |items|
  {
    hide Settings, Tidy;
    if items != [] {
      NamedReads(items[0], n, alloc);
      OtherwiseOne(items[0], n, alloc);
      SinglesAreWritten(items[1..], n + 1, alloc);
    }
  }

  lemma OtherwiseOne(i: Item, n: nat, alloc: Alloc)
    requires ArgsOf(n, i.kind, alloc).Some? && Single(i) && TidyItem(i)
    ensures |Settings(ArgsOf(n, i.kind, alloc).value).0| == 1
  {
    hide Settings, Tidy;
    NamedReads(i, n, alloc);
    var args := ArgsOf(n, i.kind, alloc).value;
    if i.kind.BlockFd? {
      OneReads(i.origin, Opt.BlockFd, args[1]);
    } else if i.kind.Seccomp? {
      OneReads(i.origin, AddSeccompFd, args[1]);
    }
  }

  /** Phase 1 without what calls append to it. */
  function FixedNamespaces(p: Plan): seq<Item> {
    NamespacesHead() + Shared(p.share) + NamespacesTail(p.dir)
  }

  function FixedSettings(p: Plan, fd: Setting): seq<Setting> {
    [Setting(UnshareAll, [])]
    + (if p.share.Some? then [Setting(Opt.ShareNet, [])] else [])
    + [Setting(DieWithParent, []), Setting(NewSession, []), Setting(Hostname, [Text("bubbler")]),
       Setting(Opt.Chdir, [Path(p.dir)]), fd]
  }

  lemma FixedAreWritten(p: Plan, alloc: Alloc)
    requires Emit(FixedNamespaces(p), 0, alloc).Some?
    ensures exists fd: Setting :: fd.opt.InfoFd? && Written(FixedNamespaces(p), 0, alloc) == FixedSettings(p, fd)
  {
    hide Settings, Tidy, Emit, Written;
    var items := FixedNamespaces(p);
    var b := Origin.Baseline;
    BareReads(b, UnshareAll);
    if p.share.Some? {
      BareReads(p.share.value, Opt.ShareNet);
    }
    BareReads(b, DieWithParent);
    BareReads(b, NewSession);
    OneReads(b, Hostname, Text("bubbler"));
    OneReads(b, Opt.Chdir, Path(p.dir));
    SinglesAreWritten(items, 0, alloc);
    var fd := Written(items, 0, alloc)[|items| - 1];
    assert Written(items, 0, alloc) == FixedSettings(p, fd);
  }

  lemma LaterItemIsWritten(i: Item, n: nat, alloc: Alloc)
    requires LaterItem(i) && ArgsOf(n, i.kind, alloc).Some?
    ensures var ss := Settings(ArgsOf(n, i.kind, alloc).value).0;
            && Coupled(ss)
            && Times(ss, UnshareAll) == Times(ss, Opt.ShareNet) == Times(ss, Opt.Chdir) == 0
            && Times(ss, UnshareUser) == Times(ss, Opt.DisableUserns) == Pairs([i])
  {
    hide Settings, Times, Pairs;
    var args := ArgsOf(n, i.kind, alloc).value;
    if i.kind.BlockFd? {
      OneReads(i.origin, Opt.BlockFd, args[1]);
      TimesOfOne(Setting(Opt.BlockFd, [args[1]]));
      NotAPair(i);
    } else if i.kind.Seccomp? {
      OneReads(i.origin, AddSeccompFd, args[1]);
      TimesOfOne(Setting(AddSeccompFd, [args[1]]));
      NotAPair(i);
    } else {
      PairReads(i.origin);
      TimesOfPair();
      OnePair(i.origin);
    }
  }

  lemma TimesOfPair()
    ensures var ss := [Setting(UnshareUser, []), Setting(Opt.DisableUserns, [])];
            && Coupled(ss)
            && Times(ss, UnshareAll) == Times(ss, Opt.ShareNet) == Times(ss, Opt.Chdir) == 0
            && Times(ss, UnshareUser) == Times(ss, Opt.DisableUserns) == 1
  {
    var ss := [Setting(UnshareUser, []), Setting(Opt.DisableUserns, [])];
    assert ss[1..] == [Setting(Opt.DisableUserns, [])];
    assert ss[1..][1..] == [];
  }

  lemma {:induction false} LaterIsWritten(items: seq<Item>, n: nat, alloc: Alloc)
    requires Emit(items, n, alloc).Some? && forall i :: 0 <= i < |items| ==> LaterItem(items[i])
    ensures var ss := Written(items, n, alloc);
            && Coupled(ss)
            && Times(ss, UnshareAll) == Times(ss, Opt.ShareNet) == Times(ss, Opt.Chdir) == 0
            && Times(ss, UnshareUser) == Times(ss, Opt.DisableUserns) == Pairs(items)
    decreases |items|
  {
    hide ArgsOf, Settings, LaterItem, Times, Pairs, Coupled;
    if items == [] {
      NoTimes();
    } else {
      LaterItemIsWritten(items[0], n, alloc);
      LaterIsWritten(items[1..], n + 1, alloc);
      var a := Settings(ArgsOf(n, items[0].kind, alloc).value).0;
      var b := Written(items[1..], n + 1, alloc);
      TimesOfBoth(a, b);
      CoupledConcat(a, b);
      assert items == [items[0]] + items[1..];
      PairsConcat([items[0]], items[1..]);
    }
  }

  lemma TimesOfBoth(a: seq<Setting>, b: seq<Setting>)
    ensures forall opt :: Times(a + b, opt) == Times(a, opt) + Times(b, opt)
  {
    forall opt
      ensures Times(a + b, opt) == Times(a, opt) + Times(b, opt)
    {
      TimesConcat(a, b, opt);
    }
  }

  lemma NoTimes()
    ensures Coupled([]) && Pairs([]) == 0 && forall opt :: Times([], opt) == 0
  {
  }

  lemma FixedTimes(p: Plan, fd: Setting)
    requires fd.opt.InfoFd?
    ensures var ss := FixedSettings(p, fd);
            && Coupled(ss)
            && Times(ss, UnshareAll) == 1
            && Times(ss, Opt.ShareNet) == (if p.share.Some? then 1 else 0)
            && Times(ss, Opt.Chdir) == 1
            && Times(ss, UnshareUser) == Times(ss, Opt.DisableUserns) == 0
  {
    hide Times;
    var head, share := [Setting(UnshareAll, [])], if p.share.Some? then [Setting(Opt.ShareNet, [])] else [];
    var dirs := [Setting(Opt.Chdir, [Path(p.dir)])];
    var rest := [Setting(DieWithParent, []), Setting(NewSession, []), Setting(Hostname, [Text("bubbler")])];
    assert FixedSettings(p, fd) == head + (share + (rest + (dirs + [fd])));
    TimesOfBoth(head, share + (rest + (dirs + [fd])));
    TimesOfBoth(share, rest + (dirs + [fd]));
    TimesOfBoth(rest, dirs + [fd]);
    TimesOfBoth(dirs, [fd]);
    TimesOfOne(head[0]);
    TimesOfOne(dirs[0]);
    TimesOfOne(fd);
    NoTimes();
    if p.share.Some? {
      TimesOfOne(share[0]);
    }
    QuietTimes(rest, UnshareAll);
    QuietTimes(rest, Opt.ShareNet);
    QuietTimes(rest, Opt.Chdir);
    QuietTimes(rest, UnshareUser);
    QuietTimes(rest, Opt.DisableUserns);
  }

  lemma TimesOfOne(s: Setting)
    ensures forall opt :: Times([s], opt) == if s.opt == opt then 1 else 0
  {
  }

  /** Where the options of phase 1 stand and how often, in the whole of every finished command line. */
  lemma PhaseOneHolds(base: Base, calls: seq<Call>, command: seq<Word>, alloc: Alloc)
    requires Finishes(base, calls, command, alloc)
    ensures var ss := Settings(ArgvOf(base, calls, command, alloc).args).0;
            var net := Given(calls, Call.ShareNet);
            && |ss| > 5
            && ss[0].opt.UnshareAll? && Times(ss, UnshareAll) == 1
            && Times(ss, Opt.ShareNet) == (if net then 1 else 0) && (net ==> ss[1].opt.ShareNet?)
            && Times(ss, Opt.Chdir) == 1
            && ss[if net then 5 else 4] == Setting(Opt.Chdir, [Path(LastDir(calls, SANDBOX_HOME))])
            && Coupled(ss)
            && Times(ss, Opt.DisableUserns) == (if Given(calls, Call.DisableUserns) then 1 else 0)
  {
    hide Settings, Emit, Draw, Outer, Written, Items, ArgvOf, TidyItem, QuietItem, Given, Times, Pairs, Coupled,
         NamespacesHead, NamespacesTail, FixedSettings, FixedNamespaces, PlanOf, LastDir, Finishes, Finish,
         HostEtcs;
    var p := PlanOf(NOTHING, calls);
    FinishesIs(base, calls, command, alloc);
    NothingIsSound();
    NoTimes();
    PlanRemembers(NOTHING, calls);
    PlanIsSound(NOTHING, calls);
    OuterIsPlain(base, p);
    ArgvReadsBack(base, calls, command, alloc);
    EmittedParts(base, p, command, alloc);
    var n := |FixedNamespaces(p)|;
    FixedAreWritten(p, alloc);
    var fd: Setting :| fd.opt.InfoFd? && Written(FixedNamespaces(p), 0, alloc) == FixedSettings(p, fd);
    var fixed, later := FixedSettings(p, fd), Written(p.later, n, alloc);
    var outer := Written(Outer(base, p), n + |p.later|, alloc);
    FixedTimes(p, fd);
    FixedPlaces(p, fd);
    LaterIsWritten(p.later, n, alloc);
    WhatIsWritten(Outer(base, p), n + |p.later|, alloc);
    PartsJoined(fixed, later, outer);
    assert Settings(ArgvOf(base, calls, command, alloc).args).0 == fixed + later + outer;
  }

  lemma PartsJoined(fixed: seq<Setting>, later: seq<Setting>, outer: seq<Setting>)
    requires Coupled(fixed) && Coupled(later) && Quiet(outer)
    ensures Coupled(fixed + later + outer)
    ensures forall opt :: PhaseOne(opt) ==> Times(fixed + later + outer, opt) == Times(fixed, opt) + Times(later, opt)
  {
    hide Times, Quiet, Coupled;
    forall opt | PhaseOne(opt)
      ensures Times(fixed + later + outer, opt) == Times(fixed, opt) + Times(later, opt)
    {
      QuietTimes(outer, opt);
      TimesConcat(fixed, later, opt);
      TimesConcat(fixed + later, outer, opt);
    }
    QuietTimes(outer, UnshareAll);
    CoupledConcat(fixed, later);
    CoupledConcat(fixed + later, outer);
  }

  lemma FinishesIs(base: Base, calls: seq<Call>, command: seq<Word>, alloc: Alloc)
    requires Finishes(base, calls, command, alloc)
    ensures Finish(Draw(base, PlanOf(NOTHING, calls)), command, alloc).Some?
  {
  }

  lemma FixedPlaces(p: Plan, fd: Setting)
    ensures var ss := FixedSettings(p, fd);
            && |ss| > 5 && ss[0].opt.UnshareAll? && (p.share.Some? ==> |ss| == 7 && ss[1].opt.ShareNet?)
            && ss[if p.share.Some? then 5 else 4] == Setting(Opt.Chdir, [Path(p.dir)])
  {
  }

  /** The parts a finished command line is written in. */
  lemma EmittedParts(base: Base, p: Plan, command: seq<Word>, alloc: Alloc)
    requires SoundPlan(p) && Finish(Draw(base, p), command, alloc).Some?
    ensures var n := |FixedNamespaces(p)|;
            && Emit(FixedNamespaces(p), 0, alloc).Some?
            && Emit(p.later, n, alloc).Some?
            && Emit(Outer(base, p), n + |p.later|, alloc).Some?
            && Written(Items(Draw(base, p)), 0, alloc)
               == Written(FixedNamespaces(p), 0, alloc) + Written(p.later, n, alloc)
                  + Written(Outer(base, p), n + |p.later|, alloc)
  {
    hide Emit, Draw, Outer, Written, Items, Plain, NamespacesHead, NamespacesTail;
    OuterIsPlain(base, p);
    var fixed := FixedNamespaces(p);
    assert NamespacesOf(p) == fixed + p.later;
    EmitConcat(fixed + p.later, Outer(base, p), 0, alloc);
    EmitConcat(fixed, p.later, 0, alloc);
    WrittenConcat(fixed + p.later, Outer(base, p), 0, alloc);
    WrittenConcat(fixed, p.later, 0, alloc);
  }
}
