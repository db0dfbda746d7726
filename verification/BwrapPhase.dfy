/** The options a finished command line begins with, one by one, each call's in its place. */
module BwrapPhase {
  import opened Results
  import opened Bwrap
  import opened BwrapPlan
  import opened Mounts
  import opened BwrapSafety
  import opened BwrapRuns
  import opened BwrapMounts

  /**
   What the calls append to phase 1, in their order: the pair that forbids user namespaces, at the
   first time it is asked for, the pipe that holds the command back, and the filters.
   */
  ghost predicate LaterAre(calls: seq<Call>, paired: bool, ss: seq<Setting>, alloc: Alloc)
    decreases |calls|
  {
    if calls == [] then ss == []
    else if calls[0].DisableUserns? && !paired then
      && |ss| >= 2 && ss[0] == Setting(UnshareUser, []) && ss[1] == Setting(Opt.DisableUserns, [])
      && LaterAre(calls[1..], true, ss[2..], alloc)
    else if calls[0].BlockUntilReleased? then
      |ss| >= 1 && Asked(ss[0], Opt.BlockFd, BlockPipe, alloc) && LaterAre(calls[1..], paired, ss[1..], alloc)
    else if calls[0].AddSeccomp? then
      && |ss| >= 1 && Asked(ss[0], AddSeccompFd, Program(calls[0].program), alloc)
      && LaterAre(calls[1..], paired, ss[1..], alloc)
    else LaterAre(calls[1..], paired, ss, alloc)
  }

  /** The option with what the allocator gave for it. */
  ghost predicate Asked(s: Setting, opt: Opt, ask: Ask, alloc: Alloc) {
    exists n: nat :: alloc(n, ask).Some? && s == Setting(opt, [alloc(n, ask).value])
  }

  /** What the calls push to phase 1. */
  function LaterItems(calls: seq<Call>, origin: Origin, paired: bool): seq<Item> {
    if calls == [] then []
    else
      var c := calls[0];
      (if c.DisableUserns? && !paired then [UsernsPair(origin)]
       else if c.BlockUntilReleased? then [Item(origin, Kind.BlockFd)]
       else if c.AddSeccomp? then [Item(origin, Kind.Seccomp(c.program, c.arches))]
       else [])
      + LaterItems(calls[1..], if c.Tag? then c.origin else origin, paired || c.DisableUserns?)
  }

  lemma NextLater(p: Plan, c: Call)
    ensures var q := Next(p, c);
            && q.origin == (if c.Tag? then c.origin else p.origin)
            && HasPair(q.later) == (HasPair(p.later) || c.DisableUserns?)
            && q.later == p.later + (if c.DisableUserns? && !HasPair(p.later) then [UsernsPair(p.origin)]
                                     else if c.BlockUntilReleased? then [Item(p.origin, Kind.BlockFd)]
                                     else if c.AddSeccomp? then [Item(p.origin, Kind.Seccomp(c.program, c.arches))]
                                     else [])
  {
    hide Pushed, HasPair;
    assert p.later + [] == p.later;
    PairAfter(p.later, UsernsPair(p.origin));
    PairAfter(p.later, Item(p.origin, Kind.BlockFd));
    if c.AddSeccomp? {
      PairAfter(p.later, Item(p.origin, Kind.Seccomp(c.program, c.arches)));
    }
  }

  lemma PairAfter(items: seq<Item>, i: Item)
    ensures HasPair(items + [i]) <==> HasPair(items) || IsLedBy(i, UnshareUser)
  {
    hide IsLedBy;
    var all := items + [i];
    if HasPair(items) {
      var k :| 0 <= k < |items| && IsLedBy(items[k], UnshareUser);
      assert IsLedBy(all[k], UnshareUser);
    }
    if IsLedBy(i, UnshareUser) {
      assert IsLedBy(all[|items|], UnshareUser);
    }
  }

  lemma {:induction false} PlanLater(p: Plan, calls: seq<Call>)
    ensures PlanOf(p, calls).later == p.later + LaterItems(calls, p.origin, HasPair(p.later))
    decreases |calls|
  {
    hide Next, HasPair;
    if calls != [] {
      NextLater(p, calls[0]);
      PlanLater(Next(p, calls[0]), calls[1..]);
    }
  }

  lemma PairIsWritten(origin: Origin, n: nat, alloc: Alloc)
    ensures Emit([UsernsPair(origin)], n, alloc).Some?
    ensures Written([UsernsPair(origin)], n, alloc) == [Setting(UnshareUser, []), Setting(Opt.DisableUserns, [])]
  {
    hide Settings;
    PairReads(origin);
    LiteralWritten(UsernsPair(origin), n, alloc);
  }

  lemma BlockIsWritten(origin: Origin, n: nat, alloc: Alloc)
    requires Emit([Item(origin, Kind.BlockFd)], n, alloc).Some?
    ensures var ss := Written([Item(origin, Kind.BlockFd)], n, alloc);
            |ss| == 1 && Asked(ss[0], Opt.BlockFd, BlockPipe, alloc)
  {
    hide Settings, Written;
    var i := Item(origin, Kind.BlockFd);
    EmitSome(i, n, alloc);
    WrittenOne(i, n, alloc);
    OneReads(origin, Opt.BlockFd, alloc(n, BlockPipe).value);
  }

  lemma SeccompIsWritten(origin: Origin, program: seq<bv8>, arches: string, n: nat, alloc: Alloc)
    requires Emit([Item(origin, Kind.Seccomp(program, arches))], n, alloc).Some?
    ensures var ss := Written([Item(origin, Kind.Seccomp(program, arches))], n, alloc);
            |ss| == 1 && Asked(ss[0], AddSeccompFd, Program(program), alloc)
  {
    hide Settings, Written;
    var i := Item(origin, Kind.Seccomp(program, arches));
    EmitSome(i, n, alloc);
    WrittenOne(i, n, alloc);
    OneReads(origin, AddSeccompFd, alloc(n, Program(program)).value);
  }

  lemma InfoIsWritten(origin: Origin, n: nat, alloc: Alloc)
    requires Emit([Item(origin, Kind.InfoFd)], n, alloc).Some?
    ensures var ss := Written([Item(origin, Kind.InfoFd)], n, alloc);
            |ss| == 1 && Asked(ss[0], Opt.InfoFd, InfoPipe, alloc)
  {
    hide Settings, Written;
    var i := Item(origin, Kind.InfoFd);
    EmitSome(i, n, alloc);
    WrittenOne(i, n, alloc);
    OneReads(origin, Opt.InfoFd, alloc(n, InfoPipe).value);
  }

  lemma {:induction false} LaterAreWritten(calls: seq<Call>, origin: Origin, paired: bool, n: nat, alloc: Alloc)
    requires Emit(LaterItems(calls, origin, paired), n, alloc).Some?
    ensures LaterAre(calls, paired, Written(LaterItems(calls, origin, paired), n, alloc), alloc)
    decreases |calls|
  {
    hide Written, Emit, Asked;
    if calls == [] {
      EmitNothing(n, alloc);
    } else {
      var c := calls[0];
      var next := if c.Tag? then c.origin else origin;
      var rest := LaterItems(calls[1..], next, paired || c.DisableUserns?);
      if c.DisableUserns? && !paired {
        PairIsWritten(origin, n, alloc);
        LaterThen([UsernsPair(origin)], rest, n, alloc);
      } else if c.BlockUntilReleased? {
        LaterThen([Item(origin, Kind.BlockFd)], rest, n, alloc);
        BlockIsWritten(origin, n, alloc);
      } else if c.AddSeccomp? {
        LaterThen([Item(origin, Kind.Seccomp(c.program, c.arches))], rest, n, alloc);
        SeccompIsWritten(origin, c.program, c.arches, n, alloc);
      } else {
        assert [] + rest == rest;
      }
      var at := n + |LaterItems(calls, origin, paired)| - |rest|;
      LaterAreWritten(calls[1..], next, paired || c.DisableUserns?, at, alloc);
    }
  }

  lemma LaterThen(a: seq<Item>, b: seq<Item>, n: nat, alloc: Alloc)
    requires Emit(a + b, n, alloc).Some? && |a| == 1
    ensures Emit(a, n, alloc).Some? && Emit(b, n + 1, alloc).Some?
    ensures Written(a + b, n, alloc) == Written(a, n, alloc) + Written(b, n + 1, alloc)
    ensures Written(a + b, n, alloc)[|Written(a, n, alloc)|..] == Written(b, n + 1, alloc)
  {
    hide Written, Emit;
    EmitConcat(a, b, n, alloc);
    WrittenConcat(a, b, n, alloc);
  }

  lemma FixedAreTheFirst(p: Plan, alloc: Alloc) returns (info: Setting)
    requires Emit(FixedNamespaces(p), 0, alloc).Some?
    ensures Asked(info, Opt.InfoFd, InfoPipe, alloc)
    ensures Written(FixedNamespaces(p), 0, alloc) == FixedSettings(p, info)
  {
    hide Settings, Tidy, Emit, Written, Asked;
    var items := FixedNamespaces(p);
    var front, last := items[..|items| - 1], items[|items| - 1];
    assert items == front + [last];
    FixedAreWritten(p, alloc);
    var fd: Setting :| fd.opt.InfoFd? && Written(items, 0, alloc) == FixedSettings(p, fd);
    EmitConcat(front, [last], 0, alloc);
    WrittenConcat(front, [last], 0, alloc);
    InfoIsWritten(Origin.Baseline, |front|, alloc);
    info := Written([last], |front|, alloc)[0];
    LastOfBoth(Written(front, 0, alloc), info, Written(items, 0, alloc));
    assert FixedSettings(p, fd)[|FixedSettings(p, fd)| - 1] == fd;
  }

  lemma LastOfBoth(a: seq<Setting>, last: Setting, all: seq<Setting>)
    requires all == a + [last]
    ensures all != [] && all[|all| - 1] == last
  {
  }

  lemma DirIsWritten(base: Base, n: nat, alloc: Alloc)
    ensures Emit(RuntimeDirOf(base), n, alloc).Some?
    ensures Written(RuntimeDirOf(base), n, alloc)
         == [Setting(Perms, [Text("0700")]), Setting(Dir, [Path(base.runtimeDir)])]
  {
    hide Settings;
    RuntimeDirReads(base);
    LiteralWritten(RuntimeDirOf(base)[0], n, alloc);
    assert RuntimeDirOf(base) == [RuntimeDirOf(base)[0]];
  }

  /** What follows phase 1 makes the runtime directory, for its owner alone. */
  lemma OuterMakesDir(base: Base, p: Plan, n: nat, alloc: Alloc)
    requires Emit(Outer(base, p), n, alloc).Some?
    ensures MakesDir(Written(Outer(base, p), n, alloc), base.runtimeDir)
  {
    hide Emit, Written, SkeletonOf, RuntimeDirOf, MasksOf, EnvOf;
    var a, dir, b := SkeletonOf(base, p), RuntimeDirOf(base), p.binds + MasksOf(p.masks) + (EnvOf(base) + p.env);
    assert Outer(base, p) == a + dir + b;
    EmitConcat(a + dir, b, n, alloc);
    EmitConcat(a, dir, n, alloc);
    WrittenConcat(a + dir, b, n, alloc);
    WrittenConcat(a, dir, n, alloc);
    DirIsWritten(base, n + |a|, alloc);
    DirWithin(Written(a, n, alloc), Written(b, n + |a + dir|, alloc), base.runtimeDir);
  }

  ghost predicate MakesDir(ss: seq<Setting>, dir: Parts) {
    exists i: nat :: i + 1 < |ss| && ss[i] == Setting(Perms, [Text("0700")]) && ss[i + 1] == Setting(Dir, [Path(dir)])
  }

  lemma DirWithin(a: seq<Setting>, b: seq<Setting>, dir: Parts)
    ensures MakesDir(a + [Setting(Perms, [Text("0700")]), Setting(Dir, [Path(dir)])] + b, dir)
  {
    var all := a + [Setting(Perms, [Text("0700")]), Setting(Dir, [Path(dir)])] + b;
    assert all[|a|] == Setting(Perms, [Text("0700")]) && all[|a| + 1] == Setting(Dir, [Path(dir)]);
  }

  /** The first options: namespaces of its own, the network if asked for, and the last directory asked for. */
  function FirstOptions(calls: seq<Call>): seq<Setting> {
    [Setting(UnshareAll, [])]
    + (if Given(calls, Call.ShareNet) then [Setting(Opt.ShareNet, [])] else [])
    + [Setting(DieWithParent, []), Setting(NewSession, []), Setting(Hostname, [Text("bubbler")]),
       Setting(Opt.Chdir, [Path(LastDir(calls, ["home", "bubbler"]))])]
  }

  /** A command line in parts: what it begins with, what the calls append there, and all that mounts and sets. */
  ghost predicate InParts(
    ss: seq<Setting>, calls: seq<Call>, alloc: Alloc, dir: Parts,
    info: Setting, later: seq<Setting>, rest: seq<Setting>)
  {
    && ss == FirstOptions(calls) + [info] + later + rest
    && Asked(info, Opt.InfoFd, InfoPipe, alloc) && LaterAre(calls, false, later, alloc)
    && Quiet(rest) && MakesDir(rest, dir)
  }

  /** Every finished command line is in those parts, whatever was called. */
  lemma PhaseOneIs(base: Base, calls: seq<Call>, command: seq<Word>, alloc: Alloc)
    requires Finishes(base, calls, command, alloc)
    ensures exists info: Setting, later: seq<Setting>, rest: seq<Setting> ::
              InParts(Settings(ArgvOf(base, calls, command, alloc).args).0, calls, alloc, base.runtimeDir, info,
                  later, rest)
  {
    hide Settings, Emit, Draw, Outer, Written, Items, ArgvOf, TidyItem, QuietItem, Given, Times, Pairs,
         FixedNamespaces, PlanOf, LastDir, Finishes, Finish, HostEtcs, LaterAre, LaterItems, Asked, Quiet, MakesDir,
         Coupled;
    var p := PlanOf(NOTHING, calls);
    FinishesIs(base, calls, command, alloc);
    NothingIsSound();
    NoTimes();
    PlanRemembers(NOTHING, calls);
    PlanIsSound(NOTHING, calls);
    OuterIsPlain(base, p);
    ArgvReadsBack(base, calls, command, alloc);
    EmittedParts(base, p, command, alloc);
    var n := |FixedNamespaces(p)|;
    var info := FixedAreTheFirst(p, alloc);
    PlanLater(NOTHING, calls);
    NoPair();
    assert [] + LaterItems(calls, Origin.Baseline, false) == LaterItems(calls, Origin.Baseline, false);
    LaterAreWritten(calls, Origin.Baseline, false, n, alloc);
    var later := Written(p.later, n, alloc);
    var rest := Written(Outer(base, p), n + |p.later|, alloc);
    WhatIsWritten(Outer(base, p), n + |p.later|, alloc);
    OuterMakesDir(base, p, n + |p.later|, alloc);
    assert FixedSettings(p, info) == FirstOptions(calls) + [info];
    assert InParts(Settings(ArgvOf(base, calls, command, alloc).args).0, calls, alloc, base.runtimeDir, info, later,
        rest);
  }

  lemma NoPair()
    ensures !HasPair([]) && NOTHING.origin == Origin.Baseline
  {
  }
}
