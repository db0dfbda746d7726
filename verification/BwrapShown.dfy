/**
 What a sandbox sees where a call reaches: the last call whose destination is at or above a path
 decides, by a table of its own; and where none reaches, the fixed mounts of the baseline.
 */
module BwrapShown {
  import opened Results
  import opened Bwrap
  import opened BwrapPlan
  import opened Mounts
  import opened BwrapSafety
  import opened BwrapRuns
  import opened BwrapMounts

  /** What a call puts at a path: nothing, something of the host's or a link, or a file written for it. */
  datatype Effect = Nothing | Mounts(shown: Shown) | Writes(dest: Parts, content: string)

  /** Read-only binds are read-only, the others writable; a `-try` bind needs its source to be there. */
  function EffectOf(c: Call, path: Parts, there: set<Word>): Effect {
    match c
    case RoBind(src, dst) => if dst <= path then Mounts(Bound(Path(src), true)) else Nothing
    case Bind(src, dst) => if dst <= path then Mounts(Bound(Path(src), false)) else Nothing
    case DevBind(src, dst) => if dst <= path then Mounts(Bound(Path(src), false)) else Nothing
    case DevBindTry(src, dst) =>
      if dst <= path && Path(src) in there then Mounts(Bound(Path(src), false)) else Nothing
    case Symlink(target, link) => if link <= path then Mounts(Linked(target)) else Nothing
    case BindInit(hostPath) =>
      if ["run", "bubbler-init"] <= path then Mounts(Bound(Path(hostPath), true)) else Nothing
    case FlatpakSpawnShim(hostPath) =>
      if ["usr", "bin", "flatpak-spawn"] <= path then Mounts(Bound(Path(hostPath), true))
      else if ["usr", "bin"] <= path then Mounts(Layered(true))
      else Nothing
    case RoBindData(content, dest) => if dest <= path then Writes(dest, content) else Nothing
    case _ => Nothing
  }

  /** What the last call that puts something there puts there. */
  function LastEffect(calls: seq<Call>, path: Parts, there: set<Word>): Effect {
    if calls == [] then Nothing
    else if LastEffect(calls[1..], path, there) != Nothing then LastEffect(calls[1..], path, there)
    else EffectOf(calls[0], path, there)
  }

  /** `seen` is what was placed, and `was` where nothing was. */
  ghost predicate Sees(effect: Effect, alloc: Alloc, was: Option<Shown>, seen: Option<Shown>) {
    match effect
    case Nothing => seen == was
    case Mounts(shown) => seen == Some(shown)
    case Writes(dest, content) =>
      exists n: nat :: alloc(n, File(dest, content)).Some? &&
        seen == Some(Bound(alloc(n, File(dest, content)).value, true))
  }

  // ----- one operation -----

  lemma TwoShows(
    origin: Origin, opt: Opt, first: Word, dest: Parts, n: nat, alloc: Alloc, t: Layout, there: set<Word>, path: Parts)
    requires Arity(opt) == 2
    ensures var items := [Two(origin, opt, first, Path(dest))];
            var shown := Mounted(Setting(opt, [first, Path(dest)]), None, there);
            && Emit(items, n, alloc).Some?
            && Resolve(After(items, n, alloc, t, there).mounts, path)
               == if dest <= path && shown.Some? then shown else Resolve(t.mounts, path)
  {
    hide Resolve, Settings, Written, ApplyAll;
    var i := Two(origin, opt, first, Path(dest));
    var s := Setting(opt, [first, Path(dest)]);
    TwoReads(origin, opt, first, Path(dest));
    LiteralWritten(i, n, alloc);
    ApplyOne(t, s, there);
    assert Mounted(s, t.size, there) == Mounted(s, None, there);
    if Mounted(s, None, there).Some? {
      ResolvePushed(t.mounts, Mount(dest, Mounted(s, None, there).value), path);
    }
  }

  lemma FileShows(
    i: Item, n: nat, alloc: Alloc, t: Layout, there: set<Word>, path: Parts)
    requires i.kind.Data? && Emit([i], n, alloc).Some?
    ensures alloc(n, File(i.kind.dest, i.kind.content)).Some?
    ensures Resolve(After([i], n, alloc, t, there).mounts, path)
         == if i.kind.dest <= path then Some(Bound(alloc(n, File(i.kind.dest, i.kind.content)).value, true))
            else Resolve(t.mounts, path)
  {
    hide Resolve, Settings, Written, ApplyAll, Emit;
    EmitSome(i, n, alloc);
    NamedReads(i, n, alloc);
    WrittenOne(i, n, alloc);
    var src := alloc(n, File(i.kind.dest, i.kind.content)).value;
    ApplyOne(t, Setting(Opt.RoBind, [src, Path(i.kind.dest)]), there);
    ResolvePushed(t.mounts, Mount(i.kind.dest, Bound(src, true)), path);
  }

  lemma ShimShows(origin: Origin, hostPath: Parts, n: nat, alloc: Alloc, t: Layout, there: set<Word>, path: Parts)
    ensures var items := ShimItems(origin, hostPath);
            && Emit(items, n, alloc).Some?
            && Sees(EffectOf(FlatpakSpawnShim(hostPath), path, there), alloc,
                    Resolve(t.mounts, path), Resolve(After(items, n, alloc, t, there).mounts, path))
  {
    hide Resolve, Settings, Written, ApplyAll, Emit, Apply;
    var items := ShimItems(origin, hostPath);
    ShimReads(origin, hostPath);
    var inside := FLATPAK_SPAWN_INSIDE;
    LiteralWritten(items[0], n, alloc);
    LiteralWritten(items[1], n + 1, alloc);
    LiteralWritten(items[2], n + 2, alloc);
    EmitConcat([items[0]], [items[1]], n, alloc);
    EmitConcat([items[0]] + [items[1]], [items[2]], n, alloc);
    WrittenConcat([items[0]], [items[1]], n, alloc);
    WrittenConcat([items[0]] + [items[1]], [items[2]], n, alloc);
    assert items == [items[0]] + [items[1]] + [items[2]];
    ShimApplied(t, hostPath, there);
    var overlay, bind := Mount(USR_BIN, Layered(true)), Mount(inside, Bound(Path(hostPath), true));
    ResolvePushed(t.mounts, overlay, path);
    ResolvePushed(t.mounts + [overlay], bind, path);
  }

  lemma ShimApplied(t: Layout, hostPath: Parts, there: set<Word>)
    ensures ApplyAll(t, [Setting(OverlaySrc, [Path(USR_BIN)]), Setting(TmpOverlay, [Path(USR_BIN)])]
                        + [Setting(Opt.RoBind, [Path(hostPath), Path(FLATPAK_SPAWN_INSIDE)])]
                        + [Setting(RemountRo, [Path(USR_BIN)])], there).mounts
         == t.mounts + [Mount(USR_BIN, Layered(true))] + [Mount(FLATPAK_SPAWN_INSIDE, Bound(Path(hostPath), true))]
  {
    hide Remounted;
    var a, b := Setting(OverlaySrc, [Path(USR_BIN)]), Setting(TmpOverlay, [Path(USR_BIN)]);
    var c, d := Setting(Opt.RoBind, [Path(hostPath), Path(FLATPAK_SPAWN_INSIDE)]), Setting(RemountRo, [Path(USR_BIN)]);
    ApplyConcat(t, [a, b] + [c], [d], there);
    assert [a, b] + [c] == [a, b, c];
    ApplyThree(t, a, b, c, there);
    var src := Apply(t, a, there);
    var over := Apply(src, b, there);
    var bound := Apply(over, c, there);
    assert src.mounts == t.mounts;
    assert over.mounts == t.mounts + [Mount(USR_BIN, Layered(false))];
    assert bound.mounts == over.mounts + [Mount(FLATPAK_SPAWN_INSIDE, Bound(Path(hostPath), true))];
    ApplyOne(bound, d, there);
    assert |USR_BIN| != |FLATPAK_SPAWN_INSIDE|;
    RemountUnder(over.mounts, Mount(FLATPAK_SPAWN_INSIDE, Bound(Path(hostPath), true)), USR_BIN);
    RemountLast(t.mounts, Mount(USR_BIN, Layered(false)));
  }

  lemma RemountUnder(mounts: seq<Mount>, m: Mount, dest: Parts)
    requires m.dest != dest
    ensures Remounted(mounts + [m], dest) == Remounted(mounts, dest) + [m]
  {
    assert (mounts + [m])[..|mounts|] == mounts;
  }

  // ----- one call, and all of them -----

  lemma PushedShows(c: Call, origin: Origin, n: nat, alloc: Alloc, t: Layout, there: set<Word>, path: Parts)
    requires Emit(Pushed(c, origin), n, alloc).Some?
    ensures Sees(EffectOf(c, path, there), alloc, Resolve(t.mounts, path),
                 Resolve(After(Pushed(c, origin), n, alloc, t, there).mounts, path))
  {
    hide Resolve, Emit, After, ShimItems;
    match c {
      case RoBind(src, dst) => TwoShows(origin, Opt.RoBind, Path(src), dst, n, alloc, t, there, path);
      case DevBind(src, dst) => TwoShows(origin, Opt.DevBind, Path(src), dst, n, alloc, t, there, path);
      case DevBindTry(src, dst) => TwoShows(origin, Opt.DevBindTry, Path(src), dst, n, alloc, t, there, path);
      case Bind(src, dst) => TwoShows(origin, Opt.Bind, Path(src), dst, n, alloc, t, there, path);
      case Symlink(target, link) => TwoShows(origin, Opt.Symlink, target, link, n, alloc, t, there, path);
      case BindInit(hostPath) => TwoShows(origin, Opt.RoBind, Path(hostPath), INIT_INSIDE, n, alloc, t, there, path);
      case FlatpakSpawnShim(hostPath) => ShimShows(origin, hostPath, n, alloc, t, there, path);
      case RoBindData(content, dest) => FileShows(Item(origin, Data(content, dest)), n, alloc, t, there, path);
      case _ => NothingAfterAll(n, alloc, t, there);
    }
  }

  lemma NothingAfterAll(n: nat, alloc: Alloc, t: Layout, there: set<Word>)
    ensures After([], n, alloc, t, there) == t
  {
    EmitNothing(n, alloc);
  }

  /** What the calls push to phase 4, call after call. */
  function BindsOf(calls: seq<Call>, origin: Origin): seq<Item> {
    if calls == [] then []
    else Pushed(calls[0], origin) + BindsOf(calls[1..], if calls[0].Tag? then calls[0].origin else origin)
  }

  lemma NextOrigin(p: Plan, c: Call)
    ensures Next(p, c).origin == if c.Tag? then c.origin else p.origin
  {
    hide Pushed, HasPair;
  }

  lemma {:induction false} PlanBinds(p: Plan, calls: seq<Call>)
    ensures PlanOf(p, calls).binds == p.binds + BindsOf(calls, p.origin)
    decreases |calls|
  {
    hide Next, Pushed;
    if calls != [] {
      NextBinds(p, calls[0]);
      NextOrigin(p, calls[0]);
      PlanBinds(Next(p, calls[0]), calls[1..]);
    }
  }

  lemma SeesOnward(a: Effect, b: Effect, alloc: Alloc, was: Option<Shown>, mid: Option<Shown>, seen: Option<Shown>)
    requires Sees(a, alloc, was, mid) && Sees(b, alloc, mid, seen)
    ensures Sees(if b != Nothing then b else a, alloc, was, seen)
  {
  }

  lemma {:induction false} BindsShow(
    calls: seq<Call>, origin: Origin, n: nat, alloc: Alloc, t: Layout, there: set<Word>, path: Parts)
    requires Emit(BindsOf(calls, origin), n, alloc).Some?
    ensures Sees(LastEffect(calls, path, there), alloc, Resolve(t.mounts, path),
                 Resolve(After(BindsOf(calls, origin), n, alloc, t, there).mounts, path))
    decreases |calls|
  {
    hide Resolve, Emit, After, Pushed, EffectOf, Sees;
    if calls == [] {
      NothingAfterAll(n, alloc, t, there);
      SeesNothing(alloc, Resolve(t.mounts, path));
    } else {
      var first := Pushed(calls[0], origin);
      var next := if calls[0].Tag? then calls[0].origin else origin;
      var rest := BindsOf(calls[1..], next);
      EmitConcat(first, rest, n, alloc);
      AfterConcat(first, rest, n, alloc, t, there);
      var u := After(first, n, alloc, t, there);
      PushedShows(calls[0], origin, n, alloc, t, there, path);
      BindsShow(calls[1..], next, n + |first|, alloc, u, there, path);
      SeesOnward(EffectOf(calls[0], path, there), LastEffect(calls[1..], path, there), alloc,
                 Resolve(t.mounts, path), Resolve(u.mounts, path),
                 Resolve(After(first + rest, n, alloc, t, there).mounts, path));
    }
  }

  lemma SeesNothing(alloc: Alloc, was: Option<Shown>)
    ensures Sees(Nothing, alloc, was, was)
  {
  }

  /** What the fixed phases alone show. */
  ghost function FixedSees(base: Base, p: Plan, alloc: Alloc, there: set<Word>, path: Parts): Option<Shown> {
    Resolve(After(NamespacesOf(p) + SkeletonOf(base, p) + RuntimeDirOf(base), 0, alloc, BARE, there).mounts, path)
  }

  /** The last call that reaches a path decides what is seen there, and only the fixed phases where none does. */
  lemma LastCallDecides(
    base: Base, calls: seq<Call>, command: seq<Word>, alloc: Alloc, there: set<Word>, path: Parts)
    requires Finishes(base, calls, command, alloc) && !MaskedBy(calls, path)
    ensures Sees(LastEffect(calls, path, there), alloc, FixedSees(base, PlanOf(NOTHING, calls), alloc, there, path),
                 Resolve(MountsOf(ArgvOf(base, calls, command, alloc).args, there), path))
  {
    hide Emit, NamespacesOf, SkeletonOf, RuntimeDirOf, MasksOf, EnvOf, Resolve, MaskedBy, PlanOf, Draw, ArgvOf,
         Finishes, Finish, After, MountsOf, Sees, LastEffect, BindsOf, SoundPlan;
    var p := PlanOf(NOTHING, calls);
    FinishesIs(base, calls, command, alloc);
    NothingIsSound();
    PlanIsSound(NOTHING, calls);
    SeenThroughMasks(base, calls, command, alloc, there, path);
    PhasesInOrder(base, p, command, alloc);
    PlanBinds(NOTHING, calls);
    var front := NamespacesOf(p) + SkeletonOf(base, p) + RuntimeDirOf(base);
    var binds := BindsOf(calls, Origin.Baseline);
    assert [] + binds == binds;
    assert Inner(base, p) == front + binds;
    EmitConcat(front, binds, 0, alloc);
    AfterConcat(front, binds, 0, alloc, BARE, there);
    BindsShow(calls, Origin.Baseline, |front|, alloc, After(front, 0, alloc, BARE, there), there, path);
  }

  // ----- the baseline's own mounts -----

  /** What is mounted over a path, and what was there where nothing is. */
  function Over(dest: Parts, shown: Option<Shown>, path: Parts, was: Option<Shown>): Option<Shown> {
    if dest <= path && shown.Some? then shown else was
  }

  lemma OneShows(
    origin: Origin, opt: Opt, dest: Parts, n: nat, alloc: Alloc, t: Layout, there: set<Word>, path: Parts)
    requires opt.Proc? || opt.Dev?
    ensures var items := [One(origin, opt, Path(dest))];
            && Emit(items, n, alloc).Some?
            && Resolve(After(items, n, alloc, t, there).mounts, path)
               == Over(dest, Some(Kernel(opt)), path, Resolve(t.mounts, path))
  {
    hide Resolve, Settings, Written, ApplyAll;
    OneReads(origin, opt, Path(dest));
    LiteralWritten(One(origin, opt, Path(dest)), n, alloc);
    ApplyOne(t, Setting(opt, [Path(dest)]), there);
    ResolvePushed(t.mounts, Mount(dest, Kernel(opt)), path);
  }

  lemma SizedShows(
    origin: Origin, size: Word, dest: Parts, n: nat, alloc: Alloc, t: Layout, there: set<Word>, path: Parts)
    ensures var items := [SizedTmpfs(origin, size, dest)];
            && Emit(items, n, alloc).Some?
            && Resolve(After(items, n, alloc, t, there).mounts, path)
               == Over(dest, Some(Empty(Some(size), false)), path, Resolve(t.mounts, path))
  {
    hide Resolve, Settings, Written, ApplyAll;
    SizedReads(origin, size, dest);
    LiteralWritten(SizedTmpfs(origin, size, dest), n, alloc);
    var cap, mount := Setting(Size, [size]), Setting(Tmpfs, [Path(dest)]);
    ApplyConcat(t, [cap], [mount], there);
    ApplyOne(t, cap, there);
    ApplyOne(Apply(t, cap, there), mount, there);
    assert [cap] + [mount] == [cap, mount];
    ResolvePushed(t.mounts, Mount(dest, Empty(Some(size), false)), path);
  }

  /** One more operation in front of what is still to come. */
  lemma AfterCons(i: Item, rest: seq<Item>, n: nat, alloc: Alloc, t: Layout, there: set<Word>)
    requires Emit([i], n, alloc).Some?
    ensures After([i] + rest, n, alloc, t, there) == After(rest, n + 1, alloc, After([i], n, alloc, t, there), there)
    ensures Emit([i] + rest, n, alloc).Some? <==> Emit(rest, n + 1, alloc).Some?
  {
    hide Emit, After;
    EmitConcat([i], rest, n, alloc);
    AfterConcat([i], rest, n, alloc, t, there);
  }

  /** A bind or a link, then the rest. */
  lemma TwoThen(
    opt: Opt, first: Word, dest: Parts, rest: seq<Item>, n: nat, alloc: Alloc, t: Layout, there: set<Word>, path: Parts)
    returns (u: Layout)
    requires Arity(opt) == 2
    ensures var all := [Two(Origin.Baseline, opt, first, Path(dest))] + rest;
            && (Emit(all, n, alloc).Some? <==> Emit(rest, n + 1, alloc).Some?)
            && After(all, n, alloc, t, there) == After(rest, n + 1, alloc, u, there)
    ensures Resolve(u.mounts, path)
         == Over(dest, Mounted(Setting(opt, [first, Path(dest)]), None, there), path, Resolve(t.mounts, path))
  {
    hide Resolve, Emit, After;
    var i := Two(Origin.Baseline, opt, first, Path(dest));
    TwoShows(Origin.Baseline, opt, first, dest, n, alloc, t, there, path);
    AfterCons(i, rest, n, alloc, t, there);
    u := After([i], n, alloc, t, there);
  }

  function HeadTable(path: Parts, there: set<Word>, was: Option<Shown>): Option<Shown> {
    if ["opt"] <= path && Path(["opt"]) in there then Some(Bound(Path(["opt"]), true))
    else if ["sbin"] <= path then Some(Linked(Text("usr/bin")))
    else if ["lib64"] <= path then Some(Linked(Text("usr/lib64")))
    else if ["lib"] <= path then Some(Linked(Text("usr/lib")))
    else if ["bin"] <= path then Some(Linked(Text("usr/bin")))
    else if ["usr"] <= path then Some(Bound(Path(["usr"]), true))
    else was
  }

  lemma HeadShows(n: nat, alloc: Alloc, t: Layout, there: set<Word>, path: Parts)
    ensures Emit(SkeletonHead(), n, alloc).Some?
    ensures Resolve(After(SkeletonHead(), n, alloc, t, there).mounts, path)
         == HeadTable(path, there, Resolve(t.mounts, path))
  {
    hide Resolve, Emit, After;
    var b := Origin.Baseline;
    var i1, i2 := Two(b, Opt.RoBind, Path(["usr"]), Path(["usr"])), Two(b, Opt.Symlink, Text("usr/bin"), Path(["bin"]));
    var i3 := Two(b, Opt.Symlink, Text("usr/lib"), Path(["lib"]));
    var i4 := Two(b, Opt.Symlink, Text("usr/lib64"), Path(["lib64"]));
    var i5, i6 := Two(b, Opt.Symlink, Text("usr/bin"), Path(["sbin"])), Two(b, RoBindTry, Path(["opt"]), Path(["opt"]));
    assert SkeletonHead() == [i1] + ([i2] + ([i3] + ([i4] + ([i5] + ([i6] + [])))));
    var t1 := TwoThen(Opt.RoBind, Path(["usr"]), ["usr"], [i2] + ([i3] + ([i4] + ([i5] + ([i6] + [])))), n, alloc,
        t, there, path);
    var t2 := TwoThen(Opt.Symlink, Text("usr/bin"), ["bin"], [i3] + ([i4] + ([i5] + ([i6] + []))), n + 1, alloc, t1,
        there, path);
    var t3 := TwoThen(Opt.Symlink, Text("usr/lib"), ["lib"], [i4] + ([i5] + ([i6] + [])), n + 2, alloc, t2, there,
        path);
    var t4 := TwoThen(Opt.Symlink, Text("usr/lib64"), ["lib64"], [i5] + ([i6] + []), n + 3, alloc, t3, there, path);
    var t5 := TwoThen(Opt.Symlink, Text("usr/bin"), ["sbin"], [i6] + [], n + 4, alloc, t4, there, path);
    var t6 := TwoThen(RoBindTry, Path(["opt"]), ["opt"], [], n + 5, alloc, t5, there, path);
    NothingEmitted(n + 6, alloc);
    NothingAfterAll(n + 6, alloc, t6, there);
  }

  lemma NothingEmitted(n: nat, alloc: Alloc)
    ensures Emit([], n, alloc).Some?
  {
  }

  function TailTable(base: Base, tmp: nat, path: Parts, was: Option<Shown>): Option<Shown> {
    if ["home", "bubbler"] <= path then Some(Bound(Path(base.home), false))
    else if ["run"] <= path then Some(Empty(Some(Text("67108864")), false))
    else if ["var"] <= path then Some(Empty(Some(Text("67108864")), false))
    else if ["tmp"] <= path then Some(Empty(Some(Text(Decimal(tmp))), false))
    else if ["dev", "ntsync"] <= path && ["dev", "ntsync"] in base.host.charDevices then
      Some(Bound(Path(["dev", "ntsync"]), false))
    else if ["dev"] <= path then Some(Kernel(Opt.Dev))
    else if ["proc"] <= path then Some(Kernel(Opt.Proc))
    else was
  }

  lemma CapSpelled()
    ensures Decimal(67108864) == "67108864"
  {
    assert Decimal(6) == "6";
    assert Decimal(67) == "67";
    assert Decimal(671) == "671";
    assert Decimal(6710) == "6710";
    assert Decimal(67108) == "67108";
    assert Decimal(671088) == "671088";
    assert Decimal(6710886) == "6710886";
  }

  lemma SizedThen(
    origin: Origin, size: Word, dest: Parts, rest: seq<Item>, n: nat, alloc: Alloc, t: Layout, there: set<Word>,
    path: Parts)
    returns (u: Layout)
    ensures var all := [SizedTmpfs(origin, size, dest)] + rest;
            && (Emit(all, n, alloc).Some? <==> Emit(rest, n + 1, alloc).Some?)
            && After(all, n, alloc, t, there) == After(rest, n + 1, alloc, u, there)
    ensures Resolve(u.mounts, path) == Over(dest, Some(Empty(Some(size), false)), path, Resolve(t.mounts, path))
  {
    hide Resolve, Emit, After;
    SizedShows(origin, size, dest, n, alloc, t, there, path);
    AfterCons(SizedTmpfs(origin, size, dest), rest, n, alloc, t, there);
    u := After([SizedTmpfs(origin, size, dest)], n, alloc, t, there);
  }

  lemma OneThen(
    opt: Opt, dest: Parts, rest: seq<Item>, n: nat, alloc: Alloc, t: Layout, there: set<Word>, path: Parts)
    returns (u: Layout)
    requires opt.Proc? || opt.Dev?
    ensures var all := [One(Origin.Baseline, opt, Path(dest))] + rest;
            && (Emit(all, n, alloc).Some? <==> Emit(rest, n + 1, alloc).Some?)
            && After(all, n, alloc, t, there) == After(rest, n + 1, alloc, u, there)
    ensures Resolve(u.mounts, path) == Over(dest, Some(Kernel(opt)), path, Resolve(t.mounts, path))
  {
    hide Resolve, Emit, After;
    OneShows(Origin.Baseline, opt, dest, n, alloc, t, there, path);
    AfterCons(One(Origin.Baseline, opt, Path(dest)), rest, n, alloc, t, there);
    u := After([One(Origin.Baseline, opt, Path(dest))], n, alloc, t, there);
  }

  lemma EndShows(base: Base, p: Plan, n: nat, alloc: Alloc, t: Layout, there: set<Word>, path: Parts)
    ensures var items := [TmpOf(p)] + TailEnd(base);
            && Emit(items, n, alloc).Some?
            && Resolve(After(items, n, alloc, t, there).mounts, path)
               == Over(["home", "bubbler"], Some(Bound(Path(base.home), false)), path,
                    Over(["run"], Some(Empty(Some(Text("67108864")), false)), path,
                      Over(["var"], Some(Empty(Some(Text("67108864")), false)), path,
                        Over(["tmp"], Some(Empty(Some(Text(Decimal(p.tmp.1))), false)), path,
                          Resolve(t.mounts, path)))))
  {
    hide Resolve, Emit, After, Decimal;
    CapSpelled();
    var b, cap := Origin.Baseline, Text("67108864");
    var home := Two(b, Opt.Bind, Path(base.home), Path(["home", "bubbler"]));
    var var_, run := SizedTmpfs(b, cap, ["var"]), SizedTmpfs(b, cap, ["run"]);
    assert [TmpOf(p)] + TailEnd(base) == [TmpOf(p)] + ([var_] + ([run] + ([home] + [])));
    var t1 := SizedThen(p.tmp.0, Text(Decimal(p.tmp.1)), ["tmp"], [var_] + ([run] + ([home] + [])), n, alloc, t,
        there, path);
    var t2 := SizedThen(b, cap, ["var"], [run] + ([home] + []), n + 1, alloc, t1, there, path);
    var t3 := SizedThen(b, cap, ["run"], [home] + [], n + 2, alloc, t2, there, path);
    var t4 := TwoThen(Opt.Bind, Path(base.home), ["home", "bubbler"], [], n + 3, alloc, t3, there, path);
    NothingEmitted(n + 4, alloc);
    NothingAfterAll(n + 4, alloc, t4, there);
  }

  lemma StartShows(base: Base, n: nat, alloc: Alloc, t: Layout, there: set<Word>, path: Parts)
    ensures var items := TailStart(base);
            var device := if ["dev", "ntsync"] in base.host.charDevices
                          then Some(Bound(Path(["dev", "ntsync"]), false)) else None;
            && Emit(items, n, alloc).Some?
            && Resolve(After(items, n, alloc, t, there).mounts, path)
               == Over(["dev", "ntsync"], device, path,
                    Over(["dev"], Some(Kernel(Opt.Dev)), path,
                      Over(["proc"], Some(Kernel(Opt.Proc)), path, Resolve(t.mounts, path))))
  {
    hide Resolve, Emit, After;
    var b, node := Origin.Baseline, ["dev", "ntsync"];
    var dev := One(b, Opt.Dev, Path(["dev"]));
    var last := if node in base.host.charDevices then [Two(b, Opt.DevBind, Path(node), Path(node))] + [] else [];
    assert TailStart(base) == [One(b, Opt.Proc, Path(["proc"]))] + ([dev] + last);
    var t1 := OneThen(Opt.Proc, ["proc"], [dev] + last, n, alloc, t, there, path);
    var t2 := OneThen(Opt.Dev, ["dev"], last, n + 1, alloc, t1, there, path);
    NothingEmitted(n + 2, alloc);
    NothingAfterAll(n + 2, alloc, t2, there);
    if node in base.host.charDevices {
      var t3 := TwoThen(Opt.DevBind, Path(node), node, [], n + 2, alloc, t2, there, path);
      NothingEmitted(n + 3, alloc);
      NothingAfterAll(n + 3, alloc, t3, there);
    }
  }

  lemma TailShows(base: Base, p: Plan, n: nat, alloc: Alloc, t: Layout, there: set<Word>, path: Parts)
    ensures Emit(SkeletonTail(base, TmpOf(p)), n, alloc).Some?
    ensures Resolve(After(SkeletonTail(base, TmpOf(p)), n, alloc, t, there).mounts, path)
         == TailTable(base, p.tmp.1, path, Resolve(t.mounts, path))
  {
    hide Resolve, Emit, After, Decimal, TailStart, TailEnd, SkeletonTail;
    TailSplits(base, p);
    var start, rest := TailStart(base), [TmpOf(p)] + TailEnd(base);
    assert SkeletonTail(base, TmpOf(p)) == start + rest;
    StartShows(base, n, alloc, t, there, path);
    var u := After(start, n, alloc, t, there);
    EndShows(base, p, n + |start|, alloc, u, there, path);
    EmitConcat(start, rest, n, alloc);
    AfterConcat(start, rest, n, alloc, t, there);
  }

  // ----- what mounts nothing outside `/etc` -----

  lemma LaterIsClear(i: Item, path: Parts)
    requires LaterItem(i)
    ensures ClearItem(i, path)
  {
    hide Settings;
    PairReads(i.origin);
  }

  lemma BareIsClear(opt: Opt, path: Parts)
    requires Arity(opt) == 0
    ensures ClearItem(Bare(Origin.Baseline, opt), path)
  {
    hide Settings;
    BareReads(Origin.Baseline, opt);
  }

  lemma ShareIsClear(origin: Origin, path: Parts)
    ensures ClearItem(Bare(origin, Opt.ShareNet), path)
  {
    hide Settings;
    BareReads(origin, Opt.ShareNet);
  }

  lemma HeadlessIsClear(opt: Opt, w: Word, path: Parts)
    requires opt.Hostname? || opt.Chdir?
    ensures ClearItem(One(Origin.Baseline, opt, w), path)
  {
    hide Settings;
    OneReads(Origin.Baseline, opt, w);
  }

  lemma NamespacesAreClear(p: Plan, path: Parts)
    requires Sound(p)
    ensures Clear(NamespacesOf(p), path)
  {
    hide ClearItem, LaterItem;
    BareIsClear(UnshareAll, path);
    BareIsClear(DieWithParent, path);
    BareIsClear(NewSession, path);
    HeadlessIsClear(Hostname, Text("bubbler"), path);
    HeadlessIsClear(Opt.Chdir, Path(p.dir), path);
    InfoIsClear(path);
    if p.share.Some? {
      ShareIsClear(p.share.value, path);
    }
    forall i | 0 <= i < |p.later|
      ensures ClearItem(p.later[i], path)
    {
      LaterIsClear(p.later[i], path);
    }
    ClearConcat(NamespacesHead(), Shared(p.share), path);
    ClearConcat(NamespacesHead() + Shared(p.share), NamespacesTail(p.dir), path);
    ClearConcat(NamespacesHead() + Shared(p.share) + NamespacesTail(p.dir), p.later, path);
  }

  lemma InfoIsClear(path: Parts)
    ensures ClearItem(Item(Origin.Baseline, Kind.InfoFd), path)
  {
  }

  lemma {:induction false} AllowlistIsClear(names: seq<string>, host: Host, path: Parts)
    requires !(ETC <= path)
    ensures Clear(AllowlistFrom(names, host), path)
  {
    hide ClearItem;
    if names != [] {
      AllowlistIsClear(names[1..], host, path);
      var p := ["etc", names[0]];
      assert p <= path ==> ETC <= path;
      TwoIsClear(Origin.Baseline, Opt.RoBind, Path(p), p, path);
      if p in host.present {
        ClearConcat([Two(Origin.Baseline, Opt.RoBind, Path(p), Path(p))], AllowlistFrom(names[1..], host), path);
      }
    }
  }

  lemma {:induction false} CoversAreClear(origin: Origin, files: seq<(string, string)>, host: Host, path: Parts)
    requires !(ETC <= path)
    ensures Clear(Covered(origin, files, host), path)
  {
    if files != [] {
      CoversAreClear(origin, files[1..], host, path);
      var p := ["etc", files[0].0];
      assert p <= path ==> ETC <= path;
    }
  }

  /** All of `/etc`. */
  function EtcPart(base: Base, p: Plan): seq<Item> {
    EtcOf(base, p) + AccountsOf(base, p) + BackupsOf(base, p)
  }

  lemma EtcIsClear(base: Base, p: Plan, path: Parts)
    requires !(ETC <= path)
    ensures Clear(EtcPart(base, p), path) && TidyItems(EtcPart(base, p))
  {
    hide ClearItem, AllowlistFrom, Covered, Backups, PasswdContent, GroupContent, TidyItem, QuietItem, Decimal;
    assert PASSWD <= path ==> ETC <= path;
    assert GROUP <= path ==> ETC <= path;
    if p.etc.Some? {
      TwoIsClear(p.etc.value.0, Opt.RoBind, Path(ETC), ETC, path);
      CoversAreClear(p.etc.value.0, Backups(PasswdContent(base.uid, base.gid), GroupContent(base.gid)),
          p.etc.value.1, path);
    } else {
      SizedIsClear(Origin.Baseline, Text(Decimal(TMPFS_SIZE)), ETC, path);
      AllowlistIsClear(ETC_ALLOWLIST, base.host, path);
      ClearConcat([SizedTmpfs(Origin.Baseline, Text(Decimal(TMPFS_SIZE)), ETC)], AllowlistFrom(ETC_ALLOWLIST,
          base.host), path);
    }
    DataIsClear(AccountsOf(base, p), path);
    DataIsPlain(AccountsOf(base, p));
    EtcIsPlain(base, p);
    BackupsArePlain(base, p);
    ClearConcat(EtcOf(base, p), AccountsOf(base, p), path);
    ClearConcat(EtcOf(base, p) + AccountsOf(base, p), BackupsOf(base, p), path);
  }

  /** What a list of operations leaves at a path. */
  ghost function Left(items: seq<Item>, alloc: Alloc, there: set<Word>, path: Parts): Option<Shown> {
    Resolve(After(items, 0, alloc, BARE, there).mounts, path)
  }

  lemma ThenClear(a: seq<Item>, b: seq<Item>, alloc: Alloc, there: set<Word>, path: Parts)
    requires Emit(a + b, 0, alloc).Some? && TidyItems(b) && Clear(b, path)
    ensures Emit(a, 0, alloc).Some? && Left(a + b, alloc, there, path) == Left(a, alloc, there, path)
  {
    hide Resolve, Emit, After, Clear, TidyItems;
    EmitConcat(a, b, 0, alloc);
    AfterConcat(a, b, 0, alloc, BARE, there);
    AfterClear(b, |a|, alloc, After(a, 0, alloc, BARE, there), there, path);
  }

  lemma ThenHead(a: seq<Item>, alloc: Alloc, there: set<Word>, path: Parts)
    requires Emit(a, 0, alloc).Some?
    ensures Left(a + SkeletonHead(), alloc, there, path) == HeadTable(path, there, Left(a, alloc, there, path))
  {
    hide Resolve, Emit, After, SkeletonHead, HeadTable;
    AfterConcat(a, SkeletonHead(), 0, alloc, BARE, there);
    HeadShows(|a|, alloc, After(a, 0, alloc, BARE, there), there, path);
  }

  lemma ThenTail(a: seq<Item>, base: Base, p: Plan, alloc: Alloc, there: set<Word>, path: Parts)
    requires Emit(a, 0, alloc).Some?
    ensures Left(a + SkeletonTail(base, TmpOf(p)), alloc, there, path)
         == TailTable(base, p.tmp.1, path, Left(a, alloc, there, path))
  {
    hide Resolve, Emit, After, SkeletonTail, TailTable;
    AfterConcat(a, SkeletonTail(base, TmpOf(p)), 0, alloc, BARE, there);
    TailShows(base, p, |a|, alloc, After(a, 0, alloc, BARE, there), there, path);
  }

  lemma FixedShows(base: Base, p: Plan, alloc: Alloc, there: set<Word>, path: Parts)
    requires SoundPlan(p) && !(ETC <= path)
    requires Emit(NamespacesOf(p) + SkeletonOf(base, p) + RuntimeDirOf(base), 0, alloc).Some?
    ensures FixedSees(base, p, alloc, there, path) == TailTable(base, p.tmp.1, path, HeadTable(path, there, None))
  {
    hide Resolve, Emit, After, NamespacesOf, SkeletonHead, EtcPart, SkeletonTail, RuntimeDirOf, Clear, TidyItems,
         HeadTable,
         TailTable, QuietItem, SkeletonOf, Left;
    var names, head, etc := NamespacesOf(p), SkeletonHead(), EtcPart(base, p);
    var tail, dir := SkeletonTail(base, TmpOf(p)), RuntimeDirOf(base);
    SkeletonParts(base, p);
    assert names + SkeletonOf(base, p) == names + head + etc + tail;
    FixedIsLeft(base, p, alloc, there, path);
    RuntimeDirIsClear(base, path);
    RuntimeDirTidy(base);
    ThenClear(names + head + etc + tail, dir, alloc, there, path);
    EmitConcat(names + head + etc, tail, 0, alloc);
    ThenTail(names + head + etc, base, p, alloc, there, path);
    EtcIsClear(base, p, path);
    ThenClear(names + head, etc, alloc, there, path);
    EmitConcat(names, head, 0, alloc);
    ThenHead(names, alloc, there, path);
    NamespacesShow(p, alloc, there, path);
  }

  lemma FixedIsLeft(base: Base, p: Plan, alloc: Alloc, there: set<Word>, path: Parts)
    ensures FixedSees(base, p, alloc, there, path)
         == Left(NamespacesOf(p) + SkeletonOf(base, p) + RuntimeDirOf(base), alloc, there, path)
  {
    hide Resolve, After, NamespacesOf, SkeletonOf, RuntimeDirOf;
  }

  lemma RuntimeDirTidy(base: Base)
    ensures TidyItems(RuntimeDirOf(base))
  {
    RuntimeDirReads(base);
  }

  lemma NamespacesShow(p: Plan, alloc: Alloc, there: set<Word>, path: Parts)
    requires SoundPlan(p) && Emit(NamespacesOf(p), 0, alloc).Some?
    ensures Left(NamespacesOf(p), alloc, there, path) == None
  {
    hide Resolve, Emit, After, NamespacesOf, Clear, TidyItems;
    NamespacesAreTidy(p);
    NamespacesAreClear(p, path);
    AfterClear(NamespacesOf(p), 0, alloc, BARE, there, path);
    NothingMounted(path);
  }

  lemma NothingMounted(path: Parts)
    ensures Resolve(BARE.mounts, path) == None
  {
  }

  lemma SkeletonParts(base: Base, p: Plan)
    ensures SkeletonOf(base, p) == SkeletonHead() + EtcPart(base, p) + SkeletonTail(base, TmpOf(p))
  {
    hide SkeletonHead, EtcOf, AccountsOf, BackupsOf, SkeletonTail;
  }

  /**
   What a sandbox sees at any path outside `/etc` that is not masked, after any calls: what the last
   call to put something at or above it put there; otherwise the host's programs read-only, its own
   home writable, empty capped directories, and nothing else of the host.
   */
  lemma SandboxShows(
    base: Base, calls: seq<Call>, command: seq<Word>, alloc: Alloc, there: set<Word>, path: Parts)
    requires Finishes(base, calls, command, alloc) && !MaskedBy(calls, path) && !(["etc"] <= path)
    ensures Sees(LastEffect(calls, path, there), alloc,
                 TailTable(base, LastTmpSize(calls, 2147483648), path, HeadTable(path, there, None)),
                 Resolve(MountsOf(ArgvOf(base, calls, command, alloc).args, there), path))
  {
    hide Emit, NamespacesOf, SkeletonOf, RuntimeDirOf, MasksOf, EnvOf, Resolve, MaskedBy, PlanOf, Draw, ArgvOf,
         Finishes, Finish, After, MountsOf, Sees, LastEffect, BindsOf, SoundPlan, FixedSees, HeadTable, TailTable,
         LastTmpSize, Given, LastDir, Pairs;
    var p := PlanOf(NOTHING, calls);
    LastCallDecides(base, calls, command, alloc, there, path);
    FinishesIs(base, calls, command, alloc);
    NothingIsSound();
    NoTimes();
    PlanRemembers(NOTHING, calls);
    PlanIsSound(NOTHING, calls);
    PhasesInOrder(base, p, command, alloc);
    EmitConcat(NamespacesOf(p) + SkeletonOf(base, p) + RuntimeDirOf(base), p.binds, 0, alloc);
    FixedShows(base, p, alloc, there, path);
  }
}
