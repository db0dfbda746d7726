/** What a sandbox sees: masks over everything, the synthetic accounts, the cap on `/tmp`. */
module BwrapMounts {
  import opened Results
  import opened Bwrap
  import opened BwrapPlan
  import opened Mounts
  import opened BwrapSafety
  import opened BwrapRuns

  // ----- masks -----

  predicate Masked(masks: seq<(Origin, Parts)>, path: Parts) {
    exists i :: 0 <= i < |masks| && masks[i].1 <= path
  }

  predicate MaskedBy(calls: seq<Call>, path: Parts) {
    exists i :: 0 <= i < |calls| && calls[i].MaskDir? && calls[i].dir <= path
  }

  /** What a mask shows. */
  const MASK: Shown := Empty(Some(Text("4096")), true)

  lemma MaskedMore(masks: seq<(Origin, Parts)>, last: (Origin, Parts), path: Parts)
    ensures Masked(masks + [last], path) <==> Masked(masks, path) || last.1 <= path
  {
    if Masked(masks, path) {
      var i :| 0 <= i < |masks| && masks[i].1 <= path;
      assert (masks + [last])[i].1 <= path;
    }
    if last.1 <= path {
      assert (masks + [last])[|masks|].1 <= path;
    }
  }

  lemma MaskedByFrom(calls: seq<Call>, path: Parts)
    requires calls != []
    ensures MaskedBy(calls, path) <==> (calls[0].MaskDir? && calls[0].dir <= path) || MaskedBy(calls[1..], path)
  {
    if MaskedBy(calls, path) {
      var i :| 0 <= i < |calls| && calls[i].MaskDir? && calls[i].dir <= path;
      if i > 0 {
        assert calls[1..][i - 1] == calls[i];
      }
    }
    if MaskedBy(calls[1..], path) {
      var i :| 0 <= i < |calls[1..]| && calls[1..][i].MaskDir? && calls[1..][i].dir <= path;
      assert calls[i + 1] == calls[1..][i];
    }
  }

  lemma NextMasks(p: Plan, c: Call)
    ensures Next(p, c).masks == if c.MaskDir? then p.masks + [(p.origin, c.dir)] else p.masks
  {
    hide Pushed, HasPair;
  }

  lemma {:induction false} PlanMasks(p: Plan, calls: seq<Call>, path: Parts)
    ensures Masked(PlanOf(p, calls).masks, path) <==> Masked(p.masks, path) || MaskedBy(calls, path)
    decreases |calls|
  {
    hide Next, Masked, MaskedBy;
    if calls == [] {
      NothingMasked(path);
    } else {
      NextMasks(p, calls[0]);
      PlanMasks(Next(p, calls[0]), calls[1..], path);
      MaskedByFrom(calls, path);
      if calls[0].MaskDir? {
        MaskedMore(p.masks, (p.origin, calls[0].dir), path);
      }
    }
  }

  lemma NothingMasked(path: Parts)
    ensures !MaskedBy([], path) && !Masked([], path)
  {
  }

  function MaskSettings(dir: Parts): seq<Setting> {
    [Setting(Size, [Text("4096")]), Setting(Tmpfs, [Path(dir)]), Setting(RemountRo, [Path(dir)])]
  }

  /** A mask, whatever is mounted already. */
  lemma MaskApplied(t: Layout, dir: Parts, path: Parts, there: set<Word>)
    ensures Resolve(ApplyAll(t, MaskSettings(dir), there).mounts, path)
         == if dir <= path then Some(MASK) else Resolve(t.mounts, path)
  {
    hide Resolve;
    var ss := MaskSettings(dir);
    var sized := Apply(t, ss[0], there);
    var mounted := Apply(sized, ss[1], there);
    var masked := Apply(mounted, ss[2], there);
    ApplyThree(t, ss[0], ss[1], ss[2], there);
    assert sized == Layout(t.mounts, Some(Text("4096")));
    assert mounted.mounts == t.mounts + [Mount(dir, Empty(Some(Text("4096")), false))];
    RemountLast(t.mounts, Mount(dir, Empty(Some(Text("4096")), false)));
    assert DestOf(ss[2]) == Some(dir);
    assert masked.mounts == Remounted(mounted.mounts, dir) == t.mounts + [Mount(dir, MASK)];
    ResolvePushed(t.mounts, Mount(dir, MASK), path);
  }

  lemma ApplyThree(t: Layout, a: Setting, b: Setting, c: Setting, there: set<Word>)
    ensures ApplyAll(t, [a, b, c], there) == Apply(Apply(Apply(t, a, there), b, there), c, there)
  {
    hide Apply;
    assert [a, b, c][1..] == [b, c] && [b, c][1..] == [c];
    assert ApplyAll(Apply(t, a, there), [b, c], there) == ApplyAll(Apply(Apply(t, a, there), b, there), [c], there);
  }

  lemma RemountLast(mounts: seq<Mount>, m: Mount)
    ensures Remounted(mounts + [m], m.dest) == mounts + [m.(shown := ReadOnlyShown(m.shown))]
  {
    assert (mounts + [m])[..|mounts|] == mounts;
  }

  lemma MaskWritten(origin: Origin, dir: Parts, n: nat, alloc: Alloc)
    ensures Emit(MaskItems(origin, dir), n, alloc).Some?
    ensures Written(MaskItems(origin, dir), n, alloc) == MaskSettings(dir)
  {
    hide Settings, Emit, Written;
    var items := MaskItems(origin, dir);
    MaskReads(origin, dir);
    LiteralWritten(items[0], n, alloc);
    LiteralWritten(items[1], n + 1, alloc);
    EmitConcat([items[0]], [items[1]], n, alloc);
    WrittenConcat([items[0]], [items[1]], n, alloc);
    assert items == [items[0]] + [items[1]];
  }

  lemma LiteralWritten(i: Item, n: nat, alloc: Alloc)
    requires Literal(i.kind)
    ensures Emit([i], n, alloc).Some? && Written([i], n, alloc) == Settings(i.kind.args).0
  {
    hide Settings;
    assert [i][1..] == [];
  }

  /** The phase of masks: what any of them covers is empty and read-only, the rest is as it was. */
  lemma {:induction false} MasksApplied(
    t: Layout, masks: seq<(Origin, Parts)>, n: nat, alloc: Alloc, path: Parts, there: set<Word>)
    ensures Emit(MasksOf(masks), n, alloc).Some?
    ensures Resolve(ApplyAll(t, Written(MasksOf(masks), n, alloc), there).mounts, path)
         == if Masked(masks, path) then Some(MASK) else Resolve(t.mounts, path)
  {
    hide Written, Emit, Masked, MaskItems, Apply, Resolve, MaskSettings;
    if masks == [] {
      NothingMasked(path);
      EmitNothing(n, alloc);
    } else {
      var front, last := masks[..|masks| - 1], masks[|masks| - 1];
      var at := n + |MasksOf(front)|;
      MasksApplied(t, front, n, alloc, path, there);
      MaskWritten(last.0, last.1, at, alloc);
      EmitConcat(MasksOf(front), MaskItems(last.0, last.1), n, alloc);
      WrittenConcat(MasksOf(front), MaskItems(last.0, last.1), n, alloc);
      ApplyConcat(t, Written(MasksOf(front), n, alloc), MaskSettings(last.1), there);
      MaskApplied(ApplyAll(t, Written(MasksOf(front), n, alloc), there), last.1, path, there);
      MaskedMore(front, last, path);
      assert front + [last] == masks;
    }
  }

  lemma EmitNothing(n: nat, alloc: Alloc)
    ensures Emit([], n, alloc) == Some([]) && Written([], n, alloc) == []
  {
  }

  // ----- what leaves a path alone -----

  predicate ClearItem(i: Item, path: Parts) {
    && (i.kind.Data? ==> !(i.kind.dest <= path))
    && (Literal(i.kind) ==> NoneTouches(Settings(i.kind.args).0, path))
  }

  predicate Clear(items: seq<Item>, path: Parts) {
    forall i :: 0 <= i < |items| ==> ClearItem(items[i], path)
  }

  lemma NamedIsClear(i: Item, n: nat, alloc: Alloc, path: Parts)
    requires TidyItem(i) && ClearItem(i, path) && ArgsOf(n, i.kind, alloc).Some?
    ensures NoneTouches(Settings(ArgsOf(n, i.kind, alloc).value).0, path)
  {
    hide Settings, Tidy;
    NamedReads(i, n, alloc);
    var args := ArgsOf(n, i.kind, alloc).value;
    if i.kind.BlockFd? {
      OneReads(i.origin, Opt.BlockFd, args[1]);
    } else if i.kind.Seccomp? {
      OneReads(i.origin, AddSeccompFd, args[1]);
    }
  }

  lemma {:induction false} ClearIsWritten(items: seq<Item>, n: nat, alloc: Alloc, path: Parts)
    requires TidyItems(items) && Clear(items, path) && Emit(items, n, alloc).Some?
    ensures NoneTouches(Written(items, n, alloc), path)
    decreases |items|
  {
    hide ArgsOf, Settings, TidyItem, ClearItem, Touches;
    if items != [] {
      NamedIsClear(items[0], n, alloc, path);
      ClearIsWritten(items[1..], n + 1, alloc, path);
    }
  }

  lemma ClearConcat(a: seq<Item>, b: seq<Item>, path: Parts)
    requires Clear(a, path) && Clear(b, path)
    ensures Clear(a + b, path)
  {
    hide ClearItem;
  }

  lemma EnvItemIsClear(i: Item, path: Parts)
    requires SetsEnv(i)
    ensures ClearItem(i, path)
  {
    hide Settings;
    TwoReads(i.origin, Opt.SetEnv, i.kind.args[1], i.kind.args[2]);
    assert i.kind.args == [Flag(Opt.SetEnv), i.kind.args[1], i.kind.args[2]];
  }

  /** The environment mounts nothing. */
  lemma EnvIsClear(base: Base, p: Plan, path: Parts)
    requires SoundPlan(p)
    ensures Clear(EnvOf(base) + p.env, path)
  {
    hide Settings, EnvOf, SetsEnv, ClearItem;
    EnvIsPlain(base);
    ClearEnvIsClear(path);
    forall i | 0 <= i < |EnvOf(base) + p.env|
      ensures ClearItem((EnvOf(base) + p.env)[i], path)
    {
      if i >= |EnvOf(base)| {
        EnvItemIsClear(p.env[i - |EnvOf(base)|], path);
      } else if i > 0 {
        EnvItemIsClear(EnvOf(base)[i], path);
      }
    }
  }

  lemma ClearEnvIsClear(path: Parts)
    ensures ClearItem(Bare(Origin.Baseline, ClearEnv), path)
  {
    hide Settings;
    BareReads(Origin.Baseline, ClearEnv);
  }

  lemma RuntimeDirIsClear(base: Base, path: Parts)
    ensures Clear(RuntimeDirOf(base), path)
  {
    hide Settings;
    RuntimeDirReads(base);
  }

  /** Whether a call mounts something at `path` or above it. */
  predicate Reaches(c: Call, path: Parts) {
    match c
    case RoBind(_, dst) => dst <= path
    case DevBind(_, dst) => dst <= path
    case DevBindTry(_, dst) => dst <= path
    case Bind(_, dst) => dst <= path
    case Symlink(_, link) => link <= path
    case MaskDir(dir) => dir <= path
    case BindInit(_) => INIT_INSIDE <= path
    case FlatpakSpawnShim(_) => USR_BIN <= path || FLATPAK_SPAWN_INSIDE <= path
    case RoBindData(_, dest) => dest <= path
    case _ => false
  }

  predicate NoneReaches(calls: seq<Call>, path: Parts) {
    forall i :: 0 <= i < |calls| ==> !Reaches(calls[i], path)
  }

  lemma TwoIsClear(origin: Origin, opt: Opt, first: Word, dest: Parts, path: Parts)
    requires Arity(opt) == 2 && !(dest <= path)
    ensures ClearItem(Two(origin, opt, first, Path(dest)), path)
  {
    hide Settings;
    TwoReads(origin, opt, first, Path(dest));
  }

  lemma PushedIsClear(c: Call, origin: Origin, path: Parts)
    requires !Reaches(c, path)
    ensures Clear(Pushed(c, origin), path)
  {
    hide Settings, ClearItem;
    match c {
      case RoBind(src, dst) => TwoIsClear(origin, Opt.RoBind, Path(src), dst, path);
      case DevBind(src, dst) => TwoIsClear(origin, Opt.DevBind, Path(src), dst, path);
      case DevBindTry(src, dst) => TwoIsClear(origin, Opt.DevBindTry, Path(src), dst, path);
      case Bind(src, dst) => TwoIsClear(origin, Opt.Bind, Path(src), dst, path);
      case Symlink(target, link) => TwoIsClear(origin, Opt.Symlink, target, link, path);
      case BindInit(hostPath) => TwoIsClear(origin, Opt.RoBind, Path(hostPath), INIT_INSIDE, path);
      case FlatpakSpawnShim(hostPath) => ShimIsClear(origin, hostPath, path);
      case RoBindData(content, dest) => DataIsClear([Item(origin, Data(content, dest))], path);
      case _ =>
    }
  }

  lemma ShimIsClear(origin: Origin, hostPath: Parts, path: Parts)
    requires !(USR_BIN <= path) && !(FLATPAK_SPAWN_INSIDE <= path)
    ensures Clear(ShimItems(origin, hostPath), path)
  {
    hide Settings;
    ShimReads(origin, hostPath);
  }

  lemma DataIsClear(items: seq<Item>, path: Parts)
    requires forall i :: 0 <= i < |items| ==> items[i].kind.Data? && !(items[i].kind.dest <= path)
    ensures Clear(items, path)
  {
  }

  lemma NextBinds(p: Plan, c: Call)
    ensures Next(p, c).binds == p.binds + Pushed(c, p.origin)
  {
    hide HasPair;
    assert p.binds + [] == p.binds;
  }

  lemma {:induction false} BindsAreClear(p: Plan, calls: seq<Call>, path: Parts)
    requires Clear(p.binds, path) && NoneReaches(calls, path)
    ensures Clear(PlanOf(p, calls).binds, path) && !MaskedBy(calls, path)
    decreases |calls|
  {
    hide Next, Clear, Reaches;
    NoMaskReaches(calls, path);
    if calls != [] {
      PushedIsClear(calls[0], p.origin, path);
      NextBinds(p, calls[0]);
      ClearConcat(p.binds, Pushed(calls[0], p.origin), path);
      BindsAreClear(Next(p, calls[0]), calls[1..], path);
    }
  }

  lemma NoMaskReaches(calls: seq<Call>, path: Parts)
    requires NoneReaches(calls, path)
    ensures !MaskedBy(calls, path)
  {
  }

  // ----- the phases applied -----

  /** The phases up to the masks. */
  function Inner(base: Base, p: Plan): seq<Item> {
    NamespacesOf(p) + SkeletonOf(base, p) + RuntimeDirOf(base) + p.binds
  }

  function After(items: seq<Item>, n: nat, alloc: Alloc, t: Layout, there: set<Word>): Layout {
    ApplyAll(t, Written(items, n, alloc), there)
  }

  const BARE: Layout := Layout([], None)

  lemma AfterConcat(a: seq<Item>, b: seq<Item>, n: nat, alloc: Alloc, t: Layout, there: set<Word>)
    requires Emit(a, n, alloc).Some?
    ensures After(a + b, n, alloc, t, there) == After(b, n + |a|, alloc, After(a, n, alloc, t, there), there)
  {
    hide Written, ApplyAll;
    WrittenConcat(a, b, n, alloc);
    ApplyConcat(t, Written(a, n, alloc), Written(b, n + |a|, alloc), there);
  }

  lemma AfterClear(items: seq<Item>, n: nat, alloc: Alloc, t: Layout, there: set<Word>, path: Parts)
    requires TidyItems(items) && Clear(items, path) && Emit(items, n, alloc).Some?
    ensures Resolve(After(items, n, alloc, t, there).mounts, path) == Resolve(t.mounts, path)
  {
    hide Written, ApplyAll, Resolve, Clear, NoneTouches, TidyItems;
    ClearIsWritten(items, n, alloc, path);
    ApplyAllElsewhere(t, Written(items, n, alloc), path, there);
  }

  lemma PhasesInOrder(base: Base, p: Plan, command: seq<Word>, alloc: Alloc)
    requires SoundPlan(p) && Finish(Draw(base, p), command, alloc).Some?
    ensures var n := |Inner(base, p)|;
            var m := n + |MasksOf(p.masks)|;
            && Items(Draw(base, p)) == Inner(base, p) + MasksOf(p.masks) + (EnvOf(base) + p.env)
            && Emit(Inner(base, p), 0, alloc).Some?
            && Emit(MasksOf(p.masks), n, alloc).Some?
            && Emit(Inner(base, p) + MasksOf(p.masks), 0, alloc).Some?
            && Emit(EnvOf(base) + p.env, m, alloc).Some?
            && TidyItems(EnvOf(base) + p.env)
  {
    hide Emit, NamespacesOf, SkeletonOf, RuntimeDirOf, MasksOf, EnvOf, TidyItem, QuietItem;
    var inner, masks, env := Inner(base, p), MasksOf(p.masks), EnvOf(base) + p.env;
    assert Items(Draw(base, p)) == inner + masks + env;
    EmitConcat(inner + masks, env, 0, alloc);
    EmitConcat(inner, masks, 0, alloc);
    EnvIsPlain(base);
  }

  /** What the sandbox sees in the end, in terms of what the phases before the masks mount. */
  lemma SeenThroughMasks(
    base: Base, calls: seq<Call>, command: seq<Word>, alloc: Alloc, there: set<Word>, path: Parts)
    requires Finishes(base, calls, command, alloc)
    ensures var p := PlanOf(NOTHING, calls);
            Resolve(MountsOf(ArgvOf(base, calls, command, alloc).args, there), path)
            == if MaskedBy(calls, path) then Some(MASK)
               else Resolve(After(Inner(base, p), 0, alloc, BARE, there).mounts, path)
  {
    hide Emit, NamespacesOf, SkeletonOf, RuntimeDirOf, MasksOf, EnvOf, TidyItems, QuietItems, Written, ApplyAll,
         Resolve, Masked, MaskedBy, Settings, Inner, Clear, PlanOf, Draw, Items, ArgvOf, Plain, Finishes, Finish;
    var p := PlanOf(NOTHING, calls);
    FinishesIs(base, calls, command, alloc);
    NothingIsSound();
    PlanIsSound(NOTHING, calls);
    ArgvReadsBack(base, calls, command, alloc);
    PhasesInOrder(base, p, command, alloc);
    var inner, masks, env := Inner(base, p), MasksOf(p.masks), EnvOf(base) + p.env;
    var t := After(inner, 0, alloc, BARE, there);
    var u := After(masks, |inner|, alloc, t, there);
    AfterConcat(inner + masks, env, 0, alloc, BARE, there);
    AfterConcat(inner, masks, 0, alloc, BARE, there);
    EnvIsClear(base, p, path);
    AfterClear(env, |inner| + |masks|, alloc, u, there, path);
    MasksApplied(t, p.masks, |inner|, alloc, path, there);
    NothingMasked(path);
    PlanMasks(NOTHING, calls, path);
  }

  /**
   Whatever was bound before or after: at or below every masked directory the sandbox sees an
   empty read-only tmpfs, and nowhere else does a mask change what it sees.
   */
  lemma MasksWin(
    base: Base, calls: seq<Call>, command: seq<Word>, alloc: Alloc, there: set<Word>, path: Parts)
    requires Finishes(base, calls, command, alloc)
    ensures var seen := Resolve(MountsOf(ArgvOf(base, calls, command, alloc).args, there), path);
            var unmasked := After(Inner(base, PlanOf(NOTHING, calls)), 0, alloc, BARE, there).mounts;
            && (MaskedBy(calls, path) ==> seen == Some(Empty(Some(Text("4096")), true)))
            && (!MaskedBy(calls, path) ==> seen == Resolve(unmasked, path))
  {
    hide MaskedBy, ArgvOf, MountsOf, PlanOf, After, Inner, Resolve;
    SeenThroughMasks(base, calls, command, alloc, there, path);
  }

  // ----- the synthetic accounts and the cap on /tmp -----

  lemma FileWins(a: seq<Item>, i: Item, b: seq<Item>, alloc: Alloc, there: set<Word>, path: Parts)
    requires i.kind.Data? && i.kind.dest == path && TidyItems(b) && Clear(b, path)
    requires Emit(a + [i] + b, 0, alloc).Some?
    ensures alloc(|a|, File(path, i.kind.content)).Some?
    ensures Resolve(After(a + [i] + b, 0, alloc, BARE, there).mounts, path)
         == Some(Bound(alloc(|a|, File(path, i.kind.content)).value, true))
  {
    hide Emit, Written, ApplyAll, Resolve, Clear, Settings, TidyItems;
    var t := After(a, 0, alloc, BARE, there);
    EmitConcat(a + [i], b, 0, alloc);
    EmitConcat(a, [i], 0, alloc);
    EmitSome(i, |a|, alloc);
    NamedReads(i, |a|, alloc);
    WrittenOne(i, |a|, alloc);
    var src := alloc(|a|, File(path, i.kind.content)).value;
    ApplyOne(t, Setting(Opt.RoBind, [src, Path(path)]), there);
    var u := After([i], |a|, alloc, t, there);
    assert u.mounts == t.mounts + [Mount(path, Bound(src, true))];
    ResolvePushed(t.mounts, Mount(path, Bound(src, true)), path);
    AfterConcat(a + [i], b, 0, alloc, BARE, there);
    AfterConcat(a, [i], 0, alloc, BARE, there);
    AfterClear(b, |a| + 1, alloc, u, there, path);
  }

  lemma EmitSome(i: Item, n: nat, alloc: Alloc)
    requires Emit([i], n, alloc).Some?
    ensures ArgsOf(n, i.kind, alloc).Some?
  {
  }

  lemma ApplyOne(t: Layout, s: Setting, there: set<Word>)
    ensures ApplyAll(t, [s], there) == Apply(t, s, there)
  {
    assert [s][1..] == [];
  }

  lemma TmpfsWins(
    a: seq<Item>, origin: Origin, size: Word, dest: Parts, b: seq<Item>, alloc: Alloc, there: set<Word>, path: Parts)
    requires dest <= path && TidyItems(b) && Clear(b, path)
    requires Emit(a + [SizedTmpfs(origin, size, dest)] + b, 0, alloc).Some?
    ensures Resolve(After(a + [SizedTmpfs(origin, size, dest)] + b, 0, alloc, BARE, there).mounts, path)
         == Some(Empty(Some(size), false))
  {
    hide Emit, Written, Resolve, Clear, Settings, TidyItems, ApplyAll;
    var i := SizedTmpfs(origin, size, dest);
    var t := After(a, 0, alloc, BARE, there);
    EmitConcat(a + [i], b, 0, alloc);
    EmitConcat(a, [i], 0, alloc);
    SizedReads(origin, size, dest);
    LiteralWritten(i, |a|, alloc);
    var u := After([i], |a|, alloc, t, there);
    var cap, mount := Setting(Size, [size]), Setting(Tmpfs, [Path(dest)]);
    ApplyConcat(t, [cap], [mount], there);
    ApplyOne(t, cap, there);
    ApplyOne(Apply(t, cap, there), mount, there);
    assert [cap] + [mount] == [cap, mount];
    assert u.mounts == t.mounts + [Mount(dest, Empty(Some(size), false))];
    ResolvePushed(t.mounts, Mount(dest, Empty(Some(size), false)), path);
    AfterConcat(a + [i], b, 0, alloc, BARE, there);
    AfterConcat(a, [i], 0, alloc, BARE, there);
    AfterClear(b, |a| + 1, alloc, u, there, path);
  }

  /** Paths the tail of phase 2 does not mount over. */
  predicate OffTail(path: Parts) {
    && !(["proc"] <= path) && !(["dev"] <= path) && !(NTSYNC <= path) && !(TMP <= path)
    && !(["var"] <= path) && !(["run"] <= path) && !(SANDBOX_HOME <= path)
  }

  lemma OneIsClear(origin: Origin, opt: Opt, dest: Parts, path: Parts)
    requires (opt.Proc? || opt.Dev?) && !(dest <= path)
    ensures ClearItem(One(origin, opt, Path(dest)), path)
  {
    hide Settings;
    OneReads(origin, opt, Path(dest));
  }

  lemma SizedIsClear(origin: Origin, size: Word, dest: Parts, path: Parts)
    requires !(dest <= path)
    ensures ClearItem(SizedTmpfs(origin, size, dest), path)
  {
    hide Settings;
    SizedReads(origin, size, dest);
  }

  /** The mounts after `/tmp`. */
  function TailEnd(base: Base): seq<Item> {
    var b := Origin.Baseline;
    [SizedTmpfs(b, Text(Decimal(TMPFS_SIZE)), ["var"]), SizedTmpfs(b, Text(Decimal(TMPFS_SIZE)), ["run"]),
     Two(b, Opt.Bind, Path(base.home), Path(SANDBOX_HOME))]
  }

  /** The mounts before it. */
  function TailStart(base: Base): seq<Item> {
    var b := Origin.Baseline;
    [One(b, Opt.Proc, Path(["proc"])), One(b, Opt.Dev, Path(["dev"]))]
    + (if NTSYNC in base.host.charDevices then [Two(b, Opt.DevBind, Path(NTSYNC), Path(NTSYNC))] else [])
  }

  lemma TailEndIsClear(base: Base, path: Parts)
    requires !(["var"] <= path) && !(["run"] <= path) && !(SANDBOX_HOME <= path)
    ensures Clear(TailEnd(base), path)
  {
    hide ClearItem, Decimal;
    var b := Origin.Baseline;
    SizedIsClear(b, Text(Decimal(TMPFS_SIZE)), ["var"], path);
    SizedIsClear(b, Text(Decimal(TMPFS_SIZE)), ["run"], path);
    TwoIsClear(b, Opt.Bind, Path(base.home), SANDBOX_HOME, path);
  }

  lemma TailIsClear(base: Base, p: Plan, path: Parts)
    requires OffTail(path)
    ensures Clear(SkeletonTail(base, TmpOf(p)), path)
  {
    hide ClearItem, Decimal;
    var b := Origin.Baseline;
    OneIsClear(b, Opt.Proc, ["proc"], path);
    OneIsClear(b, Opt.Dev, ["dev"], path);
    TwoIsClear(b, Opt.DevBind, Path(NTSYNC), NTSYNC, path);
    SizedIsClear(p.tmp.0, Text(Decimal(p.tmp.1)), TMP, path);
    TailEndIsClear(base, path);
    assert SkeletonTail(base, TmpOf(p)) == TailStart(base) + [TmpOf(p)] + TailEnd(base);
  }

  lemma PathsApart()
    ensures OffTail(PASSWD) && OffTail(GROUP) && !(PASSWD <= GROUP) && !(GROUP <= PASSWD)
  {
    assert PASSWD[0][0] == GROUP[0][0] == 'e' && |PASSWD[0]| == 3;
    assert ["dev"][0][0] == 'd' && TMP[0][0] == 't' && ["var"][0][0] == 'v' && ["run"][0][0] == 'r';
    assert NTSYNC[0][0] == 'd' && |SANDBOX_HOME[0]| == 4 && |["proc"][0]| == 4;
    assert |PASSWD[1]| == 6 && |GROUP[1]| == 5;
  }

  /** The files under `/etc` that cover the host's own are neither of the two. */
  lemma BackupsAreApart(base: Base, p: Plan)
    ensures Clear(BackupsOf(base, p), PASSWD) && Clear(BackupsOf(base, p), GROUP)
  {
    hide Decimal, PasswdContent, GroupContent;
    if p.etc.Some? {
      var files := Backups(PasswdContent(base.uid, base.gid), GroupContent(base.gid));
      forall i | 0 <= i < |files|
        ensures files[i].0 != "passwd" && files[i].0 != "group"
      {
        BackupNames();
      }
      CoveredIsApart(p.etc.value.0, files, p.etc.value.1);
    }
  }

  lemma BackupNames()
    ensures "passwd-" != "passwd" && "passwd+" != "passwd" && "group-" != "passwd" && "group+" != "passwd"
    ensures "subuid" != "passwd" && "subgid" != "passwd"
    ensures "passwd-" != "group" && "passwd+" != "group" && "group-" != "group" && "group+" != "group"
    ensures "subuid" != "group" && "subgid" != "group"
  {
    assert "passwd"[0] == 'p' && "group-"[0] == 'g' && "group+"[0] == 'g' && "subuid"[0] == 's' && "subgid"[0] == 's';
  }

  lemma {:induction false} CoveredIsApart(origin: Origin, files: seq<(string, string)>, host: Host)
    requires forall i :: 0 <= i < |files| ==> files[i].0 != "passwd" && files[i].0 != "group"
    ensures Clear(Covered(origin, files, host), PASSWD) && Clear(Covered(origin, files, host), GROUP)
  {
    hide Settings;
    if files != [] {
      CoveredIsApart(origin, files[1..], host);
      var p := ["etc", files[0].0];
      assert p[1] != PASSWD[1] && p[1] != GROUP[1];
      assert !(p <= PASSWD) && !(p <= GROUP);
    }
  }

  /** What is mounted after the accounts. */
  function AfterAccounts(base: Base, p: Plan): seq<Item> {
    BackupsOf(base, p) + SkeletonTail(base, TmpOf(p)) + RuntimeDirOf(base) + p.binds
  }

  lemma AfterAccountsIsClear(base: Base, p: Plan, path: Parts)
    requires path == PASSWD || path == GROUP
    requires SoundPlan(p) && Clear(p.binds, path)
    ensures Clear(AfterAccounts(base, p), path) && TidyItems(AfterAccounts(base, p))
  {
    hide Clear, SkeletonTail, RuntimeDirOf, BackupsOf, TidyItem, QuietItem, OffTail;
    PathsApart();
    BackupsAreApart(base, p);
    TailIsClear(base, p, path);
    RuntimeDirIsClear(base, path);
    ClearConcat(BackupsOf(base, p), SkeletonTail(base, TmpOf(p)), path);
    ClearConcat(BackupsOf(base, p) + SkeletonTail(base, TmpOf(p)), RuntimeDirOf(base), path);
    ClearConcat(BackupsOf(base, p) + SkeletonTail(base, TmpOf(p)) + RuntimeDirOf(base), p.binds, path);
    BackupsArePlain(base, p);
    TailIsPlain(base, p);
    RuntimeDirIsPlain(base);
  }

  lemma BackupsArePlain(base: Base, p: Plan)
    ensures Plain(BackupsOf(base, p))
  {
    hide Plain, Covered, Backups, PasswdContent, GroupContent;
    DataIsPlain(BackupsOf(base, p));
  }

  lemma InnerAroundAccounts(base: Base, p: Plan)
    ensures var before := NamespacesOf(p) + SkeletonHead() + EtcOf(base, p);
            var accounts := AccountsOf(base, p);
            && Inner(base, p) == before + [accounts[0]] + ([accounts[1]] + AfterAccounts(base, p))
            && Inner(base, p) == before + [accounts[0]] + [accounts[1]] + AfterAccounts(base, p)
            && accounts[0].kind == Data(PasswdContent(base.uid, base.gid), PASSWD)
            && accounts[1].kind == Data(GroupContent(base.gid), GROUP)
  {
    hide NamespacesOf, SkeletonHead, EtcOf, SkeletonTail, RuntimeDirOf, BackupsOf, PasswdContent, GroupContent;
    assert AccountsOf(base, p) == [AccountsOf(base, p)[0]] + [AccountsOf(base, p)[1]];
  }

  /**
   With the allowlist or with the host's whole `/etc`: unless a call mounts over it, what the
   sandbox reads as its passwd and group is the file the allocator wrote the synthetic one to.
   */
  lemma AccountsAreSynthetic(
    base: Base, calls: seq<Call>, command: seq<Word>, alloc: Alloc, there: set<Word>, path: Parts)
    requires path == PASSWD || path == GROUP
    requires Finishes(base, calls, command, alloc) && NoneReaches(calls, path)
    ensures var content := if path == PASSWD then PasswdContent(base.uid, base.gid) else GroupContent(base.gid);
            exists n: nat :: alloc(n, File(path, content)).Some? &&
              Resolve(MountsOf(ArgvOf(base, calls, command, alloc).args, there), path)
              == Some(Bound(alloc(n, File(path, content)).value, true))
  {
    hide Emit, NamespacesOf, SkeletonHead, EtcOf, RuntimeDirOf, MasksOf, EnvOf, TidyItem, QuietItem, Resolve, MaskedBy,
         Inner, PlanOf, Draw, ArgvOf, Finishes, Finish, PasswdContent, GroupContent, After, MountsOf, AfterAccounts,
         NoneReaches, Plain, OffTail;
    var p := PlanOf(NOTHING, calls);
    FinishesIs(base, calls, command, alloc);
    NothingIsSound();
    PlanIsSound(NOTHING, calls);
    PathsApart();
    BindsAreClear(NOTHING, calls, path);
    SeenThroughMasks(base, calls, command, alloc, there, path);
    PhasesInOrder(base, p, command, alloc);
    AfterAccountsIsClear(base, p, path);
    InnerAroundAccounts(base, p);
    var before := NamespacesOf(p) + SkeletonHead() + EtcOf(base, p);
    var accounts := AccountsOf(base, p);
    if path == PASSWD {
      DataIsClear([accounts[1]], path);
      DataIsPlain([accounts[1]]);
      ClearConcat([accounts[1]], AfterAccounts(base, p), path);
      TidyConcat([accounts[1]], AfterAccounts(base, p));
      FileWins(before, accounts[0], [accounts[1]] + AfterAccounts(base, p), alloc, there, path);
    } else {
      FileWins(before + [accounts[0]], accounts[1], AfterAccounts(base, p), alloc, there, path);
    }
  }

  lemma TidyConcat(a: seq<Item>, b: seq<Item>)
    requires Plain(a) && TidyItems(b)
    ensures TidyItems(a + b)
  {
    hide TidyItem, QuietItem;
  }

  lemma TmpIsApart()
    ensures !(["var"] <= TMP) && !(["run"] <= TMP) && !(SANDBOX_HOME <= TMP)
  {
    FixedPathsDiffer();
  }

  lemma AfterTmpIsClear(base: Base, p: Plan)
    requires SoundPlan(p) && Clear(p.binds, TMP)
    ensures Clear(TailEnd(base) + RuntimeDirOf(base) + p.binds, TMP)
    ensures TidyItems(TailEnd(base) + RuntimeDirOf(base) + p.binds)
  {
    hide Clear, TidyItem, QuietItem, RuntimeDirOf, TailEnd;
    TmpIsApart();
    TailEndIsClear(base, TMP);
    RuntimeDirIsClear(base, TMP);
    ClearConcat(TailEnd(base), RuntimeDirOf(base), TMP);
    ClearConcat(TailEnd(base) + RuntimeDirOf(base), p.binds, TMP);
    TailSplits(base, p);
    TailIsPlain(base, p);
    RuntimeDirIsPlain(base);
    EndOfPlain(TailStart(base) + [TmpOf(p)], TailEnd(base));
  }

  lemma EndOfPlain(a: seq<Item>, b: seq<Item>)
    requires TidyItems(a + b)
    ensures TidyItems(b)
  {
    hide TidyItem;
    forall i | 0 <= i < |b|
      ensures TidyItem(b[i])
    {
      assert (a + b)[|a| + i] == b[i];
    }
  }

  lemma TailSplits(base: Base, p: Plan)
    ensures SkeletonTail(base, TmpOf(p)) == TailStart(base) + [TmpOf(p)] + TailEnd(base)
  {
    hide Decimal;
  }

  /** However often its size is moved, `/tmp` is one tmpfs with the last cap asked for. */
  lemma TmpIsCapped(base: Base, calls: seq<Call>, command: seq<Word>, alloc: Alloc, there: set<Word>)
    requires Finishes(base, calls, command, alloc) && NoneReaches(calls, TMP)
    ensures Resolve(MountsOf(ArgvOf(base, calls, command, alloc).args, there), TMP)
         == Some(Empty(Some(Text(Decimal(LastTmpSize(calls, TMP_SIZE)))), false))
  {
    hide Emit, NamespacesOf, SkeletonHead, SkeletonTail, EtcOf, AccountsOf, BackupsOf, RuntimeDirOf, MasksOf, EnvOf,
         TidyItem, QuietItem, Resolve, MaskedBy, PlanOf, Draw, ArgvOf, Finishes, Finish, After, MountsOf, Decimal,
         NoneReaches, Plain, LastTmpSize, TailStart, TailEnd, Given, LastDir;
    var p := PlanOf(NOTHING, calls);
    FinishesIs(base, calls, command, alloc);
    NothingIsSound();
    NoTimes();
    PlanRemembers(NOTHING, calls);
    PlanIsSound(NOTHING, calls);
    BindsAreClear(NOTHING, calls, TMP);
    SeenThroughMasks(base, calls, command, alloc, there, TMP);
    PhasesInOrder(base, p, command, alloc);
    TailSplits(base, p);
    AfterTmpIsClear(base, p);
    var before := NamespacesOf(p) + SkeletonFront(base, p) + TailStart(base);
    var rest := TailEnd(base) + RuntimeDirOf(base) + p.binds;
    assert Inner(base, p) == before + [TmpOf(p)] + rest;
    TmpfsWins(before, p.tmp.0, Text(Decimal(p.tmp.1)), TMP, rest, alloc, there, TMP);
  }
}
