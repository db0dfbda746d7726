/** What every sandbox gets, whatever the history of calls that built its command line. */
module BwrapSafety {
  import opened Results
  import opened Bwrap
  import opened BwrapPlan
  import opened Mounts

  // ----- operations that read as options -----

  /** Every tmpfs has its own cap, and no cap is for anything else. */
  predicate Paired(ss: seq<Setting>) {
    && (forall i :: 0 <= i < |ss| && ss[i].opt.Tmpfs? ==> i > 0 && ss[i - 1].opt.Size?)
    && (forall i :: 0 <= i < |ss| && ss[i].opt.Size? ==> i + 1 < |ss| && ss[i + 1].opt.Tmpfs?)
  }

  /** The options that decide the namespaces and the working directory. */
  predicate PhaseOne(opt: Opt) {
    opt.UnshareAll? || opt.ShareNet? || opt.Chdir? || opt.UnshareUser? || opt.DisableUserns?
  }

  predicate Quiet(ss: seq<Setting>) {
    forall i :: 0 <= i < |ss| ==> !PhaseOne(ss[i].opt)
  }

  predicate Tidy(argv: seq<Word>) {
    OnlyOptions(argv) && Paired(Settings(argv).0)
  }

  predicate Literal(kind: Kind) {
    kind.Args? || kind.Noted?
  }

  predicate TidyItem(i: Item) {
    Literal(i.kind) ==> Tidy(i.kind.args)
  }

  predicate QuietItem(i: Item) {
    Literal(i.kind) ==> Quiet(Settings(i.kind.args).0)
  }

  predicate TidyItems(items: seq<Item>) {
    forall i :: 0 <= i < |items| ==> TidyItem(items[i])
  }

  predicate QuietItems(items: seq<Item>) {
    forall i :: 0 <= i < |items| ==> QuietItem(items[i])
  }

  lemma PairedConcat(a: seq<Setting>, b: seq<Setting>)
    requires Paired(a) && Paired(b)
    ensures Paired(a + b)
  {
  }

  /** One option with its values reads as that option. */
  lemma OneSetting(opt: Opt, values: seq<Word>)
    requires |values| == Arity(opt)
    ensures Settings([Flag(opt)] + values).0 == [Setting(opt, values)]
    ensures OnlyOptions([Flag(opt)] + values)
  {
    hide Settings;
    SettingsOne(opt, values, []);
    SettingsStep([]);
    assert [Flag(opt)] + values + [] == [Flag(opt)] + values;
  }

  lemma TwoSettings(first: Opt, a: seq<Word>, second: Opt, b: seq<Word>)
    requires |a| == Arity(first) && |b| == Arity(second)
    ensures Settings([Flag(first)] + a + ([Flag(second)] + b)).0 == [Setting(first, a), Setting(second, b)]
    ensures OnlyOptions([Flag(first)] + a + ([Flag(second)] + b))
  {
    hide Settings;
    OneSetting(second, b);
    SettingsOne(first, a, [Flag(second)] + b);
  }

  lemma BareReads(origin: Origin, opt: Opt)
    requires Arity(opt) == 0
    ensures TidyItem(Bare(origin, opt)) && Settings(Bare(origin, opt).kind.args).0 == [Setting(opt, [])]
  {
    hide Settings;
    OneSetting(opt, []);
    assert [Flag(opt)] + [] == [Flag(opt)];
  }

  lemma OneReads(origin: Origin, opt: Opt, arg: Word)
    requires Arity(opt) == 1 && !opt.Size? && !opt.Tmpfs?
    ensures TidyItem(One(origin, opt, arg)) && Settings(One(origin, opt, arg).kind.args).0 == [Setting(opt, [arg])]
  {
    hide Settings;
    OneSetting(opt, [arg]);
    assert [Flag(opt)] + [arg] == [Flag(opt), arg];
  }

  lemma TwoReads(origin: Origin, opt: Opt, first: Word, second: Word)
    requires Arity(opt) == 2
    ensures TidyItem(Two(origin, opt, first, second))
    ensures Settings(Two(origin, opt, first, second).kind.args).0 == [Setting(opt, [first, second])]
  {
    hide Settings;
    OneSetting(opt, [first, second]);
    assert [Flag(opt)] + [first, second] == [Flag(opt), first, second];
  }

  lemma SizedReads(origin: Origin, size: Word, dir: Parts)
    ensures TidyItem(SizedTmpfs(origin, size, dir))
    ensures Settings(SizedTmpfs(origin, size, dir).kind.args).0
         == [Setting(Size, [size]), Setting(Tmpfs, [Path(dir)])]
  {
    hide Settings;
    TwoSettings(Size, [size], Tmpfs, [Path(dir)]);
    assert [Flag(Size)] + [size] + ([Flag(Tmpfs)] + [Path(dir)]) == [Flag(Size), size, Flag(Tmpfs), Path(dir)];
  }

  lemma PairReads(origin: Origin)
    ensures TidyItem(UsernsPair(origin))
    ensures Settings(UsernsPair(origin).kind.args).0 == [Setting(UnshareUser, []), Setting(Opt.DisableUserns, [])]
  {
    hide Settings;
    TwoSettings(UnshareUser, [], Opt.DisableUserns, []);
    assert [Flag(UnshareUser)] + [] + ([Flag(Opt.DisableUserns)] + [])
        == [Flag(UnshareUser), Flag(Opt.DisableUserns)];
  }

  lemma ShimReads(origin: Origin, hostPath: Parts)
    ensures var s := ShimItems(origin, hostPath);
            && TidyItems(s)
            && Settings(s[0].kind.args).0
               == [Setting(OverlaySrc, [Path(USR_BIN)]), Setting(TmpOverlay, [Path(USR_BIN)])]
            && Settings(s[1].kind.args).0 == [Setting(Opt.RoBind, [Path(hostPath), Path(FLATPAK_SPAWN_INSIDE)])]
            && Settings(s[2].kind.args).0 == [Setting(RemountRo, [Path(USR_BIN)])]
  {
    hide Settings;
    TwoSettings(OverlaySrc, [Path(USR_BIN)], TmpOverlay, [Path(USR_BIN)]);
    assert [Flag(OverlaySrc)] + [Path(USR_BIN)] + ([Flag(TmpOverlay)] + [Path(USR_BIN)])
        == [Flag(OverlaySrc), Path(USR_BIN), Flag(TmpOverlay), Path(USR_BIN)];
    TwoReads(origin, Opt.RoBind, Path(hostPath), Path(FLATPAK_SPAWN_INSIDE));
    OneReads(origin, RemountRo, Path(USR_BIN));
  }

  lemma RuntimeDirReads(base: Base)
    ensures TidyItems(RuntimeDirOf(base))
    ensures Settings(RuntimeDirOf(base)[0].kind.args).0
         == [Setting(Perms, [Text("0700")]), Setting(Dir, [Path(base.runtimeDir)])]
  {
    hide Settings;
    TwoSettings(Perms, [Text("0700")], Dir, [Path(base.runtimeDir)]);
    assert [Flag(Perms)] + [Text("0700")] + ([Flag(Dir)] + [Path(base.runtimeDir)])
        == [Flag(Perms), Text("0700"), Flag(Dir), Path(base.runtimeDir)];
  }

  // ----- the phases of a plan -----

  /** An operation that reads as options, none of them of phase 1. */
  predicate Plain(items: seq<Item>) {
    TidyItems(items) && QuietItems(items)
  }

  predicate SoundPlan(p: Plan) {
    && Sound(p) && Plain(p.binds) && Plain(p.env)
    && forall i :: 0 <= i < |p.env| ==> SetsEnv(p.env[i])
  }

  predicate SetsEnv(i: Item) {
    i.kind.Args? && |i.kind.args| == 3 && i.kind.args[0] == Flag(Opt.SetEnv)
  }

  lemma SettingIsQuiet(i: Item, s: Setting)
    requires Literal(i.kind) && Settings(i.kind.args).0 == [s] && !PhaseOne(s.opt)
    ensures QuietItem(i)
  {
  }

  lemma OneIsPlain(origin: Origin, opt: Opt, arg: Word)
    requires Arity(opt) == 1 && !opt.Size? && !opt.Tmpfs? && !PhaseOne(opt)
    ensures TidyItem(One(origin, opt, arg)) && QuietItem(One(origin, opt, arg))
  {
    hide Settings;
    OneReads(origin, opt, arg);
  }

  lemma TwoIsPlain(origin: Origin, opt: Opt, first: Word, second: Word)
    requires Arity(opt) == 2
    ensures TidyItem(Two(origin, opt, first, second)) && QuietItem(Two(origin, opt, first, second))
  {
    hide Settings;
    TwoReads(origin, opt, first, second);
  }

  lemma SizedIsPlain(origin: Origin, size: Word, dir: Parts)
    ensures TidyItem(SizedTmpfs(origin, size, dir)) && QuietItem(SizedTmpfs(origin, size, dir))
  {
    hide Settings;
    SizedReads(origin, size, dir);
  }

  lemma ShimIsPlain(origin: Origin, hostPath: Parts)
    ensures Plain(ShimItems(origin, hostPath))
  {
    hide Settings;
    ShimReads(origin, hostPath);
  }

  lemma PushedIsPlain(c: Call, origin: Origin)
    ensures Plain(Pushed(c, origin))
  {
    hide Settings, TidyItem, QuietItem;
    match c {
      case RoBind(src, dst) => TwoIsPlain(origin, Opt.RoBind, Path(src), Path(dst));
      case DevBind(src, dst) => TwoIsPlain(origin, Opt.DevBind, Path(src), Path(dst));
      case DevBindTry(src, dst) => TwoIsPlain(origin, Opt.DevBindTry, Path(src), Path(dst));
      case Bind(src, dst) => TwoIsPlain(origin, Opt.Bind, Path(src), Path(dst));
      case Symlink(target, link) => TwoIsPlain(origin, Opt.Symlink, target, Path(link));
      case BindInit(hostPath) => TwoIsPlain(origin, Opt.RoBind, Path(hostPath), Path(INIT_INSIDE));
      case FlatpakSpawnShim(hostPath) => ShimIsPlain(origin, hostPath);
      case RoBindData(content, dest) => DataIsPlain([Item(origin, Data(content, dest))]);
      case _ => DataIsPlain([]);
    }
  }

  lemma NextIsSoundPlan(p: Plan, c: Call)
    requires SoundPlan(p)
    ensures SoundPlan(Next(p, c))
  {
    hide Settings, Pushed, HasPair, Tidy, Quiet;
    NextIsSound(p, c);
    PushedIsPlain(c, p.origin);
    if c.SetEnv? {
      TwoReads(p.origin, Opt.SetEnv, c.key, c.value);
      SettingIsQuiet(Two(p.origin, Opt.SetEnv, c.key, c.value), Setting(Opt.SetEnv, [c.key, c.value]));
    }
  }

  lemma {:induction false} PlanIsSound(p: Plan, calls: seq<Call>)
    requires SoundPlan(p)
    ensures SoundPlan(PlanOf(p, calls))
    decreases |calls|
  {
    hide Next, SoundPlan;
    if calls != [] {
      NextIsSoundPlan(p, calls[0]);
      PlanIsSound(Next(p, calls[0]), calls[1..]);
    }
  }

  lemma HeadIsPlain()
    ensures Plain(SkeletonHead())
  {
    hide Settings, TidyItem, QuietItem;
    var b := Origin.Baseline;
    TwoIsPlain(b, Opt.RoBind, Path(["usr"]), Path(["usr"]));
    TwoIsPlain(b, Opt.Symlink, Text("usr/bin"), Path(["bin"]));
    TwoIsPlain(b, Opt.Symlink, Text("usr/lib"), Path(["lib"]));
    TwoIsPlain(b, Opt.Symlink, Text("usr/lib64"), Path(["lib64"]));
    TwoIsPlain(b, Opt.Symlink, Text("usr/bin"), Path(["sbin"]));
    TwoIsPlain(b, RoBindTry, Path(["opt"]), Path(["opt"]));
  }

  lemma {:induction false} AllowlistIsQuiet(names: seq<string>, host: Host)
    ensures Plain(AllowlistFrom(names, host))
  {
    hide Settings;
    if names != [] {
      AllowlistIsQuiet(names[1..], host);
      var p := ["etc", names[0]];
      TwoReads(Origin.Baseline, Opt.RoBind, Path(p), Path(p));
    }
  }

  lemma TailIsPlain(base: Base, p: Plan)
    ensures Plain(SkeletonTail(base, TmpOf(p)))
  {
    hide Settings, Decimal, TidyItem, QuietItem;
    var b := Origin.Baseline;
    OneIsPlain(b, Opt.Proc, Path(["proc"]));
    OneIsPlain(b, Opt.Dev, Path(["dev"]));
    TwoIsPlain(b, Opt.DevBind, Path(NTSYNC), Path(NTSYNC));
    SizedIsPlain(p.tmp.0, Text(Decimal(p.tmp.1)), TMP);
    SizedIsPlain(b, Text(Decimal(TMPFS_SIZE)), ["var"]);
    SizedIsPlain(b, Text(Decimal(TMPFS_SIZE)), ["run"]);
    TwoIsPlain(b, Opt.Bind, Path(base.home), Path(SANDBOX_HOME));
  }

  lemma EtcIsPlain(base: Base, p: Plan)
    ensures Plain(EtcOf(base, p))
  {
    hide Settings, Decimal, AllowlistFrom;
    AllowlistIsQuiet(ETC_ALLOWLIST, base.host);
    SizedReads(Origin.Baseline, Text(Decimal(TMPFS_SIZE)), ETC);
    if p.etc.Some? {
      TwoReads(p.etc.value.0, Opt.RoBind, Path(ETC), Path(ETC));
    }
  }

  lemma DataIsPlain(items: seq<Item>)
    requires forall i :: 0 <= i < |items| ==> items[i].kind.Data?
    ensures Plain(items)
  {
  }

  lemma PlainConcat(a: seq<Item>, b: seq<Item>)
    requires Plain(a) && Plain(b)
    ensures Plain(a + b)
  {
    hide TidyItem, QuietItem;
  }

  lemma SkeletonIsPlain(base: Base, p: Plan)
    ensures Plain(SkeletonOf(base, p))
  {
    hide Settings, SkeletonHead, SkeletonTail, EtcOf, Covered, Decimal, Plain, PasswdContent, GroupContent;
    HeadIsPlain();
    EtcIsPlain(base, p);
    DataIsPlain(AccountsOf(base, p));
    DataIsPlain(BackupsOf(base, p));
    TailIsPlain(base, p);
    PlainConcat(SkeletonHead(), EtcOf(base, p));
    PlainConcat(SkeletonHead() + EtcOf(base, p), AccountsOf(base, p));
    PlainConcat(SkeletonHead() + EtcOf(base, p) + AccountsOf(base, p), BackupsOf(base, p));
    PlainConcat(SkeletonHead() + EtcOf(base, p) + AccountsOf(base, p) + BackupsOf(base, p),
                SkeletonTail(base, TmpOf(p)));
  }

  lemma MaskReads(origin: Origin, dir: Parts)
    ensures Plain(MaskItems(origin, dir))
    ensures Settings(MaskItems(origin, dir)[0].kind.args).0
         == [Setting(Size, [Text("4096")]), Setting(Tmpfs, [Path(dir)])]
    ensures Settings(MaskItems(origin, dir)[1].kind.args).0 == [Setting(RemountRo, [Path(dir)])]
  {
    hide Settings;
    SizedReads(origin, Text("4096"), dir);
    OneReads(origin, RemountRo, Path(dir));
  }

  lemma {:induction false} MasksArePlain(masks: seq<(Origin, Parts)>)
    ensures Plain(MasksOf(masks))
  {
    hide Plain, MaskItems;
    if masks == [] {
      DataIsPlain([]);
    } else {
      var last := masks[|masks| - 1];
      MasksArePlain(masks[..|masks| - 1]);
      MaskReads(last.0, last.1);
      PlainConcat(MasksOf(masks[..|masks| - 1]), MaskItems(last.0, last.1));
    }
  }

  lemma {:induction false} PassthroughIsPlain(pairs: seq<(Word, Word)>)
    ensures Plain(Passthrough(pairs))
    ensures forall i :: 0 <= i < |Passthrough(pairs)| ==> SetsEnv(Passthrough(pairs)[i])
  {
    hide Settings;
    if pairs != [] {
      PassthroughIsPlain(pairs[1..]);
      TwoReads(Origin.Baseline, Opt.SetEnv, pairs[0].0, pairs[0].1);
    }
  }

  /** The variables every sandbox is given. */
  function FixedEnv(base: Base): seq<Item> {
    var b := Origin.Baseline;
    [Two(b, Opt.SetEnv, Text("HOME"), Path(SANDBOX_HOME)),
     Two(b, Opt.SetEnv, Text("PATH"), Text("/usr/bin:/home/bubbler/.local/bin")),
     Two(b, Opt.SetEnv, Text("XDG_RUNTIME_DIR"), Path(base.runtimeDir)),
     Two(b, Opt.SetEnv, Text("USER"), Text("bubbler")),
     Two(b, Opt.SetEnv, Text("LOGNAME"), Text("bubbler"))]
  }

  lemma FixedEnvIsPlain(base: Base)
    ensures Plain(FixedEnv(base))
  {
    hide Settings, TidyItem, QuietItem;
    var b := Origin.Baseline;
    TwoIsPlain(b, Opt.SetEnv, Text("HOME"), Path(SANDBOX_HOME));
    TwoIsPlain(b, Opt.SetEnv, Text("PATH"), Text("/usr/bin:/home/bubbler/.local/bin"));
    TwoIsPlain(b, Opt.SetEnv, Text("XDG_RUNTIME_DIR"), Path(base.runtimeDir));
    TwoIsPlain(b, Opt.SetEnv, Text("USER"), Text("bubbler"));
    TwoIsPlain(b, Opt.SetEnv, Text("LOGNAME"), Text("bubbler"));
  }

  lemma EnvIsPlain(base: Base)
    ensures Plain(EnvOf(base))
    ensures EnvOf(base)[0] == Bare(Origin.Baseline, ClearEnv)
    ensures forall i :: 1 <= i < |EnvOf(base)| ==> SetsEnv(EnvOf(base)[i])
  {
    hide Settings, Passthrough, TidyItem, QuietItem;
    var head := [Bare(Origin.Baseline, ClearEnv)];
    assert Plain(head) by {
      BareReads(Origin.Baseline, ClearEnv);
      SettingIsQuiet(Bare(Origin.Baseline, ClearEnv), Setting(ClearEnv, []));
    }
    PassthroughIsPlain(base.passthrough);
    FixedEnvIsPlain(base);
    assert EnvOf(base) == head + Passthrough(base.passthrough) + FixedEnv(base);
  }

  lemma RuntimeDirIsPlain(base: Base)
    ensures Plain(RuntimeDirOf(base))
  {
    hide Settings;
    RuntimeDirReads(base);
  }

  /** Everything after phase 1. */
  function Outer(base: Base, p: Plan): seq<Item> {
    SkeletonOf(base, p) + RuntimeDirOf(base) + p.binds + MasksOf(p.masks) + (EnvOf(base) + p.env)
  }

  lemma OuterIsPlain(base: Base, p: Plan)
    requires SoundPlan(p)
    ensures Plain(Outer(base, p))
    ensures Items(Draw(base, p)) == NamespacesOf(p) + Outer(base, p)
  {
    hide SkeletonOf, RuntimeDirOf, MasksOf, EnvOf, Plain, NamespacesOf;
    SkeletonIsPlain(base, p);
    RuntimeDirIsPlain(base);
    MasksArePlain(p.masks);
    EnvIsPlain(base);
    PlainConcat(EnvOf(base), p.env);
    PlainConcat(SkeletonOf(base, p), RuntimeDirOf(base));
    PlainConcat(SkeletonOf(base, p) + RuntimeDirOf(base), p.binds);
    PlainConcat(SkeletonOf(base, p) + RuntimeDirOf(base) + p.binds, MasksOf(p.masks));
    PlainConcat(SkeletonOf(base, p) + RuntimeDirOf(base) + p.binds + MasksOf(p.masks), EnvOf(base) + p.env);
  }

  lemma NamespacesAreTidy(p: Plan)
    requires Sound(p)
    ensures TidyItems(NamespacesOf(p))
  {
    hide Settings, Tidy;
    var b := Origin.Baseline;
    BareReads(b, UnshareAll);
    if p.share.Some? {
      BareReads(p.share.value, Opt.ShareNet);
    }
    BareReads(b, DieWithParent);
    BareReads(b, NewSession);
    OneReads(b, Hostname, Text("bubbler"));
    OneReads(b, Opt.Chdir, Path(p.dir));
    forall i | 0 <= i < |p.later|
      ensures TidyItem(p.later[i])
    {
      PairReads(p.later[i].origin);
    }
  }
}
