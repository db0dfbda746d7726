/**
 What a sandbox sees of the host's `/etc`: with the allowlist only what is on it, and with the
 whole of the host's, none of the files that name the host's own accounts.
 */
module BwrapEtc {
  import opened Results
  import opened Bwrap
  import opened BwrapPlan
  import opened Mounts
  import opened BwrapSafety
  import opened BwrapRuns
  import opened BwrapMounts

  /** The host whose `/etc` the calls ask for. */
  function HostAsked(calls: seq<Call>): Option<Host> {
    if calls == [] then None
    else if HostAsked(calls[1..]).Some? then HostAsked(calls[1..])
    else if calls[0].BindHostEtc? then Some(calls[0].host)
    else None
  }

  /** The only host's `/etc` asked for is the one. */
  lemma {:induction false} HostAskedIs(calls: seq<Call>, i: nat)
    requires i < |calls| && calls[i].BindHostEtc? && HostEtcs(calls) <= 1
    ensures HostAsked(calls) == Some(calls[i].host)
  {
    NoneAsked(calls[1..]);
    if i > 0 {
      SomeAsked(calls[1..], i - 1);
      HostAskedIs(calls[1..], i - 1);
    }
  }

  lemma {:induction false} SomeAsked(calls: seq<Call>, i: nat)
    requires i < |calls| && calls[i].BindHostEtc?
    ensures HostEtcs(calls) >= 1
  {
    if i > 0 {
      SomeAsked(calls[1..], i - 1);
    }
  }

  lemma {:induction false} NoneAsked(calls: seq<Call>)
    ensures HostEtcs(calls) == 0 <==> HostAsked(calls).None?
  {
    if calls != [] {
      NoneAsked(calls[1..]);
    }
  }

  lemma NextHostEtc(p: Plan, c: Call)
    ensures Next(p, c).etc == if c.BindHostEtc? then Some((p.origin, c.host)) else p.etc
  {
    hide Pushed, HasPair;
  }

  lemma {:induction false} PlanEtc(p: Plan, calls: seq<Call>)
    ensures var etc := PlanOf(p, calls).etc;
            && (HostAsked(calls).Some? ==> etc.Some? && etc.value.1 == HostAsked(calls).value)
            && (HostAsked(calls).None? ==> etc == p.etc)
    decreases |calls|
  {
    hide Next;
    if calls != [] {
      NextHostEtc(p, calls[0]);
      PlanEtc(Next(p, calls[0]), calls[1..]);
    }
  }

  lemma EtcIsOffTail(path: Parts)
    requires ETC <= path
    ensures OffTail(path)
  {
    assert path[0] == "etc";
    assert path[0][0] == 'e' && |path[0]| == 3;
    assert ["dev"][0][0] == 'd' && TMP[0][0] == 't' && ["var"][0][0] == 'v' && ["run"][0][0] == 'r';
    assert NTSYNC[0][0] == 'd' && |SANDBOX_HOME[0]| == 4 && |["proc"][0]| == 4;
  }

  // ----- with the allowlist -----

  /** What stands at a path at or below `/etc`. */
  function Allowed(host: Host, names: seq<string>, path: Parts, otherwise: Shown): Shown {
    if |path| > 1 && path[1] in names && ["etc", path[1]] in host.present then Bound(Path(["etc", path[1]]), true)
    else otherwise
  }

  lemma AllowedOne(host: Host, name: string, n: nat, alloc: Alloc, t: Layout, there: set<Word>, path: Parts, was: Shown)
    requires ETC <= path && Resolve(t.mounts, path) == Some(was)
    ensures var items := AllowlistFrom([name], host);
            && Emit(items, n, alloc).Some?
            && Resolve(After(items, n, alloc, t, there).mounts, path) == Some(Allowed(host, [name], path, was))
  {
    hide Resolve, Settings, Written, ApplyAll, Apply;
    var p := ["etc", name];
    assert [name][1..] == [];
    if p in host.present {
      var i := Two(Origin.Baseline, Opt.RoBind, Path(p), Path(p));
      assert AllowlistFrom([], host) == [] && [i] + [] == [i];
      assert AllowlistFrom([name], host) == [i];
      TwoReads(Origin.Baseline, Opt.RoBind, Path(p), Path(p));
      LiteralWritten(i, n, alloc);
      ApplyOne(t, Setting(Opt.RoBind, [Path(p), Path(p)]), there);
      BoundOver(t, p, path, there);
      assert p <= path <==> |path| > 1 && path[1] == name;
    } else {
      assert AllowlistFrom([name], host) == [];
      EmitNothing(n, alloc);
      Unchanged(t, there);
    }
  }

  lemma Unchanged(t: Layout, there: set<Word>)
    ensures ApplyAll(t, [], there) == t
  {
  }

  lemma BoundOver(t: Layout, p: Parts, path: Parts, there: set<Word>)
    ensures Resolve(Apply(t, Setting(Opt.RoBind, [Path(p), Path(p)]), there).mounts, path)
         == if p <= path then Some(Bound(Path(p), true)) else Resolve(t.mounts, path)
  {
    hide Resolve;
    ResolvePushed(t.mounts, Mount(p, Bound(Path(p), true)), path);
  }

  /** The entries mounted one after another: an entry that is there shows the host's, anything else stays. */
  lemma {:induction false} AllowlistApplied(
    names: seq<string>, host: Host, n: nat, alloc: Alloc, t: Layout, there: set<Word>, path: Parts, was: Shown)
    requires ETC <= path && Resolve(t.mounts, path) == Some(was)
    ensures var items := AllowlistFrom(names, host);
            && Emit(items, n, alloc).Some?
            && Resolve(After(items, n, alloc, t, there).mounts, path) == Some(Allowed(host, names, path, was))
    decreases |names|
  {
    hide Resolve, Written, After, Emit;
    if names == [] {
      EmitNothing(n, alloc);
      NothingAfter(n, alloc, t, there);
    } else {
      var one, rest := AllowlistFrom([names[0]], host), AllowlistFrom(names[1..], host);
      AllowlistSplits(names, host);
      AllowedOne(host, names[0], n, alloc, t, there, path, was);
      AllowlistApplied(names[1..], host, n + |one|, alloc, After(one, n, alloc, t, there), there, path,
                       Allowed(host, [names[0]], path, was));
      EmitConcat(one, rest, n, alloc);
      AfterConcat(one, rest, n, alloc, t, there);
      assert names == [names[0]] + names[1..];
    }
  }

  lemma NothingAfter(n: nat, alloc: Alloc, t: Layout, there: set<Word>)
    ensures After([], n, alloc, t, there) == t
  {
    EmitNothing(n, alloc);
  }

  lemma AllowlistSplits(names: seq<string>, host: Host)
    requires names != []
    ensures AllowlistFrom(names, host) == AllowlistFrom([names[0]], host) + AllowlistFrom(names[1..], host)
  {
    assert [names[0]][1..] == [];
    assert AllowlistFrom([], host) == [];
  }

  /** What is mounted after `/etc`. */
  function AfterEtc(base: Base, p: Plan): seq<Item> {
    AccountsOf(base, p) + AfterAccounts(base, p)
  }

  lemma AfterEtcIsClear(base: Base, p: Plan, path: Parts)
    requires ETC <= path && !(PASSWD <= path) && !(GROUP <= path)
    requires SoundPlan(p) && Clear(p.binds, path) && p.etc.None?
    ensures Clear(AfterEtc(base, p), path) && TidyItems(AfterEtc(base, p))
  {
    hide Clear, SkeletonTail, RuntimeDirOf, TidyItem, QuietItem, OffTail, PasswdContent, GroupContent;
    EtcIsOffTail(path);
    TailIsClear(base, p, path);
    RuntimeDirIsClear(base, path);
    var tail := SkeletonTail(base, TmpOf(p));
    DataIsClear(AccountsOf(base, p), path);
    DataIsPlain(AccountsOf(base, p));
    TailIsPlain(base, p);
    RuntimeDirIsPlain(base);
    ClearConcat(tail, RuntimeDirOf(base), path);
    ClearConcat(tail + RuntimeDirOf(base), p.binds, path);
    ClearConcat(AccountsOf(base, p), tail + RuntimeDirOf(base) + p.binds, path);
    assert [] + tail == tail;
    assert AfterEtc(base, p) == AccountsOf(base, p) + (tail + RuntimeDirOf(base) + p.binds);
  }

  lemma InnerAroundEtc(base: Base, p: Plan)
    requires p.etc.None?
    ensures Inner(base, p) == (NamespacesOf(p) + SkeletonHead())
                              + [SizedTmpfs(Origin.Baseline, Text(Decimal(TMPFS_SIZE)), ETC)]
                              + AllowlistFrom(ETC_ALLOWLIST, base.host) + AfterEtc(base, p)
  {
    hide NamespacesOf, SkeletonHead, SkeletonTail, RuntimeDirOf, BackupsOf, AccountsOf, AllowlistFrom, Decimal;
  }

  /**
   Without a call for the host's `/etc`, and unless a call mounts over it, a path at or below
   `/etc`, the accounts apart, is the host's own read-only if its entry is on the allowlist and
   the host has it; anything else is the tmpfs.
   */
  lemma EtcIsAnAllowlist(
    base: Base, calls: seq<Call>, command: seq<Word>, alloc: Alloc, there: set<Word>, path: Parts)
    requires ETC <= path && !(PASSWD <= path) && !(GROUP <= path)
    requires Finishes(base, calls, command, alloc) && NoneReaches(calls, path) && HostEtcs(calls) == 0
    ensures Resolve(MountsOf(ArgvOf(base, calls, command, alloc).args, there), path)
         == Some(if |path| > 1 && path[1] in ETC_ALLOWLIST && ["etc", path[1]] in base.host.present
                 then Bound(Path(["etc", path[1]]), true)
                 else Empty(Some(Text(Decimal(TMPFS_SIZE))), false))
  {
    hide Emit, NamespacesOf, SkeletonHead, AllowlistFrom, MasksOf, EnvOf, TidyItem, QuietItem, Resolve, MaskedBy,
         Inner, PlanOf, Draw, ArgvOf, Finishes, Finish, After, MountsOf, AfterEtc, NoneReaches, Plain, Decimal,
         HostEtcs, HostAsked, Clear;
    var p := PlanOf(NOTHING, calls);
    FinishesIs(base, calls, command, alloc);
    NothingIsSound();
    PlanIsSound(NOTHING, calls);
    NothingIsClear(path);
    BindsAreClear(NOTHING, calls, path);
    SeenThroughMasks(base, calls, command, alloc, there, path);
    PhasesInOrder(base, p, command, alloc);
    NoneAsked(calls);
    PlanEtc(NOTHING, calls);
    AfterEtcIsClear(base, p, path);
    InnerAroundEtc(base, p);
    var size := Text(Decimal(TMPFS_SIZE));
    var front := NamespacesOf(p) + SkeletonHead() + [SizedTmpfs(Origin.Baseline, size, ETC)];
    var list := AllowlistFrom(ETC_ALLOWLIST, base.host);
    EmitConcat(front + list, AfterEtc(base, p), 0, alloc);
    EmitConcat(front, list, 0, alloc);
    assert front + [] == front;
    TmpfsWins(NamespacesOf(p) + SkeletonHead(), Origin.Baseline, size, ETC, [], alloc, there, path);
    var t := After(front, 0, alloc, BARE, there);
    AllowlistApplied(ETC_ALLOWLIST, base.host, |front|, alloc, t, there, path, Empty(Some(size), false));
    AfterConcat(front + list, AfterEtc(base, p), 0, alloc, BARE, there);
    AfterConcat(front, list, 0, alloc, BARE, there);
    AfterClear(AfterEtc(base, p), |front + list|, alloc, After(list, |front|, alloc, t, there), there, path);
  }

  lemma NothingIsClear(path: Parts)
    ensures Clear(NOTHING.binds, path) && Clear([], path)
  {
  }

  // ----- with the host's own -----

  /** The files of a host's `/etc` that name its accounts, beside passwd and group themselves. */
  const ACCOUNT_FILES: seq<string> := ["passwd-", "passwd+", "group-", "group+", "subuid", "subgid"]

  /** What the sandbox is to read in their place. */
  function CoverOf(base: Base, name: string): string {
    if name == "passwd-" || name == "passwd+" then PasswdContent(base.uid, base.gid)
    else if name == "group-" || name == "group+" then GroupContent(base.gid)
    else ""
  }

  lemma BackupsAre(base: Base, k: nat)
    requires k < |ACCOUNT_FILES|
    ensures var files := Backups(PasswdContent(base.uid, base.gid), GroupContent(base.gid));
            |files| == |ACCOUNT_FILES| && files[k] == (ACCOUNT_FILES[k], CoverOf(base, ACCOUNT_FILES[k]))
  {
    hide PasswdContent, GroupContent;
    assert "passwd-"[6] == '-' && "passwd+"[6] == '+' && "group-"[0] == 'g' && "group+"[0] == 'g';
    assert "subuid"[0] == 's' && "subgid"[0] == 's' && "passwd-"[0] == 'p' && "passwd+"[0] == 'p';
  }

  lemma AccountFilesDiffer(j: nat, k: nat)
    requires j < k < |ACCOUNT_FILES|
    ensures ACCOUNT_FILES[j] != ACCOUNT_FILES[k]
  {
    assert "passwd-"[6] == '-' && "passwd+"[6] == '+' && "group-"[5] == '-' && "group+"[5] == '+';
    assert "subuid"[3] == 'u' && "subgid"[3] == 'g' && "passwd-"[0] == 'p' && "passwd+"[0] == 'p';
    assert "group-"[0] == 'g' && "group+"[0] == 'g' && "subuid"[0] == 's' && "subgid"[0] == 's';
  }

  lemma {:induction false} CoveredSplits(origin: Origin, files: seq<(string, string)>, host: Host, k: nat)
    requires k < |files| && ["etc", files[k].0] in host.present
    ensures Covered(origin, files, host)
         == Covered(origin, files[..k], host) + [Item(origin, Data(files[k].1, ["etc", files[k].0]))]
            + Covered(origin, files[k + 1..], host)
    decreases |files|
  {
    if k > 0 {
      var rest := files[1..];
      assert rest[..k - 1] == files[..k][1..] && rest[k..] == files[k + 1..];
      CoveredSplits(origin, rest, host, k - 1);
    }
  }

  lemma {:induction false} CoveredIsClear(origin: Origin, files: seq<(string, string)>, host: Host, name: string)
    requires forall i :: 0 <= i < |files| ==> files[i].0 != name
    ensures Clear(Covered(origin, files, host), ["etc", name])
  {
    hide Settings;
    if files != [] {
      CoveredIsClear(origin, files[1..], host, name);
      var p := ["etc", files[0].0];
      assert p[1] != name;
      assert !(p <= ["etc", name]);
    }
  }

  /** What is mounted after the cover of the `k`-th file. */
  function AfterCover(base: Base, p: Plan, files: seq<(string, string)>, k: nat): seq<Item>
    requires p.etc.Some? && k < |files|
  {
    Covered(p.etc.value.0, files[k + 1..], p.etc.value.1)
    + SkeletonTail(base, TmpOf(p)) + RuntimeDirOf(base) + p.binds
  }

  lemma AfterCoverIsClear(base: Base, p: Plan, files: seq<(string, string)>, k: nat)
    requires p.etc.Some? && k < |files|
    requires forall i :: k < i < |files| ==> files[i].0 != files[k].0
    requires SoundPlan(p) && Clear(p.binds, ["etc", files[k].0])
    ensures Clear(AfterCover(base, p, files, k), ["etc", files[k].0]) && TidyItems(AfterCover(base, p, files, k))
  {
    hide Clear, SkeletonTail, RuntimeDirOf, Covered, TidyItem, QuietItem, OffTail;
    var path := ["etc", files[k].0];
    var covers, tail := Covered(p.etc.value.0, files[k + 1..], p.etc.value.1), SkeletonTail(base, TmpOf(p));
    EtcIsOffTail(path);
    CoveredIsClear(p.etc.value.0, files[k + 1..], p.etc.value.1, files[k].0);
    TailIsClear(base, p, path);
    RuntimeDirIsClear(base, path);
    ClearConcat(covers, tail, path);
    ClearConcat(covers + tail, RuntimeDirOf(base), path);
    ClearConcat(covers + tail + RuntimeDirOf(base), p.binds, path);
    DataIsPlain(covers);
    TailIsPlain(base, p);
    RuntimeDirIsPlain(base);
  }

  lemma InnerAroundCover(base: Base, p: Plan, files: seq<(string, string)>, k: nat)
    requires p.etc.Some? && files == Backups(PasswdContent(base.uid, base.gid), GroupContent(base.gid))
    requires k < |files| && ["etc", files[k].0] in p.etc.value.1.present
    ensures Inner(base, p)
         == (NamespacesOf(p) + SkeletonHead() + EtcOf(base, p) + AccountsOf(base, p)
             + Covered(p.etc.value.0, files[..k], p.etc.value.1))
            + [Item(p.etc.value.0, Data(files[k].1, ["etc", files[k].0]))] + AfterCover(base, p, files, k)
  {
    hide NamespacesOf, SkeletonHead, SkeletonTail, RuntimeDirOf, EtcOf, AccountsOf, Covered, Backups, PasswdContent,
         GroupContent;
    CoveredSplits(p.etc.value.0, files, p.etc.value.1, k);
  }

  /**
   With the host's whole `/etc`: each file of it that names the host's accounts, where the host
   has it, is the file the allocator wrote its cover to, unless a call mounts over it.
   */
  lemma HostAccountsAreCovered(
    base: Base, calls: seq<Call>, command: seq<Word>, alloc: Alloc, there: set<Word>, i: nat, name: string)
    requires Finishes(base, calls, command, alloc)
    requires i < |calls| && calls[i].BindHostEtc? && ["etc", name] in calls[i].host.present
    requires name in ACCOUNT_FILES && NoneReaches(calls, ["etc", name])
    ensures var path := ["etc", name];
            exists n: nat :: alloc(n, File(path, CoverOf(base, name))).Some? &&
              Resolve(MountsOf(ArgvOf(base, calls, command, alloc).args, there), path)
              == Some(Bound(alloc(n, File(path, CoverOf(base, name))).value, true))
  {
    hide Emit, NamespacesOf, SkeletonHead, EtcOf, AccountsOf, RuntimeDirOf, MasksOf, EnvOf, TidyItem, QuietItem,
         Resolve, MaskedBy, Inner, PlanOf, Draw, ArgvOf, Finish, After, MountsOf, AfterCover, NoneReaches, Plain,
         PasswdContent, GroupContent, CoverOf, Backups, HostAsked, Clear, Covered;
    var path := ["etc", name];
    var p := PlanOf(NOTHING, calls);
    FinishesIs(base, calls, command, alloc);
    NothingIsSound();
    PlanIsSound(NOTHING, calls);
    NothingIsClear(path);
    BindsAreClear(NOTHING, calls, path);
    SeenThroughMasks(base, calls, command, alloc, there, path);
    PhasesInOrder(base, p, command, alloc);
    HostAskedIs(calls, i);
    PlanEtc(NOTHING, calls);
    var k :| 0 <= k < |ACCOUNT_FILES| && ACCOUNT_FILES[k] == name;
    var files := Backups(PasswdContent(base.uid, base.gid), GroupContent(base.gid));
    BackupsAre(base, k);
    forall j | k < j < |files|
      ensures files[j].0 != files[k].0
    {
      BackupsAre(base, j);
      AccountFilesDiffer(k, j);
    }
    AfterCoverIsClear(base, p, files, k);
    InnerAroundCover(base, p, files, k);
    FileWins(NamespacesOf(p) + SkeletonHead() + EtcOf(base, p) + AccountsOf(base, p)
             + Covered(p.etc.value.0, files[..k], p.etc.value.1),
             Item(p.etc.value.0, Data(files[k].1, path)), AfterCover(base, p, files, k), alloc, there, path);
  }

  /** The entries of the host's `/etc` a sandbox may see. */
  lemma AllowlistIsSpelled(name: string)
    ensures name in ETC_ALLOWLIST <==>
      || name == "ld.so.cache" || name == "ld.so.conf" || name == "ld.so.conf.d" || name == "fonts"
      || name == "localtime" || name == "machine-id" || name == "nsswitch.conf" || name == "hosts"
      || name == "host.conf" || name == "ssl" || name == "ca-certificates" || name == "mime.types" || name == "xdg"
      || name == "gtk-3.0" || name == "gtk-4.0" || name == "pulse" || name == "pipewire" || name == "alsa"
      || name == "drirc" || name == "vulkan" || name == "glvnd" || name == "egl" || name == "vdpau_wrapper.cfg"
      || name == "os-release"
  {
  }
}
