/** What a sandbox that was given the host's whole `/etc` sees of it. */
module BwrapHostEtc {
  import opened Results
  import opened Bwrap
  import opened BwrapPlan
  import opened Mounts
  import opened BwrapSafety
  import opened BwrapRuns
  import opened BwrapMounts
  import opened BwrapEtc
  import opened BwrapShown

  /** What lies over the host's own: the accounts, and what is covered. */
  predicate Overlaid(host: Host, path: Parts) {
    || ["etc", "passwd"] <= path || ["etc", "group"] <= path
    || exists k :: 0 <= k < |ACCOUNT_FILES| && ["etc", ACCOUNT_FILES[k]] in host.present
                   && ["etc", ACCOUNT_FILES[k]] <= path
  }

  lemma {:induction false} CoversMiss(origin: Origin, files: seq<(string, string)>, host: Host, path: Parts)
    requires forall i :: 0 <= i < |files| && ["etc", files[i].0] in host.present ==> !(["etc", files[i].0] <= path)
    ensures Clear(Covered(origin, files, host), path)
  {
    hide Settings;
    if files != [] {
      var rest := files[1..];
      assert forall i :: 0 <= i < |rest| ==> rest[i] == files[i + 1];
      CoversMiss(origin, rest, host, path);
    }
  }

  lemma BackupsMiss(base: Base, p: Plan, path: Parts)
    requires p.etc.Some? && !Overlaid(p.etc.value.1, path)
    ensures Clear(BackupsOf(base, p), path)
  {
    hide Clear, PasswdContent, GroupContent, Backups, CoverOf;
    var files := Backups(PasswdContent(base.uid, base.gid), GroupContent(base.gid));
    BackupsAre(base, 0);
    forall i | 0 <= i < |files| && ["etc", files[i].0] in p.etc.value.1.present
      ensures !(["etc", files[i].0] <= path)
    {
      BackupsAre(base, i);
    }
    CoversMiss(p.etc.value.0, files, p.etc.value.1, path);
  }

  lemma AccountsMiss(base: Base, p: Plan, path: Parts)
    requires !(PASSWD <= path) && !(GROUP <= path)
    ensures Clear(AccountsOf(base, p), path) && Plain(AccountsOf(base, p))
  {
    hide PasswdContent, GroupContent;
    DataIsClear(AccountsOf(base, p), path);
    DataIsPlain(AccountsOf(base, p));
  }

  lemma AfterHostEtcIsClear(base: Base, p: Plan, path: Parts)
    requires p.etc.Some? && ETC <= path && !Overlaid(p.etc.value.1, path)
    requires SoundPlan(p) && Clear(p.binds, path)
    ensures Clear(AfterEtc(base, p), path) && TidyItems(AfterEtc(base, p))
  {
    hide Clear, SkeletonTail, RuntimeDirOf, BackupsOf, AccountsOf, TidyItem, QuietItem, OffTail, Covered;
    var tail, rest := SkeletonTail(base, TmpOf(p)), RuntimeDirOf(base) + p.binds;
    EtcIsOffTail(path);
    AccountsMiss(base, p, path);
    BackupsMiss(base, p, path);
    BackupsArePlain(base, p);
    TailIsClear(base, p, path);
    TailIsPlain(base, p);
    RuntimeDirIsClear(base, path);
    RuntimeDirIsPlain(base);
    ClearConcat(RuntimeDirOf(base), p.binds, path);
    ClearConcat(tail, rest, path);
    ClearConcat(BackupsOf(base, p), tail + rest, path);
    ClearConcat(AccountsOf(base, p), BackupsOf(base, p) + (tail + rest), path);
    assert AfterEtc(base, p) == AccountsOf(base, p) + (BackupsOf(base, p) + (tail + rest));
  }

  lemma BackupsArePlain(base: Base, p: Plan)
    ensures Plain(BackupsOf(base, p))
  {
    DataIsPlain(BackupsOf(base, p));
  }

  lemma InnerAroundHostEtc(base: Base, p: Plan)
    requires p.etc.Some?
    ensures Inner(base, p) == (NamespacesOf(p) + SkeletonHead())
                              + [Two(p.etc.value.0, Opt.RoBind, Path(["etc"]), Path(["etc"]))] + AfterEtc(base, p)
  {
    hide NamespacesOf, SkeletonHead, SkeletonTail, RuntimeDirOf, BackupsOf, AccountsOf;
  }

  /**
   With the host's whole `/etc`, a path at or below it is the host's own, read-only, unless it is one of
   the accounts, or covered, or a call mounts over it.
   */
  lemma HostEtcIsReadOnly(
    base: Base, calls: seq<Call>, command: seq<Word>, alloc: Alloc, there: set<Word>, i: nat, path: Parts)
    requires Finishes(base, calls, command, alloc) && i < |calls| && calls[i].BindHostEtc?
    requires ["etc"] <= path && !Overlaid(calls[i].host, path) && NoneReaches(calls, path)
    ensures Resolve(MountsOf(ArgvOf(base, calls, command, alloc).args, there), path)
         == Some(Bound(Path(["etc"]), true))
  {
    hide Emit, NamespacesOf, SkeletonHead, MasksOf, EnvOf, TidyItem, QuietItem, Resolve, MaskedBy, Inner, PlanOf,
         Draw, ArgvOf, Finish, After, MountsOf, AfterEtc, NoneReaches, Plain, HostAsked, Clear, Overlaid;
    var p := PlanOf(NOTHING, calls);
    FinishesIs(base, calls, command, alloc);
    NothingIsSound();
    PlanIsSound(NOTHING, calls);
    NothingIsClear(path);
    BindsAreClear(NOTHING, calls, path);
    SeenThroughMasks(base, calls, command, alloc, there, path);
    PhasesInOrder(base, p, command, alloc);
    HostAskedIs(calls, i);
    PlanEtc(NOTHING, calls);
    AfterHostEtcIsClear(base, p, path);
    InnerAroundHostEtc(base, p);
    var front := NamespacesOf(p) + SkeletonHead();
    var etc := [Two(p.etc.value.0, Opt.RoBind, Path(["etc"]), Path(["etc"]))];
    EmitConcat(front + etc, AfterEtc(base, p), 0, alloc);
    EmitConcat(front, etc, 0, alloc);
    var t := After(front, 0, alloc, BARE, there);
    TwoShows(p.etc.value.0, Opt.RoBind, Path(["etc"]), ["etc"], |front|, alloc, t, there, path);
    AfterConcat(front + etc, AfterEtc(base, p), 0, alloc, BARE, there);
    AfterConcat(front, etc, 0, alloc, BARE, there);
    AfterClear(AfterEtc(base, p), |front + etc|, alloc, After(etc, |front|, alloc, t, there), there, path);
  }
}
