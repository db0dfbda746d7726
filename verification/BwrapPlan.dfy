/**
 What a history of calls on the builder comes to, without the in-place edits: the phases are
 drawn from a plan that every call extends, and only one kind of call can ever panic.
 */
module BwrapPlan {
  import opened Results
  import opened Bwrap

  /** What the calls so far have asked for. */
  datatype Plan = Plan(
    share: Option<Origin>, dir: Parts, later: seq<Item>,
    etc: Option<(Origin, Host)>, tmp: (Origin, nat),
    binds: seq<Item>, masks: seq<(Origin, Parts)>, env: seq<Item>,
    ctty: bool, x11: Option<Server>, origin: Origin)

  const NOTHING: Plan :=
    Plan(None, SANDBOX_HOME, [], None, (Origin.Baseline, TMP_SIZE), [], [], [], false, None, Origin.Baseline)

  // ----- drawing a plan -----

  function Shared(share: Option<Origin>): seq<Item> {
    if share.Some? then [Bare(share.value, Opt.ShareNet)] else []
  }

  function NamespacesOf(p: Plan): seq<Item> {
    NamespacesHead() + Shared(p.share) + NamespacesTail(p.dir) + p.later
  }

  /** `/etc` itself. */
  function EtcOf(base: Base, p: Plan): seq<Item> {
    if p.etc.Some? then [Two(p.etc.value.0, Opt.RoBind, Path(ETC), Path(ETC))]
    else [SizedTmpfs(Origin.Baseline, Text(Decimal(TMPFS_SIZE)), ETC)] + AllowlistFrom(ETC_ALLOWLIST, base.host)
  }

  /** What covers the host's own accounts. */
  function BackupsOf(base: Base, p: Plan): seq<Item> {
    if p.etc.Some? then
      Covered(p.etc.value.0, Backups(PasswdContent(base.uid, base.gid), GroupContent(base.gid)), p.etc.value.1)
    else []
  }

  function AccountsOf(base: Base, p: Plan): seq<Item> {
    Accounts(base, if p.etc.Some? then p.etc.value.0 else Origin.Baseline)
  }

  function TmpOf(p: Plan): Item {
    SizedTmpfs(p.tmp.0, Text(Decimal(p.tmp.1)), TMP)
  }

  function SkeletonOf(base: Base, p: Plan): seq<Item> {
    SkeletonHead() + EtcOf(base, p) + AccountsOf(base, p) + BackupsOf(base, p) + SkeletonTail(base, TmpOf(p))
  }

  function MasksOf(masks: seq<(Origin, Parts)>): seq<Item> {
    if masks == [] then []
    else MasksOf(masks[..|masks| - 1]) + MaskItems(masks[|masks| - 1].0, masks[|masks| - 1].1)
  }

  function Draw(base: Base, p: Plan): Phases {
    Phases(NamespacesOf(p), SkeletonOf(base, p), RuntimeDirOf(base), p.binds, MasksOf(p.masks),
           EnvOf(base) + p.env, p.ctty, p.x11, p.origin)
  }

  /** What a call adds to a plan. */
  function Next(p: Plan, c: Call): Plan {
    match c
    case Tag(origin) => p.(origin := origin)
    case ShareNet => if p.share.Some? then p else p.(share := Some(p.origin))
    case Chdir(dir) => p.(dir := dir)
    case TmpSize(bytes) => p.(tmp := (p.origin, bytes))
    case BindHostEtc(host) => p.(etc := Some((p.origin, host)))
    case DisableUserns => if HasPair(p.later) then p else p.(later := p.later + [UsernsPair(p.origin)])
    case BlockUntilReleased => p.(later := p.later + [Item(p.origin, Kind.BlockFd)])
    case AddSeccomp(program, arches) => p.(later := p.later + [Item(p.origin, Kind.Seccomp(program, arches))])
    case MaskDir(dir) => p.(masks := p.masks + [(p.origin, dir)])
    case Ctty => p.(ctty := true)
    case X11Server(argv, wm) => if p.x11.Some? then p else p.(x11 := Some(Server(p.origin, argv, wm)))
    case SetEnv(key, value) => p.(env := p.env + [Two(p.origin, Opt.SetEnv, key, value)])
    case _ => p.(binds := p.binds + Pushed(c, p.origin))
  }

  predicate HasPair(items: seq<Item>) {
    exists i :: 0 <= i < |items| && IsLedBy(items[i], UnshareUser)
  }

  function PlanOf(p: Plan, calls: seq<Call>): Plan
    decreases |calls|
  {
    if calls == [] then p else PlanOf(Next(p, calls[0]), calls[1..])
  }

  function HostEtcs(calls: seq<Call>): nat {
    if calls == [] then 0 else (if calls[0].BindHostEtc? then 1 else 0) + HostEtcs(calls[1..])
  }

  /** What phase 1 can be extended with. */
  predicate LaterItem(i: Item) {
    i.kind.BlockFd? || i.kind.Seccomp? || i == UsernsPair(i.origin)
  }

  predicate Sound(p: Plan) {
    forall i :: 0 <= i < |p.later| ==> LaterItem(p.later[i])
  }

  lemma NextIsSound(p: Plan, c: Call)
    requires Sound(p)
    ensures Sound(Next(p, c))
  {
    hide Pushed, HasPair;
  }

  // ----- where the in-place edits land -----

  lemma FirstLedByIs(items: seq<Item>, opt: Opt, k: nat)
    requires k <= |items| && (k < |items| ==> IsLedBy(items[k], opt))
    requires forall i :: 0 <= i < k ==> !IsLedBy(items[i], opt)
    ensures FirstLedBy(items, opt) == k
  {
    hide IsLedBy;
  }

  predicate NoneSizedAt(items: seq<Item>, dir: Parts) {
    forall i :: 0 <= i < |items| ==> !IsSizedAt(items[i], dir)
  }

  predicate NoData(items: seq<Item>) {
    forall i :: 0 <= i < |items| ==> !items[i].kind.Data?
  }

  lemma FirstSizedSkips(a: seq<Item>, b: seq<Item>, dir: Parts)
    requires NoneSizedAt(a, dir)
    ensures FirstSizedAt(a + b, dir) == |a| + FirstSizedAt(b, dir)
  {
    hide IsSizedAt;
    var k := |a| + FirstSizedAt(b, dir);
    assert forall i :: 0 <= i < k ==> !IsSizedAt((a + b)[i], dir);
    assert k < |a + b| ==> IsSizedAt((a + b)[k], dir);
  }

  lemma FirstDataSkips(a: seq<Item>, b: seq<Item>)
    requires NoData(a)
    ensures FirstData(a + b) == |a| + FirstData(b)
  {
    var k := |a| + FirstData(b);
    assert forall i :: 0 <= i < k ==> !(a + b)[i].kind.Data?;
    assert k < |a + b| ==> (a + b)[k].kind.Data?;
  }

  lemma FixedPathsDiffer()
    ensures ETC != TMP && ["var"] != TMP && ["run"] != TMP && ["var"] != ETC && ["run"] != ETC
  {
    assert ETC[0][0] == 'e' && TMP[0][0] == 't' && ["var"][0][0] == 'v' && ["run"][0][0] == 'r';
  }

  lemma {:induction false} AllowlistIsPlain(names: seq<string>, host: Host, dir: Parts)
    ensures NoneSizedAt(AllowlistFrom(names, host), dir) && NoData(AllowlistFrom(names, host))
  {
    if names != [] {
      AllowlistIsPlain(names[1..], host, dir);
    }
  }

  lemma PlainHead(dir: Parts)
    ensures NoneSizedAt(SkeletonHead(), dir) && NoData(SkeletonHead())
  {
  }

  lemma DataIsUnsized(items: seq<Item>, dir: Parts)
    requires forall i :: 0 <= i < |items| ==> items[i].kind.Data?
    ensures NoneSizedAt(items, dir)
  {
  }

  lemma PlainTail(base: Base, tmp: Item)
    requires exists o, size :: tmp == SizedTmpfs(o, size, TMP)
    ensures NoneSizedAt(SkeletonTail(base, tmp), ETC)
  {
    FixedPathsDiffer();
  }

  /** Where the tail of phase 2 mounts `/tmp`. */
  function TmpAt(base: Base): nat {
    if NTSYNC in base.host.charDevices then 3 else 2
  }

  lemma TmpInTail(base: Base, tmp: Item, other: Item)
    requires exists o, size :: tmp == SizedTmpfs(o, size, TMP)
    ensures FirstSizedAt(SkeletonTail(base, tmp), TMP) == TmpAt(base) < |SkeletonTail(base, tmp)|
    ensures SkeletonTail(base, tmp)[TmpAt(base)] == tmp
    ensures SkeletonTail(base, tmp)[TmpAt(base) := other] == SkeletonTail(base, other)
  {
    hide FirstSizedAt, Decimal;
    var tail := SkeletonTail(base, tmp);
    assert forall i :: 0 <= i < TmpAt(base) ==> !IsSizedAt(tail[i], TMP);
    assert IsSizedAt(tail[TmpAt(base)], TMP);
  }

  /** Phase 2 before `/tmp` could be meant. */
  function SkeletonFront(base: Base, p: Plan): seq<Item> {
    SkeletonHead() + EtcOf(base, p) + AccountsOf(base, p) + BackupsOf(base, p)
  }

  lemma EtcUnsized(base: Base, p: Plan)
    ensures NoneSizedAt(EtcOf(base, p), TMP) && (p.etc.Some? ==> NoneSizedAt(EtcOf(base, p), ETC))
  {
    hide AllowlistFrom, Decimal;
    FixedPathsDiffer();
    AllowlistIsPlain(ETC_ALLOWLIST, base.host, TMP);
  }

  lemma AccountsUnsized(base: Base, p: Plan, dir: Parts)
    ensures NoneSizedAt(AccountsOf(base, p), dir) && NoneSizedAt(BackupsOf(base, p), dir)
  {
    hide Decimal, PasswdContent, GroupContent, Covered, Backups;
    DataIsUnsized(AccountsOf(base, p), dir);
    DataIsUnsized(BackupsOf(base, p), dir);
  }

  /** Phase 2 up to the tail holds no `/tmp`, and with the host's `/etc` no capped `/etc` either. */
  lemma FrontUnsized(base: Base, p: Plan)
    ensures NoneSizedAt(SkeletonFront(base, p), TMP)
    ensures p.etc.Some? ==> NoneSizedAt(SkeletonFront(base, p), ETC)
  {
    hide SkeletonHead, EtcOf, AccountsOf, BackupsOf, IsSizedAt;
    PlainHead(TMP);
    PlainHead(ETC);
    EtcUnsized(base, p);
    AccountsUnsized(base, p, TMP);
    AccountsUnsized(base, p, ETC);
  }

  // ----- the edits are what the plan says -----

  lemma ResizeIsPlanned(base: Base, p: Plan, bytes: nat)
    ensures Resize(SkeletonOf(base, p), p.origin, bytes) == Some(SkeletonOf(base, p.(tmp := (p.origin, bytes))))
  {
    hide SkeletonTail, SkeletonFront, Decimal, FirstSizedAt, EtcOf, AccountsOf, BackupsOf, SkeletonHead;
    var q := p.(tmp := (p.origin, bytes));
    var front, tail := SkeletonFront(base, p), SkeletonTail(base, TmpOf(p));
    var at := TmpAt(base);
    FrontIsFront(base, p);
    FrontIsFront(base, q);
    FrontUnsized(base, p);
    TmpInTail(base, TmpOf(p), TmpOf(q));
    FirstSizedSkips(front, tail, TMP);
    assert (front + tail)[|front| + at] == TmpOf(p);
    assert (front + tail)[|front| + at := TmpOf(q)] == front + tail[at := TmpOf(q)];
    assert TmpOf(p).kind.args[1 := Text(Decimal(bytes))] == TmpOf(q).kind.args;
  }

  lemma FrontIsFront(base: Base, p: Plan)
    ensures SkeletonOf(base, p) == SkeletonFront(base, p) + SkeletonTail(base, TmpOf(p))
    ensures forall t :: SkeletonFront(base, p.(tmp := t)) == SkeletonFront(base, p)
  {
    hide SkeletonTail, Decimal, SkeletonHead;
  }

  lemma RechdirIsPlanned(p: Plan, dir: Parts)
    ensures Rechdir(NamespacesOf(p), dir) == Some(NamespacesOf(p.(dir := dir)))
  {
    hide FirstLedBy;
    var items := NamespacesOf(p);
    var at := |Shared(p.share)| + 4;
    assert items[at] == One(Origin.Baseline, Opt.Chdir, Path(p.dir));
    FirstLedByIs(items, Opt.Chdir, at);
    assert items[at := One(Origin.Baseline, Opt.Chdir, Path(dir))] == NamespacesOf(p.(dir := dir));
  }

  lemma ShareNetIsPlanned(p: Plan)
    requires Sound(p)
    ensures WithShareNet(NamespacesOf(p), p.origin) == NamespacesOf(Next(p, Call.ShareNet))
  {
    hide FirstLedBy;
    var items := NamespacesOf(p);
    FirstLedByIs(items, Opt.ShareNet, if p.share.Some? then 1 else |items|);
    if p.share.None? {
      assert [items[0], Bare(p.origin, Opt.ShareNet)] + items[1..] == NamespacesOf(p.(share := Some(p.origin)));
    }
  }

  lemma UsernsIsPlanned(p: Plan)
    requires Sound(p)
    ensures WithoutUserns(NamespacesOf(p), p.origin) == NamespacesOf(Next(p, Call.DisableUserns))
  {
    hide FirstLedBy;
    var items := NamespacesOf(p);
    var front := NamespacesHead() + Shared(p.share) + NamespacesTail(p.dir);
    assert forall i :: 0 <= i < |front| ==> !IsLedBy(front[i], UnshareUser);
    assert items == front + p.later;
    if HasPair(p.later) {
      var k :| 0 <= k < |p.later| && IsLedBy(p.later[k], UnshareUser);
      assert IsLedBy(items[|front| + k], UnshareUser);
    } else {
      FirstLedByIs(items, UnshareUser, |items|);
      assert items + [UsernsPair(p.origin)] == NamespacesOf(p.(later := p.later + [UsernsPair(p.origin)]));
    }
  }

  /** What stands between `/etc` and the tail of phase 2 before the host's `/etc` is asked for. */
  lemma EtcBeforeHost(base: Base, p: Plan)
    requires p.etc.None?
    ensures var rest := EtcOf(base, p) + AccountsOf(base, p) + SkeletonTail(base, TmpOf(p));
            && SkeletonOf(base, p) == SkeletonHead() + rest
            && FirstSizedAt(rest, ETC) == 0
            && FirstData(rest) == |EtcOf(base, p)|
  {
    hide AllowlistFrom, Decimal, SkeletonTail, SkeletonHead, PasswdContent, GroupContent, FirstData, FirstSizedAt;
    var rest := EtcOf(base, p) + AccountsOf(base, p) + SkeletonTail(base, TmpOf(p));
    AllowlistIsPlain(ETC_ALLOWLIST, base.host, ETC);
    assert IsSizedAt(rest[0], ETC);
    assert rest == EtcOf(base, p) + (AccountsOf(base, p) + SkeletonTail(base, TmpOf(p)));
    FirstDataSkips(EtcOf(base, p), AccountsOf(base, p) + SkeletonTail(base, TmpOf(p)));
    assert (AccountsOf(base, p) + SkeletonTail(base, TmpOf(p)))[0].kind.Data?;
  }

  lemma HostEtcIsPlanned(base: Base, p: Plan, host: Host)
    requires p.etc.None?
    ensures HostEtc(SkeletonOf(base, p), p.origin, host) == Some(SkeletonOf(base, p.(etc := Some((p.origin, host)))))
  {
    hide SkeletonTail, SkeletonHead, Decimal, PasswdContent, GroupContent, FirstData, FirstSizedAt, Backups, Covered;
    var q := p.(etc := Some((p.origin, host)));
    var head, etc, tail := SkeletonHead(), EtcOf(base, p), SkeletonTail(base, TmpOf(p));
    var accounts := AccountsOf(base, p);
    var items := SkeletonOf(base, p);
    EtcBeforeHost(base, p);
    PlainHead(ETC);
    FirstSizedSkips(head, etc + accounts + tail, ETC);
    assert items[|head|..] == etc + accounts + tail;
    var end := |head| + |etc|;
    assert items == head + etc + accounts + tail;
    assert items[end] == accounts[0] && items[end + 1] == accounts[1];
    assert items[end + 2..] == tail;
    assert items[..|head|] == head;
    assert [items[end].(origin := p.origin), items[end + 1].(origin := p.origin)] == AccountsOf(base, q);
  }

  /** Once `/etc` is the host's there is no capped tmpfs on it left to replace. */
  lemma HostEtcTwice(base: Base, p: Plan, host: Host)
    requires p.etc.Some?
    ensures HostEtc(SkeletonOf(base, p), p.origin, host) == None
  {
    hide SkeletonTail, SkeletonFront, Decimal, FirstSizedAt;
    var front, tail := SkeletonFront(base, p), SkeletonTail(base, TmpOf(p));
    FrontIsFront(base, p);
    FrontUnsized(base, p);
    PlainTail(base, TmpOf(p));
    FirstSizedSkips(front, tail, ETC);
  }

  lemma MasksGrow(masks: seq<(Origin, Parts)>, origin: Origin, dir: Parts)
    ensures MasksOf(masks + [(origin, dir)]) == MasksOf(masks) + MaskItems(origin, dir)
  {
    assert (masks + [(origin, dir)])[..|masks|] == masks;
  }

  // ----- every history -----

  /** The calls that edit a phase in place. */
  predicate Edits(c: Call) {
    c.Chdir? || c.TmpSize? || c.BindHostEtc? || c.ShareNet? || c.DisableUserns?
  }

  lemma EditIsPlanned(base: Base, p: Plan, c: Call)
    requires Sound(p) && Edits(c) && NamespacesOf(p) != []
    ensures Step(Draw(base, p), c)
         == if c.BindHostEtc? && p.etc.Some? then None else Some(Draw(base, Next(p, c)))
  {
    hide SkeletonOf, NamespacesOf, MasksOf, EnvOf, RuntimeDirOf, Rechdir, Resize, HostEtc, WithShareNet, WithoutUserns,
         Pushed, HasPair, UsernsPair, MaskItems;
    SkeletonDepends(base, p, Next(p, c));
    NamespacesDepend(p, Next(p, c));
    if c.Chdir? {
      RechdirIsPlanned(p, c.dir);
    } else if c.TmpSize? {
      ResizeIsPlanned(base, p, c.bytes);
    } else if c.ShareNet? {
      ShareNetIsPlanned(p);
    } else if c.DisableUserns? {
      UsernsIsPlanned(p);
    } else if p.etc.None? {
      HostEtcIsPlanned(base, p, c.host);
    } else {
      HostEtcTwice(base, p, c.host);
    }
  }

  /** A call does to the phases what it does to the plan, and panics only on a second host `/etc`. */
  lemma StepIsPlanned(base: Base, p: Plan, c: Call)
    requires Sound(p)
    ensures NamespacesOf(p) != []
    ensures Step(Draw(base, p), c)
         == if c.BindHostEtc? && p.etc.Some? then None else Some(Draw(base, Next(p, c)))
  {
    hide SkeletonOf, NamespacesOf, MasksOf, EnvOf, RuntimeDirOf, Pushed, MaskItems;
    NamespacesStart(p);
    if Edits(c) {
      EditIsPlanned(base, p, c);
    } else {
      SkeletonDepends(base, p, Next(p, c));
      NamespacesDepend(p, Next(p, c));
      if c.BlockUntilReleased? || c.AddSeccomp? {
        LaterGrows(p, Next(p, c).later[|p.later|]);
      } else if c.MaskDir? {
        MasksGrow(p.masks, p.origin, c.dir);
      } else if c.SetEnv? {
        assert EnvOf(base) + p.env + [Two(p.origin, Opt.SetEnv, c.key, c.value)]
            == EnvOf(base) + (p.env + [Two(p.origin, Opt.SetEnv, c.key, c.value)]);
      }
    }
  }

  lemma NamespacesStart(p: Plan)
    ensures NamespacesOf(p) != [] && NamespacesOf(p)[0] == Bare(Origin.Baseline, UnshareAll)
  {
  }

  lemma LaterGrows(p: Plan, i: Item)
    ensures NamespacesOf(p.(later := p.later + [i])) == NamespacesOf(p) + [i]
  {
    hide NamespacesHead, NamespacesTail;
  }

  lemma NamespacesDepend(p: Plan, q: Plan)
    ensures p.share == q.share && p.dir == q.dir && p.later == q.later ==> NamespacesOf(p) == NamespacesOf(q)
  {
    hide NamespacesHead, NamespacesTail;
  }

  lemma SkeletonDepends(base: Base, p: Plan, q: Plan)
    ensures p.etc == q.etc && p.tmp == q.tmp ==> SkeletonOf(base, p) == SkeletonOf(base, q)
  {
    hide SkeletonHead, SkeletonTail;
  }

  lemma BaselineIsPlanned(base: Base)
    ensures BaselineOf(base) == Draw(base, NOTHING) && Sound(NOTHING)
  {
    hide Decimal, SkeletonHead, SkeletonTail, AllowlistFrom, PasswdContent, GroupContent, EnvOf;
    var b := BaselineOf(base);
    assert b.namespaces == NamespacesOf(NOTHING);
    assert b.env == EnvOf(base) + [];
    assert b.skeleton == SkeletonOf(base, NOTHING);
  }

  lemma {:induction false} RunIsPlanned(base: Base, p: Plan, calls: seq<Call>)
    requires Sound(p)
    ensures NamespacesOf(p) != []
    ensures Run(Draw(base, p), calls)
         == if HostEtcs(calls) + (if p.etc.Some? then 1 else 0) > 1 && HostEtcs(calls) > 0 then None
            else Some(Draw(base, PlanOf(p, calls)))
    ensures Sound(PlanOf(p, calls))
    decreases |calls|
  {
    hide Draw, Step, Next;
    NamespacesStart(p);
    if calls != [] {
      StepIsPlanned(base, p, calls[0]);
      NextIsSound(p, calls[0]);
      NextEtc(p, calls[0]);
      RunIsPlanned(base, Next(p, calls[0]), calls[1..]);
    }
  }

  lemma NextEtc(p: Plan, c: Call)
    ensures Next(p, c).etc.Some? <==> p.etc.Some? || c.BindHostEtc?
  {
    hide Pushed, HasPair;
  }

  /**
   From the baseline a history runs to its end exactly when it asks for the host's `/etc` at
   most once, and what it builds is what its plan draws.
   */
  lemma OnlyASecondHostEtcPanics(base: Base, calls: seq<Call>)
    ensures BaselineOf(base).namespaces != []
    ensures Run(BaselineOf(base), calls).Some? <==> HostEtcs(calls) <= 1
    ensures HostEtcs(calls) <= 1 ==> Run(BaselineOf(base), calls) == Some(Draw(base, PlanOf(NOTHING, calls)))
  {
    hide Run, Draw, PlanOf;
    BaselineIsPlanned(base);
    RunIsPlanned(base, NOTHING, calls);
  }
}
