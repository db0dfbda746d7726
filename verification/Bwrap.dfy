/**
 The builder of a sandbox's command line. Arguments are kept in phases, because the order in
 which mounts are named decides what the sandbox sees, and some phases are edited in place.
 */
module Bwrap {
  import opened Results

  /** An absolute path, as its components. */
  type Parts = seq<string>

  /** The options of bwrap(1) the builder uses. */
  datatype Opt =
    | UnshareAll | ShareNet | DieWithParent | NewSession | Hostname | Chdir
    | InfoFd | BlockFd | AddSeccompFd | UnshareUser | DisableUserns
    | RoBind | RoBindTry | Bind | DevBind | DevBindTry | Symlink
    | Size | Tmpfs | Perms | Dir | Proc | Dev | RemountRo | OverlaySrc | TmpOverlay
    | ClearEnv | SetEnv

  /** One element of an argv: the spelling of an option, a double dash, a path, any other text. */
  datatype Word = Flag(opt: Opt) | Dashes | Path(parts: Parts) | Text(text: string)

  datatype Origin =
    | Baseline | Seccomp | Userns | Tmp | Etc | Ctty | Identity
    | Service(index: nat) | Share(index: nat) | Env(index: nat) | Init | Command

  /** The literal arguments of one operation, or something only an allocator can name. */
  datatype Kind =
    | Args(args: seq<Word>)
    | Noted(args: seq<Word>, note: string)
    | Data(content: string, dest: Parts)
    | InfoFd
    | BlockFd
    | Seccomp(program: seq<bv8>, arches: string)

  datatype Item = Item(origin: Origin, kind: Kind)

  /** The nested X server: its argv and the window manager started with it. */
  datatype Server = Server(origin: Origin, argv: seq<Word>, wm: Option<Word>)

  /** What the launcher knows about the host's file system. */
  datatype Host = Host(present: set<Parts>, charDevices: set<Parts>)

  /** What a sandbox is built from. */
  datatype Base = Base(
    uid: nat, gid: nat, runtimeDir: Parts, passthrough: seq<(Word, Word)>, home: Parts, host: Host)

  datatype Phases = Phases(
    namespaces: seq<Item>, skeleton: seq<Item>, runtimeDir: seq<Item>, binds: seq<Item>,
    masks: seq<Item>, env: seq<Item>, ctty: bool, x11: Option<Server>, origin: Origin)

  const TMP_SIZE: nat := 2147483648
  const TMPFS_SIZE: nat := 67108864
  const ETC: Parts := ["etc"]
  const TMP: Parts := ["tmp"]
  const PASSWD: Parts := ["etc", "passwd"]
  const GROUP: Parts := ["etc", "group"]
  const SANDBOX_HOME: Parts := ["home", "bubbler"]
  const INIT_INSIDE: Parts := ["run", "bubbler-init"]
  const FLATPAK_SPAWN_INSIDE: Parts := ["usr", "bin", "flatpak-spawn"]
  const USR_BIN: Parts := ["usr", "bin"]
  const NTSYNC: Parts := ["dev", "ntsync"]

  const ETC_ALLOWLIST: seq<string> := [
    "ld.so.cache", "ld.so.conf", "ld.so.conf.d", "fonts", "localtime", "machine-id",
    "nsswitch.conf", "hosts", "host.conf", "ssl", "ca-certificates", "mime.types", "xdg",
    "gtk-3.0", "gtk-4.0", "pulse", "pipewire", "alsa", "drirc", "vulkan", "glvnd", "egl",
    "vdpau_wrapper.cfg", "os-release"]

  function Decimal(n: nat): string {
    var digit := ["0123456789"[n % 10]];
    if n < 10 then digit else Decimal(n / 10) + digit
  }

  function PasswdContent(uid: nat, gid: nat): string {
    "bubbler:x:" + Decimal(uid) + ":" + Decimal(gid) + ":bubbler:/home/bubbler:/bin/sh\n"
    + "nobody:x:65534:65534:nobody:/:/bin/sh\n"
  }

  function GroupContent(gid: nat): string {
    "bubbler:x:" + Decimal(gid) + ":\nnobody:x:65534:\n"
  }

  // ----- operations -----

  function Bare(origin: Origin, opt: Opt): Item {
    Item(origin, Args([Flag(opt)]))
  }

  function One(origin: Origin, opt: Opt, arg: Word): Item {
    Item(origin, Args([Flag(opt), arg]))
  }

  function Two(origin: Origin, opt: Opt, first: Word, second: Word): Item {
    Item(origin, Args([Flag(opt), first, second]))
  }

  /** A tmpfs with its cap: `--size` applies to the next operation only. */
  function SizedTmpfs(origin: Origin, size: Word, dir: Parts): Item {
    Item(origin, Args([Flag(Size), size, Flag(Tmpfs), Path(dir)]))
  }

  function UsernsPair(origin: Origin): Item {
    Item(origin, Args([Flag(UnshareUser), Flag(Opt.DisableUserns)]))
  }

  function MaskItems(origin: Origin, dir: Parts): seq<Item> {
    [SizedTmpfs(origin, Text("4096"), dir), One(origin, RemountRo, Path(dir))]
  }

  function ShimItems(origin: Origin, hostPath: Parts): seq<Item> {
    [Item(origin, Noted([Flag(OverlaySrc), Path(USR_BIN), Flag(TmpOverlay), Path(USR_BIN)],
                        "flatpak-spawn shim (glycin, gdk-pixbuf)")),
     Two(origin, Opt.RoBind, Path(hostPath), Path(FLATPAK_SPAWN_INSIDE)),
     One(origin, RemountRo, Path(USR_BIN))]
  }

  /** Whether an item is an operation `opt` leads. */
  predicate IsLedBy(item: Item, opt: Opt) {
    item.kind.Args? && item.kind.args != [] && item.kind.args[0] == Flag(opt)
  }

  /** Whether an item is the capped tmpfs at `dir`. */
  predicate IsSizedAt(item: Item, dir: Parts) {
    IsLedBy(item, Size) && item.kind.args[|item.kind.args| - 1] == Path(dir)
  }

  /** The first item led by `opt`, or the number of items. */
  function FirstLedBy(items: seq<Item>, opt: Opt): (r: nat)
    ensures r <= |items| && (r < |items| ==> IsLedBy(items[r], opt))
    ensures forall i :: 0 <= i < r ==> !IsLedBy(items[i], opt)
  {
    if items == [] || IsLedBy(items[0], opt) then 0 else 1 + FirstLedBy(items[1..], opt)
  }

  function FirstSizedAt(items: seq<Item>, dir: Parts): (r: nat)
    ensures r <= |items| && (r < |items| ==> IsSizedAt(items[r], dir))
    ensures forall i :: 0 <= i < r ==> !IsSizedAt(items[i], dir)
  {
    if items == [] || IsSizedAt(items[0], dir) then 0 else 1 + FirstSizedAt(items[1..], dir)
  }

  function FirstData(items: seq<Item>): (r: nat)
    ensures r <= |items| && (r < |items| ==> items[r].kind.Data?)
    ensures forall i :: 0 <= i < r ==> !items[i].kind.Data?
  {
    if items == [] || items[0].kind.Data? then 0 else 1 + FirstData(items[1..])
  }

  // ----- the baseline -----

  function AllowlistFrom(names: seq<string>, host: Host): seq<Item> {
    if names == [] then []
    else
      var p := ["etc", names[0]];
      (if p in host.present then [Two(Origin.Baseline, Opt.RoBind, Path(p), Path(p))] else [])
      + AllowlistFrom(names[1..], host)
  }

  function Passthrough(pairs: seq<(Word, Word)>): seq<Item> {
    if pairs == [] then []
    else [Two(Origin.Baseline, Opt.SetEnv, pairs[0].0, pairs[0].1)] + Passthrough(pairs[1..])
  }

  /** Phase 2 before `/etc`. */
  function SkeletonHead(): seq<Item> {
    var b := Origin.Baseline;
    [Two(b, Opt.RoBind, Path(["usr"]), Path(["usr"])),
     Two(b, Opt.Symlink, Text("usr/bin"), Path(["bin"])),
     Two(b, Opt.Symlink, Text("usr/lib"), Path(["lib"])),
     Two(b, Opt.Symlink, Text("usr/lib64"), Path(["lib64"])),
     Two(b, Opt.Symlink, Text("usr/bin"), Path(["sbin"])),
     Two(b, RoBindTry, Path(["opt"]), Path(["opt"]))]
  }

  /** The synthetic passwd and group. */
  function Accounts(base: Base, origin: Origin): seq<Item> {
    [Item(origin, Data(PasswdContent(base.uid, base.gid), PASSWD)),
     Item(origin, Data(GroupContent(base.gid), GROUP))]
  }

  /** Phase 2 after the accounts. */
  function SkeletonTail(base: Base, tmp: Item): seq<Item> {
    var b := Origin.Baseline;
    [One(b, Opt.Proc, Path(["proc"])), One(b, Opt.Dev, Path(["dev"]))]
    + (if NTSYNC in base.host.charDevices then [Two(b, Opt.DevBind, Path(NTSYNC), Path(NTSYNC))] else [])
    + [tmp]
    + [SizedTmpfs(b, Text(Decimal(TMPFS_SIZE)), ["var"]), SizedTmpfs(b, Text(Decimal(TMPFS_SIZE)), ["run"]),
       Two(b, Opt.Bind, Path(base.home), Path(SANDBOX_HOME))]
  }

  function NamespacesHead(): seq<Item> {
    [Bare(Origin.Baseline, UnshareAll)]
  }

  function NamespacesTail(dir: Parts): seq<Item> {
    var b := Origin.Baseline;
    [Bare(b, DieWithParent), Bare(b, NewSession), One(b, Hostname, Text("bubbler")),
     One(b, Opt.Chdir, Path(dir)), Item(b, Kind.InfoFd)]
  }

  function EnvOf(base: Base): seq<Item> {
    var b := Origin.Baseline;
    [Bare(b, ClearEnv)]
    + Passthrough(base.passthrough)
    + [Two(b, Opt.SetEnv, Text("HOME"), Path(SANDBOX_HOME)),
       Two(b, Opt.SetEnv, Text("PATH"), Text("/usr/bin:/home/bubbler/.local/bin")),
       Two(b, Opt.SetEnv, Text("XDG_RUNTIME_DIR"), Path(base.runtimeDir)),
       Two(b, Opt.SetEnv, Text("USER"), Text("bubbler")),
       Two(b, Opt.SetEnv, Text("LOGNAME"), Text("bubbler"))]
  }

  function RuntimeDirOf(base: Base): seq<Item> {
    [Item(Origin.Baseline, Args([Flag(Perms), Text("0700"), Flag(Dir), Path(base.runtimeDir)]))]
  }

  function BaselineOf(base: Base): Phases {
    Phases(
      NamespacesHead() + NamespacesTail(SANDBOX_HOME),
      SkeletonHead()
      + ([SizedTmpfs(Origin.Baseline, Text(Decimal(TMPFS_SIZE)), ETC)] + AllowlistFrom(ETC_ALLOWLIST, base.host))
      + Accounts(base, Origin.Baseline)
      + SkeletonTail(base, SizedTmpfs(Origin.Baseline, Text(Decimal(TMP_SIZE)), TMP)),
      RuntimeDirOf(base), [], [], EnvOf(base), false, None, Origin.Baseline)
  }

  // ----- calls -----

  datatype Call =
    | Tag(origin: Origin)
    | ShareNet
    | Chdir(dir: Parts)
    | TmpSize(bytes: nat)
    | BindHostEtc(host: Host)
    | DisableUserns
    | BlockUntilReleased
    | AddSeccomp(program: seq<bv8>, arches: string)
    | RoBind(src: Parts, dst: Parts)
    | DevBind(src: Parts, dst: Parts)
    | DevBindTry(src: Parts, dst: Parts)
    | Bind(src: Parts, dst: Parts)
    | Symlink(target: Word, link: Parts)
    | MaskDir(dir: Parts)
    | BindInit(hostPath: Parts)
    | FlatpakSpawnShim(hostPath: Parts)
    | RoBindData(content: string, dest: Parts)
    | Ctty
    | X11Server(argv: seq<Word>, wm: Option<Word>)
    | SetEnv(key: Word, value: Word)

  /** The files of the host's `/etc` that name its account, covered where the host has them. */
  function Covered(origin: Origin, files: seq<(string, string)>, host: Host): (r: seq<Item>)
    ensures forall i :: 0 <= i < |r| ==> r[i].kind.Data?
  {
    if files == [] then []
    else
      var p := ["etc", files[0].0];
      (if p in host.present then [Item(origin, Data(files[0].1, p))] else [])
      + Covered(origin, files[1..], host)
  }

  function Backups(passwd: string, group: string): seq<(string, string)> {
    [("passwd-", passwd), ("passwd+", passwd), ("group-", group), ("group+", group), ("subuid", ""), ("subgid", "")]
  }

  /** `--chdir`'s value replaced; `None` is the `expect` that finds no such item. */
  function Rechdir(items: seq<Item>, dir: Parts): Option<seq<Item>> {
    var i := FirstLedBy(items, Opt.Chdir);
    if i == |items| then None
    else Some(items[i := items[i].(kind := Args([items[i].kind.args[0], Path(dir)]))])
  }

  function Resize(items: seq<Item>, origin: Origin, bytes: nat): Option<seq<Item>> {
    var i := FirstSizedAt(items, TMP);
    if i == |items| then None
    else
      var args := items[i].kind.args;
      Some(items[i := Item(origin, Args(args[1 := Text(Decimal(bytes))]))])
  }

  /** The tmpfs `/etc` and its allowlist replaced by the host's; `None` is a failed `expect`. */
  function HostEtc(items: seq<Item>, origin: Origin, host: Host): Option<seq<Item>> {
    var start := FirstSizedAt(items, ETC);
    var end := start + FirstData(items[start..]);
    if start == |items| || end + 2 > |items| || !items[end + 1].kind.Data? then None
    else
      var passwd := items[end].kind.content;
      var group := items[end + 1].kind.content;
      Some(items[..start]
           + [Two(origin, Opt.RoBind, Path(ETC), Path(ETC))]
           + [items[end].(origin := origin), items[end + 1].(origin := origin)]
           + Covered(origin, Backups(passwd, group), host)
           + items[end + 2..])
  }

  function WithShareNet(items: seq<Item>, origin: Origin): seq<Item>
    requires items != []
  {
    if FirstLedBy(items, Opt.ShareNet) < |items| then items
    else [items[0], Bare(origin, Opt.ShareNet)] + items[1..]
  }

  function WithoutUserns(items: seq<Item>, origin: Origin): seq<Item> {
    if FirstLedBy(items, UnshareUser) < |items| then items else items + [UsernsPair(origin)]
  }

  /** What a call pushes to phase 4. */
  function Pushed(c: Call, origin: Origin): seq<Item> {
    match c
    case RoBind(src, dst) => [Two(origin, Opt.RoBind, Path(src), Path(dst))]
    case DevBind(src, dst) => [Two(origin, Opt.DevBind, Path(src), Path(dst))]
    case DevBindTry(src, dst) => [Two(origin, Opt.DevBindTry, Path(src), Path(dst))]
    case Bind(src, dst) => [Two(origin, Opt.Bind, Path(src), Path(dst))]
    case Symlink(target, link) => [Two(origin, Opt.Symlink, target, Path(link))]
    case BindInit(hostPath) => [Two(origin, Opt.RoBind, Path(hostPath), Path(INIT_INSIDE))]
    case FlatpakSpawnShim(hostPath) => ShimItems(origin, hostPath)
    case RoBindData(content, dest) => [Item(origin, Data(content, dest))]
    case _ => []
  }

  /** One call on the builder. `None` is a panic. */
  function Step(s: Phases, c: Call): (r: Option<Phases>)
    requires s.namespaces != []
    ensures r.Some? ==> r.value.namespaces != []
  {
    match c
    case Tag(origin) => Some(s.(origin := origin))
    case ShareNet => Some(s.(namespaces := WithShareNet(s.namespaces, s.origin)))
    case Chdir(dir) =>
      var items :- Rechdir(s.namespaces, dir);
      Some(s.(namespaces := items))
    case TmpSize(bytes) =>
      var items :- Resize(s.skeleton, s.origin, bytes);
      Some(s.(skeleton := items))
    case BindHostEtc(host) =>
      var items :- HostEtc(s.skeleton, s.origin, host);
      Some(s.(skeleton := items))
    case DisableUserns => Some(s.(namespaces := WithoutUserns(s.namespaces, s.origin)))
    case BlockUntilReleased => Some(s.(namespaces := s.namespaces + [Item(s.origin, Kind.BlockFd)]))
    case AddSeccomp(program, arches) =>
      Some(s.(namespaces := s.namespaces + [Item(s.origin, Kind.Seccomp(program, arches))]))
    case MaskDir(dir) => Some(s.(masks := s.masks + MaskItems(s.origin, dir)))
    case Ctty => Some(s.(ctty := true))
    case X11Server(argv, wm) =>
      Some(if s.x11.Some? then s else s.(x11 := Some(Server(s.origin, argv, wm))))
    case SetEnv(key, value) => Some(s.(env := s.env + [Two(s.origin, Opt.SetEnv, key, value)]))
    case _ => Some(s.(binds := s.binds + Pushed(c, s.origin)))
  }

  function Run(s: Phases, calls: seq<Call>): (r: Option<Phases>)
    requires s.namespaces != []
    ensures r.Some? ==> r.value.namespaces != []
    decreases |calls|
  {
    if calls == [] then Some(s)
    else
      var next :- Step(s, calls[0]);
      Run(next, calls[1..])
  }

  // ----- the argv -----

  /** What the allocator is asked for. */
  datatype Ask =
    | File(dest: Parts, content: string) | Program(program: seq<bv8>) | InfoPipe | BlockPipe | InitSocket

  /** The allocator's answer to the request made while operation `n` is written; `None` is an error. */
  type Alloc = (nat, Ask) -> Option<Word>

  datatype Op = Op(origin: Origin, args: seq<Word>)

  function ArgsOf(n: nat, kind: Kind, alloc: Alloc): Option<seq<Word>> {
    match kind
    case Args(args) => Some(args)
    case Noted(args, _) => Some(args)
    case Data(content, dest) =>
      var src :- alloc(n, File(dest, content));
      Some([Flag(Opt.RoBind), src, Path(dest)])
    case InfoFd =>
      var fd :- alloc(n, InfoPipe);
      Some([Flag(Opt.InfoFd), fd])
    case BlockFd =>
      var fd :- alloc(n, BlockPipe);
      Some([Flag(Opt.BlockFd), fd])
    case Seccomp(program, _) =>
      var fd :- alloc(n, Program(program));
      Some([Flag(AddSeccompFd), fd])
  }

  /** The operations of `items`, the first of them being operation `n`. */
  function Emit(items: seq<Item>, n: nat, alloc: Alloc): Option<seq<Op>> {
    if items == [] then Some([])
    else
      var args :- ArgsOf(n, items[0].kind, alloc);
      var rest :- Emit(items[1..], n + 1, alloc);
      Some([Op(items[0].origin, args)] + rest)
  }

  function Items(s: Phases): seq<Item> {
    s.namespaces + s.skeleton + s.runtimeDir + s.binds + s.masks + s.env
  }

  /** What follows bwrap's own options: the supervisor, its arguments and the command. */
  function Trailer(s: Phases, socket: Word, command: seq<Word>): seq<Op> {
    [Op(Origin.Init, [Dashes, Path(INIT_INSIDE), Text("--socket-fd"), socket])]
    + (if s.ctty then [Op(Origin.Ctty, [Text("--ctty")])] else [])
    + (if s.x11.Some? then
         [Op(s.x11.value.origin, [Text("--x11")] + s.x11.value.argv + [Dashes])]
         + (if s.x11.value.wm.Some? then
              [Op(s.x11.value.origin, [Text("--wm"), s.x11.value.wm.value])]
            else [])
       else [])
    + [Op(Origin.Command, [Dashes] + command)]
  }

  datatype Finished = Finished(ops: seq<Op>, options: nat)

  function Finish(s: Phases, command: seq<Word>, alloc: Alloc): (r: Option<Finished>)
    ensures r.Some? ==> r.value.options <= |r.value.ops|
  {
    var out :- Emit(Items(s), 0, alloc);
    var socket :- alloc(|out|, InitSocket);
    Some(Finished(out + Trailer(s, socket, command), |out|))
  }

  function Flatten(ops: seq<Op>): seq<Word> {
    if ops == [] then [] else ops[0].args + Flatten(ops[1..])
  }

  datatype Argv = Argv(args: seq<Word>, commandAt: nat)

  function Lengths(ops: seq<Op>): nat {
    if ops == [] then 0 else |ops[0].args| + Lengths(ops[1..])
  }

  function IntoArgv(f: Finished): Argv
    requires f.options <= |f.ops|
  {
    Argv(Flatten(f.ops), Lengths(f.ops[..f.options]))
  }

  // ----- the builder as it runs -----

  /** Two elements overwritten, something put in after them and what led up to them replaced. */
  lemma Spliced<T>(was: seq<T>, start: nat, end: nat, first: T, second: T, extra: seq<T>, head: T)
    requires start <= end && end + 2 <= |was|
    ensures var named := was[end := first][end + 1 := second];
            var longer := named[..end + 2] + extra + named[end + 2..];
            longer[..start] + [head] + longer[end..] == was[..start] + [head] + [first, second] + extra + was[end + 2..]
  {
    var named := was[end := first][end + 1 := second];
    var longer := named[..end + 2] + extra + named[end + 2..];
    assert named[end..end + 2] == [first, second];
    assert named[end + 2..] == was[end + 2..];
    assert longer[end..] == named[end..end + 2] + extra + named[end + 2..];
    assert longer[..start] == named[..start] == was[..start];
  }

  lemma ItemsAre(s: Phases)
    ensures Items(s) == s.namespaces + s.skeleton + s.runtimeDir + s.binds + s.masks + s.env
  {
  }

  lemma EmitOne(items: seq<Item>, i: nat, alloc: Alloc)
    requires i <= |items|
    ensures i == |items| ==> Emit(items[i..], i, alloc) == Some([])
    ensures i < |items| && ArgsOf(i, items[i].kind, alloc).None? ==> Emit(items[i..], i, alloc).None?
    ensures i < |items| && ArgsOf(i, items[i].kind, alloc).Some? ==>
              var rest := Emit(items[i + 1..], i + 1, alloc);
              Emit(items[i..], i, alloc)
              == if rest.None? then None
                 else Some([Op(items[i].origin, ArgsOf(i, items[i].kind, alloc).value)] + rest.value)
  {
    hide ArgsOf;
    if i < |items| {
      assert items[i..][1..] == items[i + 1..];
    }
  }

  method AllowedEtc(names: seq<string>, host: Host) returns (entries: seq<Item>)
    ensures entries == AllowlistFrom(names, host)
  {
    entries := [];
    var i := 0;
    assert names[0..] == names;
    while i < |names|
      invariant i <= |names|
      invariant entries + AllowlistFrom(names[i..], host) == AllowlistFrom(names, host)
    {
      var p := ["etc", names[i]];
      assert names[i..][1..] == names[i + 1..];
      if p in host.present {
        entries := entries + [Two(Origin.Baseline, Opt.RoBind, Path(p), Path(p))];
      }
      i := i + 1;
    }
  }

  method PassedThrough(pairs: seq<(Word, Word)>) returns (vars: seq<Item>)
    ensures vars == Passthrough(pairs)
  {
    vars := [];
    var i := 0;
    assert pairs[0..] == pairs;
    while i < |pairs|
      invariant i <= |pairs|
      invariant vars + Passthrough(pairs[i..]) == Passthrough(pairs)
    {
      assert pairs[i..][1..] == pairs[i + 1..];
      vars := vars + [Two(Origin.Baseline, Opt.SetEnv, pairs[i].0, pairs[i].1)];
      i := i + 1;
    }
  }

  class BwrapArgs {
    var namespaces: seq<Item>
    var skeleton: seq<Item>
    var runtimeDir: seq<Item>
    var binds: seq<Item>
    var masks: seq<Item>
    var env: seq<Item>
    var ctty: bool
    var x11: Option<Server>
    var origin: Origin

    ghost function View(): Phases
      reads this
    {
      Phases(namespaces, skeleton, runtimeDir, binds, masks, env, ctty, x11, origin)
    }

    /** `baseline`. */
    constructor (base: Base)
      ensures View() == BaselineOf(base)
    {
      hide Decimal, AllowlistFrom, Passthrough, Accounts, SkeletonHead, SkeletonTail;
      var b := Origin.Baseline;
      namespaces := NamespacesHead() + NamespacesTail(SANDBOX_HOME);
      origin, ctty, x11, binds, masks := b, false, None, [], [];
      runtimeDir := RuntimeDirOf(base);
      var etc := AllowedEtc(ETC_ALLOWLIST, base.host);
      skeleton := SkeletonHead()
                  + ([SizedTmpfs(b, Text(Decimal(TMPFS_SIZE)), ETC)] + etc)
                  + Accounts(base, b)
                  + SkeletonTail(base, SizedTmpfs(b, Text(Decimal(TMP_SIZE)), TMP));
      var vars := PassedThrough(base.passthrough);
      env := [Bare(b, ClearEnv)] + vars
             + [Two(b, Opt.SetEnv, Text("HOME"), Path(SANDBOX_HOME)),
                Two(b, Opt.SetEnv, Text("PATH"), Text("/usr/bin:/home/bubbler/.local/bin")),
                Two(b, Opt.SetEnv, Text("XDG_RUNTIME_DIR"), Path(base.runtimeDir)),
                Two(b, Opt.SetEnv, Text("USER"), Text("bubbler")),
                Two(b, Opt.SetEnv, Text("LOGNAME"), Text("bubbler"))];
    }

    method SetTag(o: Origin)
      requires namespaces != []
      modifies this
      ensures Some(View()) == Step(old(View()), Tag(o))
    {
      origin := o;
    }

    method InsertShareNet()
      requires namespaces != []
      modifies this
      ensures Some(View()) == Step(old(View()), Call.ShareNet)
    {
      if FirstLedBy(namespaces, Opt.ShareNet) == |namespaces| {
        namespaces := namespaces[..1] + [Bare(origin, Opt.ShareNet)] + namespaces[1..];
        assert namespaces == WithShareNet(old(namespaces), origin);
      }
    }

    /** Panics unless some item is the `--chdir`. */
    method ReplaceChdir(dir: Parts)
      requires namespaces != [] && Step(View(), Call.Chdir(dir)).Some?
      modifies this
      ensures Some(View()) == Step(old(View()), Call.Chdir(dir))
    {
      var i := FirstLedBy(namespaces, Opt.Chdir);
      var args := namespaces[i].kind.args;
      args := args[..1];
      args := args + [Path(dir)];
      assert args == [namespaces[i].kind.args[0], Path(dir)];
      namespaces := namespaces[i := namespaces[i].(kind := Args(args))];
    }

    /** Panics unless some item is the capped tmpfs on `/tmp`. */
    method ReplaceTmpSize(bytes: nat)
      requires namespaces != [] && Step(View(), TmpSize(bytes)).Some?
      modifies this
      ensures Some(View()) == Step(old(View()), TmpSize(bytes))
    {
      var i := FirstSizedAt(skeleton, TMP);
      var item := skeleton[i].(origin := origin);
      var args := item.kind.args;
      item := item.(kind := Args(args[1 := Text(Decimal(bytes))]));
      skeleton := skeleton[i := item];
    }

    /** The generated files that cover what names the host account. */
    method CoverBackups(files: seq<(string, string)>, host: Host) returns (extra: seq<Item>)
      ensures extra == Covered(origin, files, host)
    {
      extra := [];
      var i := 0;
      assert files[0..] == files;
      while i < |files|
        invariant i <= |files|
        invariant extra + Covered(origin, files[i..], host) == Covered(origin, files, host)
      {
        var dest := ["etc", files[i].0];
        assert files[i..][1..] == files[i + 1..];
        if dest in host.present {
          extra := extra + [Item(origin, Data(files[i].1, dest))];
        }
        i := i + 1;
      }
    }

    /** Panics unless the capped tmpfs on `/etc` is followed by two generated files. */
    method SpliceHostEtc(host: Host)
      requires namespaces != [] && Step(View(), BindHostEtc(host)).Some?
      modifies this
      ensures Some(View()) == Step(old(View()), BindHostEtc(host))
    {
      hide FirstSizedAt, FirstData, Covered, Backups, Pushed, Rechdir, Resize, WithShareNet, WithoutUserns, Two;
      var start := FirstSizedAt(skeleton, ETC);
      var end := start + FirstData(skeleton[start..]);
      var head := Two(origin, Opt.RoBind, Path(ETC), Path(ETC));
      ghost var was := skeleton;
      skeleton := skeleton[end := skeleton[end].(origin := origin)];
      skeleton := skeleton[end + 1 := skeleton[end + 1].(origin := origin)];
      var extra := CoverBackups(Backups(skeleton[end].kind.content, skeleton[end + 1].kind.content), host);
      skeleton := skeleton[..end + 2] + extra + skeleton[end + 2..];
      skeleton := skeleton[..start] + [head] + skeleton[end..];
      Spliced(was, start, end, was[end].(origin := origin), was[end + 1].(origin := origin), extra, head);
    }

    method PushDisableUserns()
      requires namespaces != []
      modifies this
      ensures Some(View()) == Step(old(View()), Call.DisableUserns)
    {
      if FirstLedBy(namespaces, UnshareUser) < |namespaces| {
        return;
      }
      namespaces := namespaces + [UsernsPair(origin)];
    }

    method PushNamespace(c: Call)
      requires namespaces != [] && (c.BlockUntilReleased? || c.AddSeccomp?)
      modifies this
      ensures Some(View()) == Step(old(View()), c)
    {
      if c.BlockUntilReleased? {
        namespaces := namespaces + [Item(origin, Kind.BlockFd)];
      } else {
        namespaces := namespaces + [Item(origin, Kind.Seccomp(c.program, c.arches))];
      }
    }

    method PushMask(dir: Parts)
      requires namespaces != []
      modifies this
      ensures Some(View()) == Step(old(View()), MaskDir(dir))
    {
      masks := masks + [SizedTmpfs(origin, Text("4096"), dir)];
      masks := masks + [One(origin, RemountRo, Path(dir))];
      assert masks == old(masks) + MaskItems(origin, dir);
    }

    /** The binds, symlinks, generated files and the shim of phase 4. */
    method PushBind(c: Call)
      requires namespaces != []
      requires c.RoBind? || c.DevBind? || c.DevBindTry? || c.Bind? || c.Symlink? || c.BindInit?
               || c.FlatpakSpawnShim? || c.RoBindData?
      modifies this
      ensures Some(View()) == Step(old(View()), c)
    {
      binds := binds + Pushed(c, origin);
    }

    method PushEnv(key: Word, value: Word)
      requires namespaces != []
      modifies this
      ensures Some(View()) == Step(old(View()), Call.SetEnv(key, value))
    {
      env := env + [Two(origin, Opt.SetEnv, key, value)];
    }

    method SetCtty()
      requires namespaces != []
      modifies this
      ensures Some(View()) == Step(old(View()), Call.Ctty)
    {
      ctty := true;
    }

    method SetX11(argv: seq<Word>, wm: Option<Word>)
      requires namespaces != []
      modifies this
      ensures Some(View()) == Step(old(View()), X11Server(argv, wm))
    {
      if x11.None? {
        x11 := Some(Server(origin, argv, wm));
      }
    }

    /** `emit`: the operations of all phases, one after another. */
    method EmitAll(alloc: Alloc) returns (r: Option<seq<Op>>)
      ensures r == Emit(Items(View()), 0, alloc)
    {
      hide ArgsOf, Emit, Items;
      var items := namespaces + skeleton + runtimeDir + binds + masks + env;
      ItemsAre(View());
      var out: seq<Op> := [];
      var i := 0;
      assert items[0..] == items;
      while i < |items|
        invariant i <= |items| && |out| == i
        invariant Emit(items, 0, alloc).Some? == Emit(items[i..], i, alloc).Some?
        invariant Emit(items, 0, alloc).Some? ==>
                    Emit(items, 0, alloc).value == out + Emit(items[i..], i, alloc).value
      {
        EmitOne(items, i, alloc);
        var args := ArgsOf(i, items[i].kind, alloc);
        if args.None? {
          return None;
        }
        out := out + [Op(items[i].origin, args.value)];
        i := i + 1;
      }
      EmitOne(items, i, alloc);
      assert out + [] == out;
      r := Some(out);
    }

    /** `finish`: the operations, then the supervisor and the command. */
    method FinishArgv(command: seq<Word>, alloc: Alloc) returns (r: Option<Argv>)
      ensures r == match Finish(View(), command, alloc)
                   case Some(f) => Some(IntoArgv(f))
                   case None => None
    {
      hide Emit, Items, Flatten, Lengths;
      var emitted := EmitAll(alloc);
      if emitted.None? {
        return None;
      }
      var out := emitted.value;
      var options := |out|;
      var socket := alloc(options, InitSocket);
      if socket.None? {
        return None;
      }
      out := out + [Op(Origin.Init, [Dashes, Path(INIT_INSIDE), Text("--socket-fd"), socket.value])];
      if ctty {
        out := out + [Op(Origin.Ctty, [Text("--ctty")])];
      }
      if x11.Some? {
        out := out + [Op(x11.value.origin, [Text("--x11")] + x11.value.argv + [Dashes])];
        if x11.value.wm.Some? {
          out := out + [Op(x11.value.origin, [Text("--wm"), x11.value.wm.value])];
        }
      }
      out := out + [Op(Origin.Command, [Dashes] + command)];
      assert out == emitted.value + Trailer(View(), socket.value, command);
      r := Some(IntoArgv(Finished(out, options)));
    }
  }
}
