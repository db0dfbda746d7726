/**
 What a finished command line says besides mounts: the environment the command runs in, and what
 stands behind bwrap's own options.
 */
module BwrapEnv {
  import opened Results
  import opened Bwrap
  import opened BwrapPlan
  import opened Mounts
  import opened BwrapSafety
  import opened BwrapRuns
  import opened BwrapMounts

  // ----- the environment as bwrap makes it -----

  /** `--clearenv` empties it, `--setenv` sets one variable. */
  function EnvStep(env: map<Word, Word>, s: Setting): map<Word, Word> {
    if s.opt == ClearEnv then map[]
    else if s.opt == Opt.SetEnv && |s.values| == 2 then env[s.values[0] := s.values[1]]
    else env
  }

  function Environ(env: map<Word, Word>, ss: seq<Setting>): map<Word, Word>
    decreases |ss|
  {
    if ss == [] then env else Environ(EnvStep(env, ss[0]), ss[1..])
  }

  function Valued(env: map<Word, Word>, key: Word): Option<Word> {
    if key in env then Some(env[key]) else None
  }

  function OrElse(a: Option<Word>, b: Option<Word>): Option<Word> {
    if a.Some? then a else b
  }

  /** The value the last call to set a variable gives it. */
  function LastSet(calls: seq<Call>, key: Word): Option<Word> {
    if calls == [] then None
    else
      OrElse(LastSet(calls[1..], key),
             if calls[0].SetEnv? && calls[0].key == key then Some(calls[0].value) else None)
  }

  function LastPair(pairs: seq<(Word, Word)>, key: Word): Option<Word> {
    if pairs == [] then None
    else OrElse(LastPair(pairs[1..], key), if pairs[0].0 == key then Some(pairs[0].1) else None)
  }

  /** The variables every sandbox has. */
  function Standing(base: Base, key: Word): Option<Word> {
    if key == Text("LOGNAME") then Some(Text("bubbler"))
    else if key == Text("USER") then Some(Text("bubbler"))
    else if key == Text("XDG_RUNTIME_DIR") then Some(Path(base.runtimeDir))
    else if key == Text("PATH") then Some(Text("/usr/bin:/home/bubbler/.local/bin"))
    else if key == Text("HOME") then Some(Path(["home", "bubbler"]))
    else None
  }

  lemma {:induction false} EnvironConcat(env: map<Word, Word>, a: seq<Setting>, b: seq<Setting>)
    ensures Environ(env, a + b) == Environ(Environ(env, a), b)
    decreases |a|
  {
    hide EnvStep;
    if a == [] {
      assert a + b == b;
    } else {
      assert (a + b)[1..] == a[1..] + b;
      EnvironConcat(EnvStep(env, a[0]), a[1..], b);
    }
  }

  predicate AllSet(items: seq<Item>) {
    forall i :: 0 <= i < |items| ==> SetsEnv(items[i])
  }

  /** The value the last of some operations gives a variable. */
  function LastOf(items: seq<Item>, key: Word): Option<Word>
    requires AllSet(items)
  {
    if items == [] then None
    else
      assert AllSet(items[1..]);
      OrElse(LastOf(items[1..], key), if items[0].kind.args[1] == key then Some(items[0].kind.args[2]) else None)
  }

  lemma {:induction false} LastOfConcat(a: seq<Item>, b: seq<Item>, key: Word)
    requires AllSet(a) && AllSet(b)
    ensures AllSet(a + b) && LastOf(a + b, key) == OrElse(LastOf(b, key), LastOf(a, key))
    decreases |a|
  {
    hide SetsEnv;
    if a == [] {
      assert a + b == b;
    } else {
      assert (a + b)[1..] == a[1..] + b;
      LastOfConcat(a[1..], b, key);
    }
  }

  lemma SetStep(i: Item, n: nat, alloc: Alloc)
    requires SetsEnv(i)
    ensures Emit([i], n, alloc).Some?
    ensures Written([i], n, alloc) == [Setting(Opt.SetEnv, [i.kind.args[1], i.kind.args[2]])]
  {
    hide Settings;
    TwoReads(i.origin, Opt.SetEnv, i.kind.args[1], i.kind.args[2]);
    assert i.kind.args == [Flag(Opt.SetEnv), i.kind.args[1], i.kind.args[2]];
    LiteralWritten(i, n, alloc);
  }

  /** Variables set one after another: each has its last value. */
  lemma {:induction false} SetInTurn(items: seq<Item>, n: nat, alloc: Alloc, env: map<Word, Word>, key: Word)
    requires AllSet(items)
    ensures Emit(items, n, alloc).Some?
    ensures Valued(Environ(env, Written(items, n, alloc)), key) == OrElse(LastOf(items, key), Valued(env, key))
    decreases |items|
  {
    hide Written, Emit, SetsEnv;
    if items == [] {
      EmitNothing(n, alloc);
    } else {
      var i, rest := items[0], items[1..];
      assert items == [i] + rest;
      assert SetsEnv(i);
      SetStep(i, n, alloc);
      KindOfSet(i);
      var s := Setting(Opt.SetEnv, [i.kind.args[1], i.kind.args[2]]);
      SetInTurn(rest, n + 1, alloc, EnvStep(env, s), key);
      EmitConcat([i], rest, n, alloc);
      WrittenConcat([i], rest, n, alloc);
      OneEnviron(env, s);
      EnvironConcat(env, [s], Written(rest, n + 1, alloc));
    }
  }

  lemma KindOfSet(i: Item)
    requires SetsEnv(i)
    ensures i.kind.Args? && |i.kind.args| == 3
  {
  }

  lemma OneEnviron(env: map<Word, Word>, s: Setting)
    ensures Environ(env, [s]) == EnvStep(env, s)
  {
    hide EnvStep;
    assert [s][1..] == [];
  }

  lemma {:induction false} PairsInTurn(pairs: seq<(Word, Word)>, key: Word)
    ensures AllSet(Passthrough(pairs)) && LastOf(Passthrough(pairs), key) == LastPair(pairs, key)
  {
    if pairs != [] {
      PairsInTurn(pairs[1..], key);
      assert Passthrough(pairs)[1..] == Passthrough(pairs[1..]);
    }
  }

  lemma NextEnv(p: Plan, c: Call)
    ensures Next(p, c).env
         == p.env + if c.SetEnv? then [Two(p.origin, Opt.SetEnv, c.key, c.value)] else []
  {
    hide Pushed, HasPair;
    assert p.env + [] == p.env;
  }

  lemma {:induction false} PlanEnv(p: Plan, calls: seq<Call>, key: Word)
    requires AllSet(p.env)
    ensures AllSet(PlanOf(p, calls).env)
    ensures LastOf(PlanOf(p, calls).env, key) == OrElse(LastSet(calls, key), LastOf(p.env, key))
    decreases |calls|
  {
    hide Next;
    if calls != [] {
      var c := calls[0];
      var more := if c.SetEnv? then [Two(p.origin, Opt.SetEnv, c.key, c.value)] else [];
      NextEnv(p, c);
      assert AllSet(more);
      assert more != [] ==> more[1..] == [];
      LastOfConcat(p.env, more, key);
      PlanEnv(Next(p, c), calls[1..], key);
    }
  }

  /** The five variables of every sandbox. */
  function StandingItems(base: Base): seq<Item> {
    var b := Origin.Baseline;
    [Two(b, Opt.SetEnv, Text("HOME"), Path(SANDBOX_HOME)),
     Two(b, Opt.SetEnv, Text("PATH"), Text("/usr/bin:/home/bubbler/.local/bin")),
     Two(b, Opt.SetEnv, Text("XDG_RUNTIME_DIR"), Path(base.runtimeDir)),
     Two(b, Opt.SetEnv, Text("USER"), Text("bubbler")),
     Two(b, Opt.SetEnv, Text("LOGNAME"), Text("bubbler"))]
  }

  lemma LastOfCons(i: Item, rest: seq<Item>, key: Word)
    requires SetsEnv(i) && AllSet(rest)
    ensures AllSet([i] + rest)
    ensures LastOf([i] + rest, key)
         == OrElse(LastOf(rest, key), if i.kind.args[1] == key then Some(i.kind.args[2]) else None)
  {
    assert ([i] + rest)[1..] == rest;
  }

  lemma StandingInTurn(base: Base, key: Word)
    ensures AllSet(StandingItems(base)) && LastOf(StandingItems(base), key) == Standing(base, key)
  {
    hide LastOf;
    var b := Origin.Baseline;
    var home := Two(b, Opt.SetEnv, Text("HOME"), Path(SANDBOX_HOME));
    var path := Two(b, Opt.SetEnv, Text("PATH"), Text("/usr/bin:/home/bubbler/.local/bin"));
    var dir := Two(b, Opt.SetEnv, Text("XDG_RUNTIME_DIR"), Path(base.runtimeDir));
    var user := Two(b, Opt.SetEnv, Text("USER"), Text("bubbler"));
    var name := Two(b, Opt.SetEnv, Text("LOGNAME"), Text("bubbler"));
    NothingSet(key);
    LastOfCons(name, [], key);
    LastOfCons(user, [name] + [], key);
    LastOfCons(dir, [user] + ([name] + []), key);
    LastOfCons(path, [dir] + ([user] + ([name] + [])), key);
    LastOfCons(home, [path] + ([dir] + ([user] + ([name] + []))), key);
    assert StandingItems(base) == [home] + ([path] + ([dir] + ([user] + ([name] + []))));
  }

  lemma NothingSet(key: Word)
    ensures AllSet([]) && LastOf([], key) == None
  {
  }

  /** Everything the last phase sets, behind its `--clearenv`. */
  function SetItems(base: Base, p: Plan): seq<Item> {
    Passthrough(base.passthrough) + StandingItems(base) + p.env
  }

  lemma EnvSplits(base: Base, p: Plan)
    ensures EnvOf(base) + p.env == [Bare(Origin.Baseline, ClearEnv)] + SetItems(base, p)
  {
    hide Passthrough;
  }

  lemma Cleared(n: nat, alloc: Alloc, env: map<Word, Word>)
    ensures var items := [Bare(Origin.Baseline, ClearEnv)];
            Emit(items, n, alloc).Some? && Environ(env, Written(items, n, alloc)) == map[]
  {
    hide Settings;
    BareReads(Origin.Baseline, ClearEnv);
    LiteralWritten(Bare(Origin.Baseline, ClearEnv), n, alloc);
    OneEnviron(env, Setting(ClearEnv, []));
  }

  /** The last phase makes the environment, whatever it was before. */
  lemma PhaseMakesEnv(base: Base, p: Plan, n: nat, alloc: Alloc, env: map<Word, Word>, key: Word)
    requires AllSet(p.env)
    ensures Valued(Environ(env, Written(EnvOf(base) + p.env, n, alloc)), key)
         == OrElse(LastOf(p.env, key), OrElse(Standing(base, key), LastPair(base.passthrough, key)))
  {
    hide Written, Emit, EnvOf, Passthrough, StandingItems, LastOf, Standing, AllSet;
    var clear := [Bare(Origin.Baseline, ClearEnv)];
    EnvSplits(base, p);
    Cleared(n, alloc, env);
    PairsInTurn(base.passthrough, key);
    StandingInTurn(base, key);
    LastOfConcat(Passthrough(base.passthrough), StandingItems(base), key);
    LastOfConcat(Passthrough(base.passthrough) + StandingItems(base), p.env, key);
    SetInTurn(SetItems(base, p), n + 1, alloc, map[], key);
    WrittenConcat(clear, SetItems(base, p), n, alloc);
    EnvironConcat(env, Written(clear, n, alloc), Written(SetItems(base, p), n + 1, alloc));
  }

  /**
   The environment of a command, whatever the launcher's own was: a variable has the value the last
   call gave it, else the sandbox's own, else what is passed through, else it is not set.
   */
  lemma EnvironmentIs(
    base: Base, calls: seq<Call>, command: seq<Word>, alloc: Alloc, env: map<Word, Word>, key: Word)
    requires Finishes(base, calls, command, alloc)
    ensures Valued(Environ(env, Settings(ArgvOf(base, calls, command, alloc).args).0), key)
         == OrElse(LastSet(calls, key), OrElse(Standing(base, key), LastPair(base.passthrough, key)))
  {
    hide Settings, Emit, EnvOf, MasksOf, Inner, PlanOf, Draw, ArgvOf, Finishes, Finish, Written, Environ, Standing,
         SoundPlan, LastOf, AllSet;
    var p := PlanOf(NOTHING, calls);
    FinishesIs(base, calls, command, alloc);
    NothingIsSound();
    PlanIsSound(NOTHING, calls);
    ArgvReadsBack(base, calls, command, alloc);
    PhasesInOrder(base, p, command, alloc);
    NothingSet(key);
    PlanEnv(NOTHING, calls, key);
    var front := Inner(base, p) + MasksOf(p.masks);
    WrittenConcat(front, EnvOf(base) + p.env, 0, alloc);
    EnvironConcat(env, Written(front, 0, alloc), Written(EnvOf(base) + p.env, |front|, alloc));
    PhaseMakesEnv(base, p, |front|, alloc, Environ(env, Written(front, 0, alloc)), key);
  }

  // ----- behind the options -----

  /** The first server asked for, its argv and its window manager. */
  function FirstServer(calls: seq<Call>): Option<(seq<Word>, Option<Word>)> {
    if calls == [] then None
    else if calls[0].X11Server? then Some((calls[0].argv, calls[0].wm))
    else FirstServer(calls[1..])
  }

  predicate AsksCtty(calls: seq<Call>) {
    calls != [] && (calls[0].Ctty? || AsksCtty(calls[1..]))
  }

  /**
   What follows bwrap's options: the supervisor with its socket, a terminal if asked for, the nested
   server up to a double dash of its own and the window manager with it, and the command itself.
   */
  function Behind(calls: seq<Call>, socket: Word, command: seq<Word>): seq<Word> {
    [Dashes, Path(["run", "bubbler-init"]), Text("--socket-fd"), socket]
    + (if AsksCtty(calls) then [Text("--ctty")] else [])
    + (match FirstServer(calls)
       case None => []
       case Some((argv, None)) => [Text("--x11")] + argv + [Dashes]
       case Some((argv, Some(wm))) => [Text("--x11")] + argv + [Dashes] + [Text("--wm"), wm])
    + [Dashes] + command
  }

  lemma NextAsks(p: Plan, c: Call)
    ensures Next(p, c).ctty == (p.ctty || c.Ctty?)
    ensures Next(p, c).x11 == if p.x11.None? && c.X11Server? then Some(Server(p.origin, c.argv, c.wm)) else p.x11
  {
    hide Pushed, HasPair;
  }

  function ServerOf(x11: Option<Server>): Option<(seq<Word>, Option<Word>)> {
    if x11.None? then None else Some((x11.value.argv, x11.value.wm))
  }

  lemma {:induction false} PlanAsks(p: Plan, calls: seq<Call>)
    ensures PlanOf(p, calls).ctty == (p.ctty || AsksCtty(calls))
    ensures ServerOf(PlanOf(p, calls).x11) == if p.x11.Some? then ServerOf(p.x11) else FirstServer(calls)
    decreases |calls|
  {
    hide Next;
    if calls != [] {
      NextAsks(p, calls[0]);
      PlanAsks(Next(p, calls[0]), calls[1..]);
    }
  }

  lemma TrailerIs(s: Phases, socket: Word, command: seq<Word>, calls: seq<Call>)
    requires s.ctty == AsksCtty(calls) && ServerOf(s.x11) == FirstServer(calls)
    ensures Flatten(Trailer(s, socket, command)) == Behind(calls, socket, command)
  {
    hide Flatten, FirstServer, AsksCtty, ServerOps, ManagerOps;
    var init := Op(Origin.Init, [Dashes, Path(INIT_INSIDE), Text("--socket-fd"), socket]);
    var ctty := if s.ctty then [Op(Origin.Ctty, [Text("--ctty")])] else [];
    var x11, wm := ServerOps(s.x11), ManagerOps(s.x11);
    var last := Op(Origin.Command, [Dashes] + command);
    assert Trailer(s, socket, command) == [init] + (ctty + (x11 + (wm + [last]))) by {
      TrailerParts(s, socket, command);
    }
    FiveFlat([init], ctty, x11, wm, [last]);
    OneFlat(last);
    OneFlat(init);
    ServerFlat(s.x11);
    CttyFlat(s.ctty);
    FiveParts(init.args, Flatten(ctty), Flatten(x11), Flatten(wm), last.args);
  }

  function ServerOps(x11: Option<Server>): seq<Op> {
    if x11.None? then [] else [Op(x11.value.origin, [Text("--x11")] + x11.value.argv + [Dashes])]
  }

  function ManagerOps(x11: Option<Server>): seq<Op> {
    if x11.None? || x11.value.wm.None? then [] else [Op(x11.value.origin, [Text("--wm"), x11.value.wm.value])]
  }

  lemma TrailerParts(s: Phases, socket: Word, command: seq<Word>)
    ensures var ctty := if s.ctty then [Op(Origin.Ctty, [Text("--ctty")])] else [];
            Trailer(s, socket, command)
            == [Op(Origin.Init, [Dashes, Path(INIT_INSIDE), Text("--socket-fd"), socket])]
               + (ctty + (ServerOps(s.x11) + (ManagerOps(s.x11) + [Op(Origin.Command, [Dashes] + command)])))
  {
  }

  lemma CttyFlat(on: bool)
    ensures Flatten(if on then [Op(Origin.Ctty, [Text("--ctty")])] else []) == if on then [Text("--ctty")] else []
  {
    OneFlat(Op(Origin.Ctty, [Text("--ctty")]));
  }

  lemma ServerFlat(x11: Option<Server>)
    ensures Flatten(ServerOps(x11)) + Flatten(ManagerOps(x11)) == match ServerOf(x11)
            case None => []
            case Some((argv, None)) => [Text("--x11")] + argv + [Dashes]
            case Some((argv, Some(wm))) => [Text("--x11")] + argv + [Dashes] + [Text("--wm"), wm]
  {
    hide Flatten;
    NothingFlat();
    if x11.Some? {
      OneFlat(ServerOps(x11)[0]);
      if x11.value.wm.Some? {
        OneFlat(ManagerOps(x11)[0]);
      }
    }
  }

  lemma OneFlat(op: Op)
    ensures Flatten([op]) == op.args
  {
    assert [op][1..] == [];
  }

  lemma FiveFlat(a: seq<Op>, b: seq<Op>, c: seq<Op>, d: seq<Op>, e: seq<Op>)
    ensures Flatten(a + (b + (c + (d + e)))) == Flatten(a) + (Flatten(b) + (Flatten(c) + (Flatten(d) + Flatten(e))))
  {
    FlattenConcat(a, b + (c + (d + e)));
    FlattenConcat(b, c + (d + e));
    FlattenConcat(c, d + e);
    FlattenConcat(d, e);
  }

  lemma FiveParts<T>(a: seq<T>, b: seq<T>, c: seq<T>, d: seq<T>, e: seq<T>)
    ensures a + (b + (c + (d + e))) == a + b + (c + d) + e
  {
  }

  lemma NothingFlat()
    ensures Flatten([]) == []
  {
  }

  /** Behind its options a finished command line is just what was asked for, the command last. */
  lemma BehindTheOptions(base: Base, calls: seq<Call>, command: seq<Word>, alloc: Alloc)
    requires Finishes(base, calls, command, alloc)
    ensures var argv := ArgvOf(base, calls, command, alloc);
            exists n: nat :: alloc(n, InitSocket).Some? && argv.commandAt <= |argv.args| &&
              argv.args[argv.commandAt..] == Behind(calls, alloc(n, InitSocket).value, command)
  {
    hide Emit, Draw, Flatten, Lengths, Trailer, Behind, PlanOf, FirstServer, AsksCtty;
    var p := PlanOf(NOTHING, calls);
    var s := Draw(base, p);
    var ops := Emit(Items(s), 0, alloc).value;
    var n := |ops|;
    var socket := alloc(n, InitSocket).value;
    var trailer := Trailer(s, socket, command);
    FlattenConcat(ops, trailer);
    assert (ops + trailer)[..n] == ops;
    PlanAsks(NOTHING, calls);
    DrawAsks(base, p);
    TrailerIs(s, socket, command, calls);
    assert (Flatten(ops) + Flatten(trailer))[|Flatten(ops)|..] == Flatten(trailer);
  }

  lemma DrawAsks(base: Base, p: Plan)
    ensures Draw(base, p).ctty == p.ctty && Draw(base, p).x11 == p.x11
  {
  }

  // ----- numbers and accounts -----

  predicate IsDigit(c: char) {
    '0' <= c <= '9'
  }

  /** The number some digits spell. */
  function NumberOf(s: string): nat
    requires forall i :: 0 <= i < |s| ==> IsDigit(s[i])
  {
    if s == "" then 0
    else
      assert IsDigit(s[|s| - 1]);
      10 * NumberOf(s[..|s| - 1]) + (s[|s| - 1] as int - '0' as int)
  }

  predicate SpellsNumber(s: string, n: nat) {
    && s != "" && (forall i :: 0 <= i < |s| ==> IsDigit(s[i])) && NumberOf(s) == n
    && (|s| > 1 ==> s[0] != '0')
  }

  lemma DigitIs(n: nat)
    requires n < 10
    ensures var c := "0123456789"[n]; IsDigit(c) && c as int - '0' as int == n
  {
  }

  lemma {:induction false} DecimalSpells(n: nat)
    ensures SpellsNumber(Decimal(n), n)
    decreases n
  {
    var c := "0123456789"[n % 10];
    DigitIs(n % 10);
    if n >= 10 {
      DecimalSpells(n / 10);
      var front := Decimal(n / 10);
      assert Decimal(n) == front + [c];
      assert (front + [c])[..|front|] == front;
      if |front| == 1 {
        assert NumberOf(front[..0]) == 0;
        assert front[0] != '0';
      }
    } else {
      assert Decimal(n) == [c];
      assert [c][..0] == "";
    }
  }

  /** The accounts a sandbox reads name the fixed user under the numbers given, and nobody else of the host. */
  lemma AccountsName(uid: nat, gid: nat)
    ensures exists u: string, g: string :: SpellsNumber(u, uid) && SpellsNumber(g, gid)
              && PasswdContent(uid, gid)
                 == "bubbler:x:" + u + ":" + g + ":bubbler:/home/bubbler:/bin/sh\n"
                    + "nobody:x:65534:65534:nobody:/:/bin/sh\n"
              && GroupContent(gid) == "bubbler:x:" + g + ":\nnobody:x:65534:\n"
  {
    hide SpellsNumber, Decimal;
    DecimalSpells(uid);
    DecimalSpells(gid);
    assert SpellsNumber(Decimal(uid), uid) && SpellsNumber(Decimal(gid), gid);
  }
}
