/**
 A finished command line as bwrap reads it: options by their number of values, then the
 mounts they make, the last one over a path deciding what the sandbox sees there.
 */
module Mounts {
  import opened Results
  import opened Bwrap

  // ----- reading an argv -----

  /** How many values an option takes (bwrap(1)). */
  function Arity(opt: Opt): nat {
    match opt
    case UnshareAll | ShareNet | DieWithParent | NewSession | UnshareUser | DisableUserns | ClearEnv => 0
    case Hostname | Chdir | InfoFd | BlockFd | AddSeccompFd | Size | Tmpfs | Perms | Dir => 1
    case Proc | Dev | RemountRo | OverlaySrc | TmpOverlay => 1
    case RoBind | RoBindTry | Bind | DevBind | DevBindTry | Symlink | SetEnv => 2
  }

  datatype Setting = Setting(opt: Opt, values: seq<Word>)

  /** Whether an option with all its values leads. */
  predicate Leads(argv: seq<Word>) {
    argv != [] && argv[0].Flag? && Arity(argv[0].opt) < |argv|
  }

  /** The options in front, and what is left from the first element that is not one. */
  function Settings(argv: seq<Word>): (r: (seq<Setting>, seq<Word>))
    ensures |r.1| <= |argv|
    decreases |argv|
  {
    if !Leads(argv) then ([], argv)
    else
      var n := 1 + Arity(argv[0].opt);
      var rest := Settings(argv[n..]);
      ([Setting(argv[0].opt, argv[1..n])] + rest.0, rest.1)
  }

  /** Arguments that are options and nothing else. */
  predicate OnlyOptions(argv: seq<Word>) {
    Settings(argv).1 == []
  }

  lemma SettingsOne(opt: Opt, values: seq<Word>, rest: seq<Word>)
    requires |values| == Arity(opt)
    ensures Settings([Flag(opt)] + values + rest).0 == [Setting(opt, values)] + Settings(rest).0
    ensures Settings([Flag(opt)] + values + rest).1 == Settings(rest).1
  {
    var argv := [Flag(opt)] + values + rest;
    assert argv[1..1 + Arity(opt)] == values;
    assert argv[1 + Arity(opt)..] == rest;
  }

  lemma {:induction false} SettingsConcat(a: seq<Word>, b: seq<Word>)
    requires OnlyOptions(a)
    ensures Settings(a + b).0 == Settings(a).0 + Settings(b).0
    ensures Settings(a + b).1 == Settings(b).1
    decreases |a|
  {
    hide Settings;
    SettingsStep(a);
    SettingsStep(a + b);
    if a == [] {
      assert a + b == b;
      assert [] + Settings(b).0 == Settings(b).0;
    } else {
      var n := 1 + Arity(a[0].opt);
      SettingsConcat(a[n..], b);
      assert (a + b)[n..] == a[n..] + b;
      assert (a + b)[1..n] == a[1..n];
    }
  }

  lemma SettingsStep(argv: seq<Word>)
    ensures !Leads(argv) ==> Settings(argv) == ([], argv)
    ensures Leads(argv) ==>
              var n := 1 + Arity(argv[0].opt);
              && Settings(argv).0 == [Setting(argv[0].opt, argv[1..n])] + Settings(argv[n..]).0
              && Settings(argv).1 == Settings(argv[n..]).1
  {
  }

  // ----- the mounts -----

  /** What is mounted somewhere. */
  datatype Shown =
    | Empty(size: Option<Word>, readOnly: bool)
    | Bound(src: Word, readOnly: bool)
    | Linked(target: Word)
    | Kernel(opt: Opt)
    | Layered(readOnly: bool)

  datatype Mount = Mount(dest: Parts, shown: Shown)

  /** The mounts so far, and the cap waiting for the next operation. */
  datatype Layout = Layout(mounts: seq<Mount>, size: Option<Word>)

  function DestOf(s: Setting): Option<Parts> {
    if s.values == [] then None
    else
      var w := s.values[|s.values| - 1];
      if w.Path? then Some(w.parts) else None
  }

  function ReadOnlyShown(e: Shown): Shown {
    match e
    case Empty(size, _) => Empty(size, true)
    case Bound(src, _) => Bound(src, true)
    case Layered(_) => Layered(true)
    case _ => e
  }

  /** The newest mount at exactly `dest` made read-only. */
  function Remounted(mounts: seq<Mount>, dest: Parts): seq<Mount> {
    if mounts == [] then []
    else
      var last := mounts[|mounts| - 1];
      var front := mounts[..|mounts| - 1];
      if last.dest == dest then front + [last.(shown := ReadOnlyShown(last.shown))]
      else Remounted(front, dest) + [last]
  }

  /** What an option mounts; a `-try` bind of a source that is not there mounts nothing. */
  function Mounted(s: Setting, size: Option<Word>, there: set<Word>): Option<Shown> {
    if |s.values| != Arity(s.opt) then None
    else match s.opt
      case Tmpfs => Some(Empty(size, false))
      case RoBind => Some(Bound(s.values[0], true))
      case RoBindTry => if s.values[0] in there then Some(Bound(s.values[0], true)) else None
      case Bind => Some(Bound(s.values[0], false))
      case DevBind => Some(Bound(s.values[0], false))
      case DevBindTry => if s.values[0] in there then Some(Bound(s.values[0], false)) else None
      case Symlink => Some(Linked(s.values[0]))
      case Proc => Some(Kernel(s.opt))
      case Dev => Some(Kernel(s.opt))
      case TmpOverlay => Some(Layered(false))
      case _ => None
  }

  function Apply(t: Layout, s: Setting, there: set<Word>): Layout {
    var dest := DestOf(s);
    var size := if s.opt == Size && s.values != [] then Some(s.values[0]) else None;
    var shown := Mounted(s, t.size, there);
    if dest.None? then Layout(t.mounts, size)
    else if s.opt == RemountRo then Layout(Remounted(t.mounts, dest.value), size)
    else if shown.Some? then Layout(t.mounts + [Mount(dest.value, shown.value)], size)
    else Layout(t.mounts, size)
  }

  function ApplyAll(t: Layout, settings: seq<Setting>, there: set<Word>): Layout
    decreases |settings|
  {
    if settings == [] then t else ApplyAll(Apply(t, settings[0], there), settings[1..], there)
  }

  lemma {:induction false} ApplyConcat(t: Layout, a: seq<Setting>, b: seq<Setting>, there: set<Word>)
    ensures ApplyAll(t, a + b, there) == ApplyAll(ApplyAll(t, a, there), b, there)
    decreases |a|
  {
    if a == [] {
      assert a + b == b;
    } else {
      assert (a + b)[1..] == a[1..] + b;
      ApplyConcat(Apply(t, a[0], there), a[1..], b, there);
    }
  }

  /** What the sandbox sees at `path`: the newest mount at it or above it. */
  function Resolve(mounts: seq<Mount>, path: Parts): Option<Shown> {
    if mounts == [] then None
    else
      var last := mounts[|mounts| - 1];
      if last.dest <= path then Some(last.shown) else Resolve(mounts[..|mounts| - 1], path)
  }

  /** The mounts of a whole argv. */
  function MountsOf(argv: seq<Word>, there: set<Word>): seq<Mount> {
    ApplyAll(Layout([], None), Settings(argv).0, there).mounts
  }

  /** Whether an option changes what is seen at `path`. */
  predicate Touches(s: Setting, path: Parts) {
    && DestOf(s).Some? && DestOf(s).value <= path
    && (s.opt.Tmpfs? || s.opt.RoBind? || s.opt.RoBindTry? || s.opt.Bind? || s.opt.DevBind? || s.opt.DevBindTry?
        || s.opt.Symlink? || s.opt.Proc? || s.opt.Dev? || s.opt.TmpOverlay? || s.opt.RemountRo?)
  }

  lemma ResolvePushed(mounts: seq<Mount>, m: Mount, path: Parts)
    ensures Resolve(mounts + [m], path) == if m.dest <= path then Some(m.shown) else Resolve(mounts, path)
  {
    assert (mounts + [m])[..|mounts|] == mounts;
  }

  lemma {:induction false} RemountElsewhere(mounts: seq<Mount>, dest: Parts, path: Parts)
    requires !(dest <= path)
    ensures Resolve(Remounted(mounts, dest), path) == Resolve(mounts, path)
  {
    if mounts != [] {
      var last := mounts[|mounts| - 1];
      var front := mounts[..|mounts| - 1];
      assert mounts == front + [last];
      ResolvePushed(front, last, path);
      if last.dest == dest {
        ResolvePushed(front, last.(shown := ReadOnlyShown(last.shown)), path);
      } else {
        RemountElsewhere(front, dest, path);
        ResolvePushed(Remounted(front, dest), last, path);
      }
    }
  }

  lemma ApplyElsewhere(t: Layout, s: Setting, path: Parts, there: set<Word>)
    requires !Touches(s, path)
    ensures Resolve(Apply(t, s, there).mounts, path) == Resolve(t.mounts, path)
  {
    hide Resolve, Remounted;
    var dest := DestOf(s);
    if dest.Some? && s.opt.RemountRo? {
      RemountElsewhere(t.mounts, dest.value, path);
    } else if dest.Some? && Mounted(s, t.size, there).Some? {
      ResolvePushed(t.mounts, Mount(dest.value, Mounted(s, t.size, there).value), path);
    }
  }

  predicate NoneTouches(settings: seq<Setting>, path: Parts) {
    forall i :: 0 <= i < |settings| ==> !Touches(settings[i], path)
  }

  lemma {:induction false} ApplyAllElsewhere(t: Layout, settings: seq<Setting>, path: Parts, there: set<Word>)
    requires NoneTouches(settings, path)
    ensures Resolve(ApplyAll(t, settings, there).mounts, path) == Resolve(t.mounts, path)
    decreases |settings|
  {
    hide Touches, Apply, Resolve;
    if settings != [] {
      ApplyElsewhere(t, settings[0], path, there);
      ApplyAllElsewhere(Apply(t, settings[0], there), settings[1..], path, there);
    }
  }
}
