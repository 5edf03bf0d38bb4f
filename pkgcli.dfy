/** The command line of `dsh-pkg` on the master node: the rearrangement of
    the arguments that moves package names behind the options, and the
    classification of the parsed options into an action, settings and the
    argument lists passed on to the nodes. */
module PkgCli {
  import opened Text
  import opened Seqs

  // ---------------------------------------------------------------------------
  // rearrange_options

  /** The options after which package names may follow: `-l`, `--list`,
      `-i`, `--install`, `-R`, `--remove`. */
  predicate IsListOption(arg: string) {
    arg != [] && arg[0] == '-' && arg[1..] in {"l", "-list", "i", "-install", "R", "-remove"}
  }

  predicate NoEmptyArgs(args: seq<string>) {
    forall k :: 0 <= k < |args| ==> args[k] != []
  }

  /** An argument is moved to the end when it does not start with `-` and
      follows a list option directly or another moved argument. */
  predicate Moved(args: seq<string>, i: nat)
    requires NoEmptyArgs(args) && i < |args|
  {
    args[i][0] != '-' && i > 0 && (IsListOption(args[i - 1]) || Moved(args, i - 1))
  }

  /** The arguments among the first `n` that stay in place (`keep`) or that
      move (`!keep`), in their original order. */
  function Pick(args: seq<string>, n: nat, keep: bool): seq<string>
    requires NoEmptyArgs(args) && n <= |args|
  {
    if n == 0 then []
    else Pick(args, n - 1, keep) + (if Moved(args, n - 1) != keep then [args[n - 1]] else [])
  }

  /** `rearrange_options()` on `argv[1:]`: the package names after the list
      options go to the end; everything else keeps its order. Every argument
      must be nonempty, since its first character is inspected. */
  method RearrangeOptions(args: seq<string>) returns (r: seq<string>)
    requires NoEmptyArgs(args)
    ensures r == Pick(args, |args|, true) + Pick(args, |args|, false)
  {
    var newArgv: seq<string> := [];
    var pkgList: seq<string> := [];
    var i := 0;
    while i < |args|
      invariant i <= |args|
      invariant newArgv == Pick(args, i, true) && pkgList == Pick(args, i, false)
      invariant i < |args| ==> !Moved(args, i)
    {
      var arg := args[i];
      newArgv := newArgv + [arg];
      i := i + 1;
      if arg[0] == '-' {
        var opt := arg[1..];
        if opt in {"l", "-list", "i", "-install", "R", "-remove"} {
          if i >= |args| {
            break;
          }
          var optionalArg := args[i];
          while optionalArg[0] != '-'
            invariant 1 <= i < |args| && optionalArg == args[i]
            invariant IsListOption(args[i - 1]) || Moved(args, i - 1)
            invariant newArgv == Pick(args, i, true) && pkgList == Pick(args, i, false)
            decreases |args| - i
          {
            pkgList := pkgList + [optionalArg];
            i := i + 1;
            if i >= |args| {
              break;
            }
            optionalArg := args[i];
          }
        }
      }
    }
    r := newArgv + pkgList;
  }

  /** The two parts together are a permutation of the arguments. */
  lemma {:induction false} PickPermutation(args: seq<string>, n: nat)
    requires NoEmptyArgs(args) && n <= |args|
    ensures multiset(Pick(args, n, true)) + multiset(Pick(args, n, false)) == multiset(args[..n])
  {
    if n == 0 {
      assert args[..n] == [];
    } else {
      PickPermutation(args, n - 1);
      PickGrows(args, n);
    }
  }

  /** One more argument goes to exactly one of the two parts. */
  lemma PickGrows(args: seq<string>, n: nat)
    requires NoEmptyArgs(args) && 0 < n <= |args|
    requires multiset(Pick(args, n - 1, true)) + multiset(Pick(args, n - 1, false)) == multiset(args[..n - 1])
    ensures multiset(Pick(args, n, true)) + multiset(Pick(args, n, false)) == multiset(args[..n])
  {
    var x := args[n - 1];
    assert args[..n] == args[..n - 1] + [x];
    MultisetSnoc(args[..n - 1], x);
    var kept, moved := Pick(args, n - 1, true), Pick(args, n - 1, false);
    if Moved(args, n - 1) {
      assert Pick(args, n, false) == moved + [x] && Pick(args, n, true) == kept;
      MultisetSnoc(moved, x);
    } else {
      assert Pick(args, n, true) == kept + [x] && Pick(args, n, false) == moved;
      MultisetSnoc(kept, x);
    }
  }

  lemma MultisetSnoc(s: seq<string>, x: string)
    ensures multiset(s + [x]) == multiset(s) + multiset{x}
  {
  }

  lemma RearrangedPermutation(args: seq<string>)
    requires NoEmptyArgs(args)
    ensures multiset(Pick(args, |args|, true) + Pick(args, |args|, false)) == multiset(args)
    ensures |Pick(args, |args|, true) + Pick(args, |args|, false)| == |args|
  {
    PickPermutation(args, |args|);
    assert args[..|args|] == args;
    var r := Pick(args, |args|, true) + Pick(args, |args|, false);
    assert multiset(r) == multiset(Pick(args, |args|, true)) + multiset(Pick(args, |args|, false));
    assert |r| == |multiset(r)| == |multiset(args)| == |args|;
  }

  /** The moved arguments are exactly the maximal runs of arguments not
      starting with `-` that directly follow a list option. */
  lemma {:induction false} MovedIsRun(args: seq<string>, i: nat)
    requires NoEmptyArgs(args) && i < |args|
    ensures Moved(args, i) <==>
      exists j :: 0 <= j < i && IsListOption(args[j]) && forall k :: j < k <= i ==> args[k][0] != '-'
  {
    if Moved(args, i) {
      if IsListOption(args[i - 1]) {
        assert forall k :: i - 1 < k <= i ==> args[k][0] != '-';
      } else {
        MovedIsRun(args, i - 1);
        var j :| 0 <= j < i - 1 && IsListOption(args[j]) && forall k :: j < k <= i - 1 ==> args[k][0] != '-';
        assert forall k :: j < k <= i ==> args[k][0] != '-';
      }
    }
    if exists j :: 0 <= j < i && IsListOption(args[j]) && forall k :: j < k <= i ==> args[k][0] != '-' {
      var j :| 0 <= j < i && IsListOption(args[j]) && forall k :: j < k <= i ==> args[k][0] != '-';
      if j < i - 1 {
        MovedIsRun(args, i - 1);
        assert forall k :: j < k <= i - 1 ==> args[k][0] != '-';
      }
    }
  }

  // ---------------------------------------------------------------------------
  // get_options

  /** One option as `getopt` returns it; `arg` is empty for an option
      without an argument. */
  datatype Opt = Opt(name: string, arg: string) {
    function Kind(): OptKind {
      KindOf(name)
    }
  }

  datatype Failure =
    | Usage                       // usage(), then exit 1
    | OnlyOne                     // there_can_be_only_one()
    | NoPackage                   // --install or --remove without a package name
    | NotNumeric(option: string)  // -N or -z with a value int() refuses
    | BadNumProc
    | BadSleepTime
    | UnknownManager(name: string)

  datatype Options = Options(
    masterOpts: seq<string>, passArgs: seq<string>,
    nodes: seq<string>, groups: seq<string>, excludeNodes: seq<string>, excludeGroups: seq<string>,
    manager: Option<string>, fix: bool, numProc: Option<int>, sleepTime: Option<int>,
    quiet: bool, verbose: bool, unix: bool, aggregate: bool)

  datatype Outcome = Exit(reason: Failure) | Parsed(options: Options)

  /** The options `getopt` may return, as the code tells them apart by
      testing a name against a tuple of spellings. */
  datatype OptKind =
    | Help | Conf | Node | Group | Exclude | ExcludeGroup
    | Install | Remove | List | Update | Upgrade | Clean
    | Manager | Fix | NumProc | Zzz | Quiet | Verbose | Unix | Aggregate | Other

  /** The kind of an option name, as the tuples of spellings `get_options`
      tests names against tell it: a `-` and one letter, or `--` and a word. */
  function KindOf(name: string): OptKind {
    if |name| == 2 && name[0] == '-' then ShortKind(name[1])
    else if |name| > 2 && name[0] == '-' && name[1] == '-' then Lookup(LongSpellings, name[2..])
    else Other
  }

  /** The kind of the one-letter option `-c`. */
  function ShortKind(c: char): OptKind {
    match c
    case 'h' | '?' => Help
    case 'c' => Conf
    case 'n' => Node
    case 'g' => Group
    case 'x' => Exclude
    case 'X' => ExcludeGroup
    case 'i' => Install
    case 'R' => Remove
    case 'l' => List
    case 'u' => Update
    case 'U' => Upgrade
    case 'C' => Clean
    case 'm' => Manager
    case 'f' => Fix
    case 'N' => NumProc
    case 'z' => Zzz
    case 'q' => Quiet
    case 'v' => Verbose
    case 'a' => Aggregate
    case _ => Other
  }

  /** The words of the long options `--word`. */
  const LongSpellings: seq<(string, OptKind)> := [
    ("help", Help), ("conf", Conf), ("node", Node), ("group", Group),
    ("exclude", Exclude), ("exclude-group", ExcludeGroup),
    ("install", Install), ("remove", Remove), ("list", List), ("update", Update),
    ("upgrade", Upgrade), ("clean", Clean), ("cleanup", Clean),
    ("manager", Manager), ("fix", Fix), ("numproc", NumProc), ("zzz", Zzz),
    ("quiet", Quiet), ("verbose", Verbose), ("unix", Unix), ("aggregate", Aggregate)]

  /** The kind listed for `name` in `table`, or `Other`. */
  function Lookup(table: seq<(string, OptKind)>, name: string): OptKind {
    if table == [] then Other
    else if table[0].0 == name then table[0].1
    else Lookup(table[1..], name)
  }

  const HelpOptions: set<OptKind> := {Help}
  const ConfOptions: set<OptKind> := {Conf}
  const NumProcOptions: set<OptKind> := {NumProc}
  const SleepOptions: set<OptKind> := {Zzz}
  const ManagerOptions: set<OptKind> := {Manager}
  const InstallOptions: set<OptKind> := {Install, Remove}
  predicate IsAction(k: OptKind) {
    k.Install? || k.Remove? || k.List? || k.Update? || k.Upgrade? || k.Clean?
  }

  /** The options the master acts on itself and does not pass to the nodes. */
  predicate MasterOnly(k: OptKind) {
    k.Help? || k.Conf? || k.Node? || k.Group? || k.Exclude? || k.ExcludeGroup? || k.NumProc? || k.Zzz? || k.Aggregate?
  }

  function NonEmpty(s: string): seq<string> {
    if s != [] then [s] else []
  }

  predicate Given(opts: seq<Opt>, names: set<OptKind>) {
    exists k :: 0 <= k < |opts| && opts[k].Kind() in names
  }

  /** The arguments of the options called one of `names`, in order. */
  function ArgsOf(opts: seq<Opt>, names: set<OptKind>): seq<string> {
    if opts == [] then []
    else ArgsOf(opts[..|opts| - 1], names) + (if opts[|opts| - 1].Kind() in names then [opts[|opts| - 1].arg] else [])
  }

  /** The argument of the last option called one of `names`. */
  function LastArg(opts: seq<Opt>, names: set<OptKind>): (r: Option<string>)
    ensures r.Some? <==> Given(opts, names)
  {
    if opts == [] then None
    else if opts[|opts| - 1].Kind() in names then Some(opts[|opts| - 1].arg)
    else
      var r := LastArg(opts[..|opts| - 1], names);
      assert Given(opts, names) <==> Given(opts[..|opts| - 1], names) by {
        if Given(opts, names) {
          var k :| 0 <= k < |opts| && opts[k].Kind() in names;
          assert opts[..|opts| - 1][k].Kind() in names;
        }
        if Given(opts[..|opts| - 1], names) {
          var k :| 0 <= k < |opts| - 1 && opts[..|opts| - 1][k].Kind() in names;
          assert opts[k].Kind() in names;
        }
      }
      r
  }

  function ActionCount(opts: seq<Opt>): nat {
    if opts == [] then 0
    else ActionCount(opts[..|opts| - 1]) + (if IsAction(opts[|opts| - 1].Kind()) then 1 else 0)
  }

  /** What the first loop passes on: each `-c` option with its file name. */
  function ConfArgs(opts: seq<Opt>): seq<string> {
    if opts == [] then []
    else
      var o := opts[|opts| - 1];
      ConfArgs(opts[..|opts| - 1]) + (if o.Kind() in ConfOptions then [o.name, o.arg] else [])
  }

  /** Every nonempty option name and argument, in order. */
  function Mentioned(opts: seq<Opt>): seq<string> {
    if opts == [] then []
    else
      var o := opts[|opts| - 1];
      Mentioned(opts[..|opts| - 1]) + NonEmpty(o.name) + NonEmpty(o.arg)
  }

  /** What one option contributes to the arguments for the nodes. */
  function PassedBy(o: Opt): seq<string> {
    if MasterOnly(o.Kind()) then [] else NonEmpty(o.name) + NonEmpty(o.arg)
  }

  function Passed(opts: seq<Opt>): seq<string> {
    if opts == [] then [] else Passed(opts[..|opts| - 1]) + PassedBy(opts[|opts| - 1])
  }

  /** The check the second loop makes of one option's argument. */
  function Check(o: Opt, managers: set<string>): Option<Failure> {
    if o.Kind() in ManagerOptions && o.arg !in managers then Some(UnknownManager(o.arg))
    else if o.Kind() in NumProcOptions then
      match ParseInt(o.arg, 10)
      case None => Some(NotNumeric(o.name))
      case Some(v) => if v < 1 then Some(BadNumProc) else None
    else if o.Kind() in SleepOptions then
      match ParseInt(o.arg, 10)
      case None => Some(NotNumeric(o.name))
      case Some(v) => if v < 0 then Some(BadSleepTime) else None
    else None
  }

  /** The first option whose argument is refused. */
  function FirstFailure(opts: seq<Opt>, managers: set<string>): Option<Failure> {
    if opts == [] then None
    else
      match FirstFailure(opts[..|opts| - 1], managers)
      case Some(f) => Some(f)
      case None => Check(opts[|opts| - 1], managers)
  }

  /** `SLEEP_TIME` for an accepted `-z` value: 0 asks for serial runs and is
      kept as -1. */
  function SleepSetting(v: int): int {
    if v == 0 then -1 else v
  }

  function LastNumber(opts: seq<Opt>, names: set<OptKind>): Option<int> {
    match LastArg(opts, names)
    case None => None
    case Some(a) => ParseInt(a, 10)
  }

  /** The options once all of them were accepted. */
  function Settings(argv0: string, opts: seq<Opt>, args: seq<string>): Options {
    Options(
      [argv0] + Mentioned(opts) + args,
      ConfArgs(opts) + Passed(opts) + ["--masterlog"] + args,
      ArgsOf(opts, {Node}), ArgsOf(opts, {Group}),
      ArgsOf(opts, {Exclude}), ArgsOf(opts, {ExcludeGroup}),
      LastArg(opts, ManagerOptions), Given(opts, {Fix}),
      LastNumber(opts, NumProcOptions),
      match LastNumber(opts, SleepOptions) case None => None case Some(v) => Some(SleepSetting(v)),
      Given(opts, {Quiet}), Given(opts, {Verbose}), Given(opts, {Unix}),
      Given(opts, {Aggregate}))
  }

  /** `get_options()` given the program's arguments `argv`, the options and
      positional arguments `getopt` made of them, and the known package
      managers; a missing package name for `--install` or `--remove` is
      refused (see `ParseOptionsAsWritten`). */
  function ParseOptions(argv: seq<string>, opts: seq<Opt>, args: seq<string>, managers: set<string>): Outcome
    requires |argv| >= 1
  {
    if |argv| <= 1 || Given(opts, HelpOptions) then Exit(Usage)
    else match FirstFailure(opts, managers)
      case Some(f) => Exit(f)
      case None =>
        if Given(opts, InstallOptions) && args == [] then Exit(NoPackage)
        else if ActionCount(opts) == 0 then Exit(Usage)
        else if ActionCount(opts) > 1 then Exit(OnlyOne)
        else Parsed(Settings(argv[0], opts, args))
  }

  /** `get_options()` as written: the package check sits behind `args != None`,
      which the list `getopt` returns always passes, so it never fires. */
  function ParseOptionsAsWritten(argv: seq<string>, opts: seq<Opt>, args: seq<string>, managers: set<string>): Outcome
    requires |argv| >= 1
  {
    if |argv| <= 1 || Given(opts, HelpOptions) then Exit(Usage)
    else match FirstFailure(opts, managers)
      case Some(f) => Exit(f)
      case None =>
        if ActionCount(opts) == 0 then Exit(Usage)
        else if ActionCount(opts) > 1 then Exit(OnlyOne)
        else Parsed(Settings(argv[0], opts, args))
  }

  /** The two differ only on an install or remove without package names. */
  lemma AsWrittenDiffers(argv: seq<string>, opts: seq<Opt>, args: seq<string>, managers: set<string>)
    requires |argv| >= 1
    ensures ParseOptionsAsWritten(argv, opts, args, managers) != ParseOptions(argv, opts, args, managers) <==>
      |argv| > 1 && !Given(opts, HelpOptions) && FirstFailure(opts, managers) == None
      && Given(opts, InstallOptions) && args == []
  {
    if |argv| > 1 && !Given(opts, HelpOptions) && FirstFailure(opts, managers) == None
       && Given(opts, InstallOptions) && args == [] {
      assert ParseOptions(argv, opts, args, managers) == Exit(NoPackage);
    }
  }

  /** An install or remove option without package names, such as
      `dsh-pkg -i`, is accepted as written and refused as intended. */
  lemma InstallWithoutPackage(argv0: string, o: Opt)
    requires o.Kind() in InstallOptions
    ensures ParseOptionsAsWritten([argv0, o.name], [o], [], {}).Parsed?
    ensures ParseOptions([argv0, o.name], [o], [], {}) == Exit(NoPackage)
  {
    SingleInstall(o);
  }

  lemma SingleInstall(o: Opt)
    requires o.Kind() in InstallOptions
    ensures !Given([o], HelpOptions) && Given([o], InstallOptions)
    ensures ActionCount([o]) == 1 && FirstFailure([o], {}) == None
  {
    var opts := [o];
    assert opts[..0] == [] && opts[0] == o;
    assert !Given(opts, HelpOptions) by {
      forall k | 0 <= k < |opts| ensures opts[k].Kind() !in HelpOptions {
        assert opts[k] == o;
      }
    }
  }

  /** The options that install or remove packages are spelled exactly `-i`,
      `--install`, `-R` and `--remove`. */
  lemma InstallSpellings(o: Opt)
    ensures o.Kind() in InstallOptions <==> o.name in {"-i", "--install", "-R", "--remove"}
  {
    var name := o.name;
    SpellingShapes();
    if |name| > 2 && name[0] == '-' && name[1] == '-' {
      LongInstall(name[2..]);
      assert name == "--" + name[2..];
    } else if |name| == 2 && name[0] == '-' {
      assert name == ['-', name[1]];
    }
  }

  /** The four spellings as `KindOf` takes them apart. */
  lemma SpellingShapes()
    ensures "--install" == "--" + "install" && "--remove" == "--" + "remove"
    ensures "-i" == ['-', 'i'] && "-R" == ['-', 'R']
  {
  }

  /** Of the long words, only `install` and `remove` name such an option. */
  lemma LongInstall(w: string)
    ensures Lookup(LongSpellings, w) in InstallOptions <==> w == "install" || w == "remove"
  {
    if w == "install" {
      InstallWord();
    } else if w == "remove" {
      RemoveWord();
    } else {
      LongInstallOnly(w);
    }
  }

  lemma InstallWord()
    ensures Lookup(LongSpellings, "install") == Install
  {
    LookupFirst(LongSpellings, 6, "install");
  }

  lemma RemoveWord()
    ensures Lookup(LongSpellings, "remove") == Remove
  {
    LookupFirst(LongSpellings, 7, "remove");
  }

  lemma LongInstallOnly(w: string)
    ensures Lookup(LongSpellings, w) in InstallOptions ==> w == "install" || w == "remove"
  {
    LookupAt(LongSpellings, w);
    if Lookup(LongSpellings, w) in InstallOptions {
      var j :| 0 <= j < |LongSpellings| && LongSpellings[j] == (w, Lookup(LongSpellings, w));
      InstallNames();
    }
  }

  /** The install and remove entries are the seventh and eighth of the long
      spellings. */
  lemma InstallEntries()
    ensures forall j :: 0 <= j < |LongSpellings| && LongSpellings[j].1 in InstallOptions ==> j == 6 || j == 7
  {
  }

  /** The only long spellings that install or remove are `install` and
      `remove`. */
  lemma InstallNames()
    ensures forall j :: 0 <= j < |LongSpellings| && LongSpellings[j].1 in InstallOptions ==>
              LongSpellings[j].0 == "install" || LongSpellings[j].0 == "remove"
  {
    InstallEntries();
    assert LongSpellings[6] == ("install", Install) && LongSpellings[7] == ("remove", Remove);
  }

  /** The kind of the first entry for `name`. */
  lemma {:induction false} LookupFirst(table: seq<(string, OptKind)>, j: nat, name: string)
    requires j < |table| && table[j].0 == name && forall k :: 0 <= k < j ==> table[k].0 != name
    ensures Lookup(table, name) == table[j].1
  {
    if j > 0 {
      LookupFirst(table[1..], j - 1, name);
    }
  }

  /** A kind other than `Other` comes from an entry of the table for that
      name. */
  lemma {:induction false} LookupAt(table: seq<(string, OptKind)>, name: string)
    ensures Lookup(table, name) != Other ==> exists j :: 0 <= j < |table| && table[j] == (name, Lookup(table, name))
  {
    if table != [] && table[0].0 != name {
      LookupAt(table[1..], name);
      if Lookup(table, name) != Other {
        var j :| 0 <= j < |table[1..]| && table[1..][j] == (name, Lookup(table, name));
        assert table[j + 1] == table[1..][j];
      }
    }
  }

  // ---------------------------------------------------------------------------
  // options: what the outcome promises

  /** Exactly one action is accepted; none draws the usage text and more than
      one the list of actions. */
  lemma ActionRule(argv: seq<string>, opts: seq<Opt>, args: seq<string>, managers: set<string>)
    requires |argv| > 1 && !Given(opts, HelpOptions) && FirstFailure(opts, managers) == None
    requires !(Given(opts, InstallOptions) && args == [])
    ensures ParseOptions(argv, opts, args, managers).Parsed? <==> ActionCount(opts) == 1
    ensures ParseOptions(argv, opts, args, managers) == Exit(Usage) <==> ActionCount(opts) == 0
    ensures ParseOptions(argv, opts, args, managers) == Exit(OnlyOne) <==> ActionCount(opts) > 1
  {
  }

  lemma AcceptedNumbers(opts: seq<Opt>, managers: set<string>)
    requires FirstFailure(opts, managers) == None
    ensures var n := LastNumber(opts, NumProcOptions); n.Some? || !Given(opts, NumProcOptions)
    ensures var n := LastNumber(opts, NumProcOptions); n.Some? ==> n.value >= 1
    ensures var z := LastNumber(opts, SleepOptions); z.Some? || !Given(opts, SleepOptions)
    ensures var z := LastNumber(opts, SleepOptions); z.Some? ==> z.value >= 0
  {
    AcceptedNumProc(opts, managers);
    AcceptedSleep(opts, managers);
  }

  lemma {:induction false} AcceptedNumProc(opts: seq<Opt>, managers: set<string>)
    requires FirstFailure(opts, managers) == None
    ensures var n := LastNumber(opts, NumProcOptions); (n.Some? || !Given(opts, NumProcOptions)) && (n.Some? ==> n.value >= 1)
  {
    if opts != [] {
      var init := opts[..|opts| - 1];
      assert FirstFailure(init, managers) == None;
      AcceptedNumProc(init, managers);
    }
  }

  lemma {:induction false} AcceptedSleep(opts: seq<Opt>, managers: set<string>)
    requires FirstFailure(opts, managers) == None
    ensures var z := LastNumber(opts, SleepOptions); (z.Some? || !Given(opts, SleepOptions)) && (z.Some? ==> z.value >= 0)
  {
    if opts != [] {
      var init := opts[..|opts| - 1];
      assert FirstFailure(init, managers) == None;
      AcceptedSleep(init, managers);
    }
  }

  /** An accepted `-N` is at least 1; an accepted `-z` is positive, or -1
      for 0. */
  lemma AcceptedSettings(argv: seq<string>, opts: seq<Opt>, args: seq<string>, managers: set<string>)
    requires |argv| >= 1 && ParseOptions(argv, opts, args, managers).Parsed?
    ensures var o := ParseOptions(argv, opts, args, managers).options;
            (o.numProc.Some? <==> Given(opts, NumProcOptions)) && (o.numProc.Some? ==> o.numProc.value >= 1)
            && (o.sleepTime.Some? <==> Given(opts, SleepOptions)) && (o.sleepTime.Some? ==> o.sleepTime.value >= 1 || o.sleepTime.value == -1)
  {
    AcceptedNumbers(opts, managers);
  }

  /** An option the master keeps to itself may be dropped from the list
      without changing what the nodes are passed. */
  lemma {:induction false} PassedIgnores(opts: seq<Opt>, k: nat)
    requires k < |opts| && MasterOnly(opts[k].Kind())
    ensures Passed(opts) == Passed(opts[..k] + opts[k + 1..])
    decreases |opts|
  {
    var init, last := opts[..|opts| - 1], opts[|opts| - 1];
    assert opts == init + [last];
    PassedSnoc(init, last);
    if k == |opts| - 1 {
      assert PassedBy(last) == [];
      assert opts[..k] + opts[k + 1..] == init;
    } else {
      var rest := init[..k] + init[k + 1..];
      assert init[k] == opts[k];
      PassedIgnores(init, k);
      DropBeforeLast(opts, k);
      PassedSnoc(rest, last);
    }
  }

  lemma DropBeforeLast(opts: seq<Opt>, k: nat)
    requires k < |opts| - 1
    ensures var init := opts[..|opts| - 1];
            opts[..k] + opts[k + 1..] == (init[..k] + init[k + 1..]) + [opts[|opts| - 1]]
  {
  }

  lemma PassedSnoc(opts: seq<Opt>, o: Opt)
    ensures Passed(opts + [o]) == Passed(opts) + PassedBy(o)
  {
    assert (opts + [o])[..|opts|] == opts;
  }

  /** Every other option reaches the nodes, with its argument. */
  lemma {:induction false} PassedKeeps(opts: seq<Opt>, k: nat)
    requires k < |opts| && !MasterOnly(opts[k].Kind())
    ensures forall x :: x in NonEmpty(opts[k].name) + NonEmpty(opts[k].arg) ==> x in Passed(opts)
    decreases |opts|
  {
    var init := opts[..|opts| - 1];
    if k < |opts| - 1 {
      PassedKeeps(init, k);
      assert init[k] == opts[k];
    }
  }

  // ---------------------------------------------------------------------------
  // the option loops

  /** The two loops of `get_options()` over the options: the first handles
      `-h` and `-c`; the second counts the actions, checks the arguments of
      `-m`, `-N` and `-z`, and builds the argument lists for the master and
      for the nodes. Reading the configuration between them is left out. */
  method GetOptions(argv: seq<string>, opts: seq<Opt>, args: seq<string>, managers: set<string>) returns (r: Outcome)
    requires |argv| >= 1
    ensures r == ParseOptions(argv, opts, args, managers)
  {
    if |argv| <= 1 {
      return Exit(Usage);
    }
    var passArgs: seq<string> := [];
    var i := 0;
    while i < |opts|
      invariant i <= |opts|
      invariant !Given(opts[..i], HelpOptions) && passArgs == ConfArgs(opts[..i])
    {
      var o := opts[i];
      assert opts[..i + 1] == opts[..i] + [o];
      if o.Kind() in HelpOptions {
        assert Given(opts, HelpOptions) by {
        assert opts[i].Kind() in HelpOptions;
        }
        return Exit(Usage);
      }
      if o.Kind() in ConfOptions {
        passArgs := passArgs + [o.name, o.arg];
      }
      NotGivenSnoc(opts[..i], o, HelpOptions);
      i := i + 1;
    }
    assert opts[..i] == opts;
    var failure, g := ClassifyOptions(argv[0], opts, managers, passArgs);
    if failure.Some? {
      return Exit(failure.value);
    }
    var o, action, needs := g.options, g.action, g.needsPackageList;
    o := o.(masterOpts := o.masterOpts + args, passArgs := o.passArgs + ["--masterlog"] + args);
    if needs && args == [] {
      return Exit(NoPackage);
    }
    if action == 0 {
      return Exit(Usage);
    }
    if action > 1 {
      return Exit(OnlyOne);
    }
    return Parsed(o);
  }

  lemma NotGivenSnoc(opts: seq<Opt>, o: Opt, names: set<OptKind>)
    requires !Given(opts, names) && o.Kind() !in names
    ensures !Given(opts + [o], names)
  {
    forall k | 0 <= k < |opts| + 1
    ensures (opts + [o])[k].Kind() !in names
    {
      if k < |opts| {
        assert (opts + [o])[k] == opts[k];
      }
    }
  }

  lemma GivenSnoc(opts: seq<Opt>, o: Opt, names: set<OptKind>)
    ensures Given(opts + [o], names) <==> Given(opts, names) || o.Kind() in names
  {
    if Given(opts, names) {
      var k :| 0 <= k < |opts| && opts[k].Kind() in names;
      assert (opts + [o])[k] == opts[k];
    }
    if o.Kind() in names {
      assert (opts + [o])[|opts|] == o;
    }
    if Given(opts + [o], names) && o.Kind() !in names {
      var k :| 0 <= k < |opts| + 1 && (opts + [o])[k].Kind() in names;
      assert k < |opts| && opts[k] == (opts + [o])[k];
    }
  }

  /** What the second loop has gathered: the settings and argument lists,
      the number of actions and whether a package name is needed. */
  datatype Gathering = Gathering(options: Options, action: nat, needsPackageList: bool)

  /** The gathering after the accepted options `done`, the positional
      arguments not yet added. */
  function Gathered(argv0: string, confArgs: seq<string>, done: seq<Opt>): Gathering {
    Gathering(
      Options(
        [argv0] + Mentioned(done), confArgs + Passed(done),
        ArgsOf(done, {Node}), ArgsOf(done, {Group}),
        ArgsOf(done, {Exclude}), ArgsOf(done, {ExcludeGroup}),
        LastArg(done, ManagerOptions), Given(done, {Fix}),
        LastNumber(done, NumProcOptions),
        match LastNumber(done, SleepOptions) case None => None case Some(v) => Some(SleepSetting(v)),
        Given(done, {Quiet}), Given(done, {Verbose}), Given(done, {Unix}),
        Given(done, {Aggregate})),
      ActionCount(done), Given(done, InstallOptions))
  }

  /** One more accepted option `x` of kind `k`, case by case as the second
      loop tells the options apart: its name and argument for the master,
      then the node selection or setting it makes, or else what it passes
      to the nodes. */
  function Grow(g: Gathering, x: Opt, k: OptKind): Gathering {
    var o := g.options.(masterOpts := g.options.masterOpts + NonEmpty(x.name) + NonEmpty(x.arg));
    if k == Help || k == Conf then g.(options := o)
    else if k == Node then g.(options := o.(nodes := o.nodes + [x.arg]))
    else if k == Group then g.(options := o.(groups := o.groups + [x.arg]))
    else if k == Exclude then g.(options := o.(excludeNodes := o.excludeNodes + [x.arg]))
    else if k == ExcludeGroup then g.(options := o.(excludeGroups := o.excludeGroups + [x.arg]))
    else if k == NumProc then g.(options := o.(numProc := ParseInt(x.arg, 10)))
    else if k == Zzz then
      g.(options := o.(sleepTime := match ParseInt(x.arg, 10) case None => None case Some(v) => Some(SleepSetting(v))))
    else if k == Aggregate then g.(options := o.(aggregate := true))
    else PassedOn(g.(options := o), x, k)
  }

  /** An option passed on to the nodes: its name and argument, the action
      it counts as and the setting it makes. */
  function PassedOn(g: Gathering, x: Opt, k: OptKind): Gathering {
    var o := g.options;
    Gathering(
      o.(passArgs := o.passArgs + NonEmpty(x.name) + NonEmpty(x.arg),
         manager := if k == Manager then Some(x.arg) else o.manager,
         fix := o.fix || k == Fix, quiet := o.quiet || k == Quiet,
         verbose := o.verbose || k == Verbose, unix := o.unix || k == Unix),
      if IsAction(k) then g.action + 1 else g.action,
      g.needsPackageList || k == Install || k == Remove)
  }

  /** `Grow` part by part: the name and argument for the master, what is
      passed to the nodes, the node selection, the settings, and whether
      the option is an action. `Grow` follows the branches of the loop;
      this field-wise form is what `Gathered` is proved against, and
      `GrowStep` shows the two agree. */
  function Step(g: Gathering, x: Opt, k: OptKind): Gathering {
    var o := g.options;
    Gathering(
      Options(
        o.masterOpts + NonEmpty(x.name) + NonEmpty(x.arg),
        if MasterOnly(k) then o.passArgs else o.passArgs + NonEmpty(x.name) + NonEmpty(x.arg),
        if k == Node then o.nodes + [x.arg] else o.nodes,
        if k == Group then o.groups + [x.arg] else o.groups,
        if k == Exclude then o.excludeNodes + [x.arg] else o.excludeNodes,
        if k == ExcludeGroup then o.excludeGroups + [x.arg] else o.excludeGroups,
        if k == Manager then Some(x.arg) else o.manager,
        o.fix || k == Fix,
        if k == NumProc then ParseInt(x.arg, 10) else o.numProc,
        if k == Zzz then
          match ParseInt(x.arg, 10) case None => None case Some(v) => Some(SleepSetting(v))
        else o.sleepTime,
        o.quiet || k == Quiet, o.verbose || k == Verbose, o.unix || k == Unix, o.aggregate || k == Aggregate),
      if IsAction(k) then g.action + 1 else g.action,
      g.needsPackageList || k == Install || k == Remove)
  }

  lemma GrowStep(g: Gathering, x: Opt, k: OptKind)
    ensures Grow(g, x, k) == Step(g, x, k)
  {
    if MasterOnly(k) {
      GrowStepMaster(g, x, k);
    } else {
      GrowStepPassed(g, x, k);
    }
  }

  lemma GrowStepMaster(g: Gathering, x: Opt, k: OptKind)
    requires MasterOnly(k)
    ensures Grow(g, x, k) == Step(g, x, k)
  {
  }

  lemma GrowStepPassed(g: Gathering, x: Opt, k: OptKind)
    requires !MasterOnly(k)
    ensures Grow(g, x, k) == Step(g, x, k)
  {
    var o := g.options.(masterOpts := g.options.masterOpts + NonEmpty(x.name) + NonEmpty(x.arg));
    assert Grow(g, x, k) == PassedOn(g.(options := o), x, k);
    assert k != Node && k != Group && k != Exclude && k != ExcludeGroup && k != NumProc && k != Zzz && k != Aggregate;
  }

  lemma GatheredSnoc(argv0: string, confArgs: seq<string>, done: seq<Opt>, x: Opt)
    ensures Gathered(argv0, confArgs, done + [x]) == Step(Gathered(argv0, confArgs, done), x, x.Kind())
  {
    SnocNamed(argv0, confArgs, done, x);
    SnocSelection(argv0, confArgs, done, x);
    SnocSettings(argv0, confArgs, done, x);
    SnocFlags(argv0, confArgs, done, x);
  }

  lemma SnocNamed(argv0: string, confArgs: seq<string>, done: seq<Opt>, x: Opt)
    ensures var h, g := Gathered(argv0, confArgs, done + [x]).options, Step(Gathered(argv0, confArgs, done), x, x.Kind()).options;
            h.masterOpts == g.masterOpts && h.passArgs == g.passArgs
  {
    var all := done + [x];
    assert all[..|done|] == done && all[|done|] == x;
    assert Mentioned(all) == Mentioned(done) + NonEmpty(x.name) + NonEmpty(x.arg);
    Assoc([argv0], Mentioned(done) + NonEmpty(x.name), NonEmpty(x.arg));
    Assoc([argv0], Mentioned(done), NonEmpty(x.name));
    assert Passed(all) == Passed(done) + PassedBy(x);
    Assoc(confArgs, Passed(done), PassedBy(x));
    if !MasterOnly(x.Kind()) {
      Assoc(confArgs + Passed(done), NonEmpty(x.name), NonEmpty(x.arg));
    }
  }

  lemma SnocSelection(argv0: string, confArgs: seq<string>, done: seq<Opt>, x: Opt)
    ensures var h, g := Gathered(argv0, confArgs, done + [x]).options, Step(Gathered(argv0, confArgs, done), x, x.Kind()).options;
            h.nodes == g.nodes && h.groups == g.groups
            && h.excludeNodes == g.excludeNodes && h.excludeGroups == g.excludeGroups
  {
    ArgsOfSnoc(done, x, {Node});
    ArgsOfSnoc(done, x, {Group});
    ArgsOfSnoc(done, x, {Exclude});
    ArgsOfSnoc(done, x, {ExcludeGroup});
  }

  lemma SnocSettings(argv0: string, confArgs: seq<string>, done: seq<Opt>, x: Opt)
    ensures var h, g := Gathered(argv0, confArgs, done + [x]).options, Step(Gathered(argv0, confArgs, done), x, x.Kind()).options;
            h.manager == g.manager && h.numProc == g.numProc && h.sleepTime == g.sleepTime
  {
    LastArgSnoc(done, x, ManagerOptions);
    LastArgSnoc(done, x, NumProcOptions);
    LastArgSnoc(done, x, SleepOptions);
  }

  lemma SnocFlags(argv0: string, confArgs: seq<string>, done: seq<Opt>, x: Opt)
    ensures var h, g := Gathered(argv0, confArgs, done + [x]).options, Step(Gathered(argv0, confArgs, done), x, x.Kind()).options;
            h.fix == g.fix && h.quiet == g.quiet && h.verbose == g.verbose
            && h.unix == g.unix && h.aggregate == g.aggregate
    ensures Gathered(argv0, confArgs, done + [x]).action == Step(Gathered(argv0, confArgs, done), x, x.Kind()).action
    ensures Gathered(argv0, confArgs, done + [x]).needsPackageList
            == Step(Gathered(argv0, confArgs, done), x, x.Kind()).needsPackageList
  {
    assert (done + [x])[..|done|] == done;
    GivenSnoc(done, x, InstallOptions);
    GivenSnoc(done, x, {Fix});
    GivenSnoc(done, x, {Quiet});
    GivenSnoc(done, x, {Verbose});
    GivenSnoc(done, x, {Unix});
    GivenSnoc(done, x, {Aggregate});
  }

  lemma ArgsOfSnoc(done: seq<Opt>, x: Opt, names: set<OptKind>)
    ensures ArgsOf(done + [x], names) == ArgsOf(done, names) + (if x.Kind() in names then [x.arg] else [])
  {
    assert (done + [x])[..|done|] == done;
  }

  lemma LastArgSnoc(done: seq<Opt>, x: Opt, names: set<OptKind>)
    ensures LastArg(done + [x], names) == if x.Kind() in names then Some(x.arg) else LastArg(done, names)
  {
    assert (done + [x])[..|done|] == done;
  }

  /** The second loop over the options: the first refused argument, or what
      was gathered before the positional arguments are added. */
  method ClassifyOptions(argv0: string, opts: seq<Opt>, managers: set<string>, confArgs: seq<string>)
    returns (failure: Option<Failure>, g: Gathering)
    ensures failure == FirstFailure(opts, managers)
    ensures failure.None? ==> g == Gathered(argv0, confArgs, opts)
  {
    g := Gathering(Settings(argv0, [], []).(masterOpts := [argv0], passArgs := confArgs), 0, false);
    var i := 0;
    while i < |opts|
      invariant i <= |opts| && FirstFailure(opts[..i], managers) == None
      invariant g == Gathered(argv0, confArgs, opts[..i])
    {
      assert opts[..i + 1] == opts[..i] + [opts[i]];
      var check := Check(opts[i], managers);
      if check.Some? {
        FailureStays(opts, i + 1, managers);
        return check, g;
      }
      GatheredSnoc(argv0, confArgs, opts[..i], opts[i]);
      GrowStep(g, opts[i], opts[i].Kind());
      g := ClassifyOne(opts[i], opts[i].Kind(), g);
      i := i + 1;
    }
    assert opts[..i] == opts;
    failure := None;
  }

  /** The body of the second loop for one accepted option, as statements;
      `Grow` is the function it computes. The options that end in
      `continue` there have a case of their own here; the others share the
      last case, which passes them on to the nodes. */
  method ClassifyOne(x: Opt, kind: OptKind, g: Gathering) returns (r: Gathering)
    ensures r == Grow(g, x, kind)
  {
    var masterOpts := AppendGiven(g.options.masterOpts, x);
    var o := g.options.(masterOpts := masterOpts);
    if kind == Help || kind == Conf {
        r := g.(options := o);
    } else if kind == Node {
        r := g.(options := o.(nodes := o.nodes + [x.arg]));
    } else if kind == Group {
        r := g.(options := o.(groups := o.groups + [x.arg]));
    } else if kind == Exclude {
        r := g.(options := o.(excludeNodes := o.excludeNodes + [x.arg]));
    } else if kind == ExcludeGroup {
        r := g.(options := o.(excludeGroups := o.excludeGroups + [x.arg]));
    } else if kind == NumProc {
        r := g.(options := o.(numProc := ParseInt(x.arg, 10)));
    } else if kind == Zzz {
        var sleep := match ParseInt(x.arg, 10) case None => None case Some(v) => Some(SleepSetting(v));
        r := g.(options := o.(sleepTime := sleep));
    } else if kind == Aggregate {
        r := g.(options := o.(aggregate := true));
    } else {
        r := PassOn(x, kind, g.(options := o));
    }
  }

  /** Appends the option name and its argument to `s`, each only when it
      is nonempty. */
  method AppendGiven(s: seq<string>, x: Opt) returns (r: seq<string>)
    ensures r == s + NonEmpty(x.name) + NonEmpty(x.arg)
  {
    r := s;
    if x.name != [] {
      r := r + [x.name];
    }
    if x.arg != [] {
      r := r + [x.arg];
    }
  }

  method CountAction(kind: OptKind, action: nat, needsPackageList: bool) returns (action': nat, needsPackageList': bool)
    ensures action' == if IsAction(kind) then action + 1 else action
    ensures needsPackageList' == (needsPackageList || kind == Install || kind == Remove)
  {
    action', needsPackageList' := action, needsPackageList;
    if kind == Install {
      action', needsPackageList' := action' + 1, true;
    }
    if kind == Remove {
      action', needsPackageList' := action' + 1, true;
    }
    if kind == List {
      action' := action' + 1;
    }
    if kind == Update {
      action' := action' + 1;
    }
    if kind == Upgrade {
      action' := action' + 1;
    }
    if kind == Clean {
      action' := action' + 1;
    }
  }

  /** The statements of the second loop for an option passed on to the
      nodes; `PassedOn` is the function they compute. */
  method PassOn(x: Opt, kind: OptKind, g: Gathering) returns (r: Gathering)
    requires !MasterOnly(kind)
    ensures r == PassedOn(g, x, kind)
  {
    var o := g.options;
    var action, needsPackageList := CountAction(kind, g.action, g.needsPackageList);
    var manager, fix, quiet, verbose, unix := o.manager, o.fix, o.quiet, o.verbose, o.unix;
    if kind == Manager {
      manager := Some(x.arg);
    }
    if kind == Fix {
      fix := true;
    }
    if kind == Quiet {
      quiet := true;
    }
    if kind == Verbose {
      verbose := true;
    }
    if kind == Unix {
      unix := true;
    }
    var passArgs := AppendGiven(o.passArgs, x);
    r := Gathering(o.(passArgs := passArgs, manager := manager, fix := fix, quiet := quiet, verbose := verbose, unix := unix),
                   action, needsPackageList);
  }


  lemma {:induction false} FailureStays(opts: seq<Opt>, n: nat, managers: set<string>)
    requires n <= |opts| && FirstFailure(opts[..n], managers).Some?
    ensures FirstFailure(opts, managers) == FirstFailure(opts[..n], managers)
    decreases |opts| - n
  {
    if n < |opts| {
      assert opts[..n + 1][..n] == opts[..n];
      FailureStays(opts, n + 1, managers);
    } else {
      assert opts[..n] == opts;
    }
  }
}
