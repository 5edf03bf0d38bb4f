/** What `read_config_file` does with the statements of a configuration
    file: each keyword's checks and the setting or table entry it writes, and
    the number of errors it counts. The directories and files the checks
    look at, and the text of the files that can be read, are inputs
    (`Disk`). */
module ConfigRead {
  import opened Text
  import opened ConfigTables
  import opened ConfigLines
  import opened Seqs

  /** The settings other than the group and node tables. `commands` holds the
      `*_cmd` settings, by keyword. */
  datatype Settings = Settings(
    masterDir: Option<string>, masterLen: int,
    overlayDirs: seq<string>, deleteDirs: seq<string>, tasksDirs: seq<string>, scriptDir: Option<string>,
    symlinkMode: int, eraseSaved: bool, ignoreDotfiles: bool, ignoreDotdirs: bool,
    ignoreFiles: seq<string>, onUpdate: map<string, string>, alwaysRun: seq<string>,
    commands: map<string, string>, logfile: string, numProc: int)

  /** The configuration a file's statements act on. */
  datatype State = State(nodes: Nodes, groupDefs: GroupDefs, interfaces: map<string, string>,
                         ignoreGroups: seq<string>, settings: Settings)

  /** The file system as the reader sees it: the lines of each readable file,
      and the results of `os.path.isdir` and `os.path.isfile`. */
  datatype Disk = Disk(text: map<string, seq<string>>, isDir: string -> bool, isFile: string -> bool)

  predicate IsIgnoreKeyword(k: string) {
    k == "ignore" || k == "ignore_file" || k == "ignore_files" || k == "ignore_dir" || k == "ignore_dirs"
  }

  predicate IsCommandKeyword(k: string) {
    k == "diff_cmd" || k == "ping_cmd" || k == "ssh_cmd" || k == "scp_cmd" || k == "rsync_cmd" || k == "synctool_cmd"
  }

  predicate IsBoolKeyword(k: string) {
    k == "erase_saved" || k == "ignore_dotfiles" || k == "ignore_dotdirs"
  }

  predicate IsDirListKeyword(k: string) {
    k == "overlaydir" || k == "deletedir" || k == "tasksdir"
  }

  predicate IsDirKeyword(k: string) {
    k == "masterdir" || IsDirListKeyword(k) || k == "scriptdir"
  }

  predicate IsValueKeyword(k: string) {
    k == "symlink_mode" || IsBoolKeyword(k) || IsIgnoreKeyword(k)
  }

  predicate IsScriptKeyword(k: string) {
    k == "on_update" || k == "always_run"
  }

  predicate IsSettingKeyword(k: string) {
    IsDirKeyword(k) || IsValueKeyword(k) || IsScriptKeyword(k) || IsCommandKeyword(k) || k == "logfile" || k == "num_proc"
  }

  predicate IsTableKeyword(k: string) {
    k == "group" || k == "host" || k == "node" || k == "ignore_host" || k == "ignore_node" || k == "ignore_group"
  }

  /** The script an `on_update` or `always_run` command names: a relative
      name is looked up under `scripts` of the master directory, or of the
      current directory when none is set. */
  function ScriptPath(masterDir: Option<string>, cmd: string): (r: string)
    ensures StartsWith(cmd, "/") ==> r == cmd
  {
    if !StartsWith(cmd, "/") then
      var master := match masterDir case Some(m) => m case None => ".";
      JoinPath(JoinPath(master, "scripts"), cmd)
    else cmd
  }

  /** Sets a boolean setting. */
  function SetFlag(s: Settings, k: string, b: bool): Settings
    requires IsBoolKeyword(k)
  {
    if k == "erase_saved" then s.(eraseSaved := b)
    else if k == "ignore_dotfiles" then s.(ignoreDotfiles := b)
    else s.(ignoreDotdirs := b)
  }

  function Flag(s: Settings, k: string): bool
    requires IsBoolKeyword(k)
  {
    if k == "erase_saved" then s.eraseSaved else if k == "ignore_dotfiles" then s.ignoreDotfiles else s.ignoreDotdirs
  }

  /** One directory-list keyword: the directory must be new and exist. */
  function AddDir(dirs: seq<string>, d: string, disk: Disk): Option<seq<string>> {
    if d in dirs || !disk.isDir(d) then None else Some(dirs + [d])
  }

  /** The directory list a directory-list keyword appends to. */
  function DirList(s: Settings, k: string): seq<string> {
    if k == "overlaydir" then s.overlayDirs else if k == "deletedir" then s.deleteDirs else s.tasksDirs
  }

  function WithDirList(s: Settings, k: string, d: seq<string>): Settings {
    if k == "overlaydir" then s.(overlayDirs := d) else if k == "deletedir" then s.(deleteDirs := d) else s.(tasksDirs := d)
  }

  /** A statement whose keyword sets something other than the tables: the new
      settings and the number of errors (0 or 1). The keywords are handled in
      four groups, in the order the source tests them. */
  function SettingDirective(s: Settings, keyword: string, args: seq<string>, disk: Disk): (r: (Settings, nat))
    requires |args| >= 1 && IsSettingKeyword(keyword)
    ensures r.1 <= 1 && (r.1 == 1 ==> r.0 == s)
  {
    if IsDirKeyword(keyword) then DirSetting(s, keyword, args, disk)
    else if IsValueKeyword(keyword) then ValueSetting(s, keyword, args)
    else if IsScriptKeyword(keyword) then ScriptSetting(s, keyword, args, disk)
    else CommandSetting(s, keyword, args, disk)
  }

  /** `masterdir`, `overlaydir`, `deletedir`, `tasksdir` and `scriptdir`. */
  function DirSetting(s: Settings, keyword: string, args: seq<string>, disk: Disk): (r: (Settings, nat))
    requires |args| >= 1 && IsDirKeyword(keyword)
    ensures r.1 <= 1 && (r.1 == 1 ==> r.0 == s)
  {
    var v := args[0];
    if keyword == "masterdir" then
      if s.masterDir.Some? || !disk.isDir(v) then (s, 1) else (s.(masterDir := Some(v), masterLen := |v| + 1), 0)
    else if keyword == "overlaydir" then
      match AddDir(s.overlayDirs, v, disk) case None => (s, 1) case Some(d) => (s.(overlayDirs := d), 0)
    else if keyword == "deletedir" then
      match AddDir(s.deleteDirs, v, disk) case None => (s, 1) case Some(d) => (s.(deleteDirs := d), 0)
    else if keyword == "tasksdir" then
      match AddDir(s.tasksDirs, v, disk) case None => (s, 1) case Some(d) => (s.(tasksDirs := d), 0)
    else
      if s.scriptDir.Some? || !disk.isDir(v) then (s, 1) else (s.(scriptDir := Some(v)), 0)
  }

  /** `symlink_mode`, the boolean settings and the `ignore` keywords. */
  function ValueSetting(s: Settings, keyword: string, args: seq<string>): (r: (Settings, nat))
    requires |args| >= 1 && IsValueKeyword(keyword)
    ensures r.1 <= 1 && (r.1 == 1 ==> r.0 == s)
  {
    var v := args[0];
    if keyword == "symlink_mode" then
      match ParseInt(v, 8) case None => (s, 1) case Some(m) => (s.(symlinkMode := m), 0)
    else if IsBoolKeyword(keyword) then
      match ParseBool(v) case None => (s, 1) case Some(b) => (SetFlag(s, keyword, b), 0)
    else
      (s.(ignoreFiles := s.ignoreFiles + args), 0)
  }

  /** `on_update` and `always_run`: the script the command starts must exist. */
  function ScriptSetting(s: Settings, keyword: string, args: seq<string>, disk: Disk): (r: (Settings, nat))
    requires |args| >= 1 && IsScriptKeyword(keyword)
    ensures r.1 <= 1 && (r.1 == 1 ==> r.0 == s)
  {
    var v := args[0];
    if keyword == "on_update" then
      if |args| < 2 then (s, 1)
      else if !disk.isFile(ScriptPath(s.masterDir, args[1])) then (s, 1)
      else (s.(onUpdate := s.onUpdate[v := JoinWords(args[1..])]), 0)
    else
      var cmd := JoinWords(args);
      if cmd in s.alwaysRun || !disk.isFile(ScriptPath(s.masterDir, v)) then (s, 1)
      else (s.(alwaysRun := s.alwaysRun + [cmd]), 0)
  }

  /** The `*_cmd` keywords, `logfile` and `num_proc`. */
  function CommandSetting(s: Settings, keyword: string, args: seq<string>, disk: Disk): (r: (Settings, nat))
    requires |args| >= 1 && (IsCommandKeyword(keyword) || keyword == "logfile" || keyword == "num_proc")
    ensures r.1 <= 1 && (r.1 == 1 ==> r.0 == s)
  {
    var v := args[0];
    if IsCommandKeyword(keyword) then
      if !disk.isFile(v) then (s, 1) else (s.(commands := s.commands[keyword := JoinWords(args)]), 0)
    else if keyword == "logfile" then
      (s.(logfile := JoinWords(args)), 0)
    else
      match ParseNumProc(v) case None => (s, 1) case Some(n) => (s.(numProc := n), 0)
  }

  /** The `ignore_group` loop: every name not yet a group becomes one without
      members. */
  function AddNames(defs: GroupDefs, names: seq<string>): GroupDefs {
    if names == [] then defs
    else
      var d := AddNames(defs, names[..|names| - 1]);
      var x := names[|names| - 1];
      if x in d then d else d[x := None]
  }

  lemma {:induction false} AddNamesAddsUnknown(defs: GroupDefs, names: seq<string>)
    ensures AddsUnknown(defs, names, AddNames(defs, names))
  {
    if names != [] {
      var init := names[..|names| - 1];
      AddNamesAddsUnknown(defs, init);
      assert names == init + [names[|names| - 1]];
    }
  }

  /** A statement whose keyword changes the group and node tables. */
  function TableDirective(st: State, keyword: string, args: seq<string>): (r: (State, nat))
    requires |args| >= 1 && IsTableKeyword(keyword)
    ensures r.1 <= 1 && r.0.settings == st.settings
  {
    if keyword == "group" then
      var group := args[0];
      if |args| < 2 || group in st.groupDefs || group in st.nodes then (st, 1)
      else
        var (defs, members) := Expand(st.groupDefs, st.nodes, args[1..]);
        match members
        case None => (st.(groupDefs := defs), 1)
        case Some(m) => (st.(groupDefs := defs[group := Some(m)]), 0)
    else if keyword == "host" || keyword == "node" then
      var node := args[0];
      if node in st.nodes || node in st.groupDefs then (st, 1)
      else
        var (iface, groups) := SplitInterface(args[1..]);
        if iface.Some? && node in st.interfaces then (st, 1)
        else
          var interfaces := if iface.Some? then st.interfaces[node := iface.value] else st.interfaces;
          var (defs, members) := Expand(st.groupDefs, st.nodes, groups);
          match members
          case None => (st.(interfaces := interfaces, groupDefs := defs), 1)
          case Some(m) => (st.(interfaces := interfaces, groupDefs := defs, nodes := st.nodes[node := m]), 0)
    else if keyword == "ignore_host" || keyword == "ignore_node" then
      (st.(ignoreGroups := st.ignoreGroups + [args[0]]), 0)
    else
      (st.(ignoreGroups := st.ignoreGroups + args, groupDefs := AddNames(st.groupDefs, args)), 0)
  }

  /** A statement of at least two tokens; `fuel` bounds the depth of nested
      `include` statements. */
  function Directive(st: State, arr: seq<string>, disk: Disk, fuel: nat): (State, nat)
    requires |arr| >= 2
    decreases fuel, 0, 0
  {
    var keyword, args := Lower(arr[0]), arr[1..];
    if keyword == "include" then
      if fuel == 0 then (st, 1) else ReadFile(st, args[0], disk, fuel - 1)
    else if IsSettingKeyword(keyword) then
      var (s, e) := SettingDirective(st.settings, keyword, args, disk);
      (st.(settings := s), e)
    else if IsTableKeyword(keyword) then TableDirective(st, keyword, args)
    else (st, 1)
  }

  /** One statement: fewer than two tokens is a syntax error. */
  function Exec(st: State, stmt: Stmt, disk: Disk, fuel: nat): (State, nat)
    decreases fuel, 0, 1
  {
    if |stmt.tokens| <= 1 then (st, 1) else Directive(st, stmt.tokens, disk, fuel)
  }

  /** The statements in order, with the errors added up. */
  function RunStmts(st: State, stmts: seq<Stmt>, disk: Disk, fuel: nat): (State, nat)
    decreases fuel, 1, |stmts|
  {
    if stmts == [] then (st, 0)
    else
      var (s1, e1) := RunStmts(st, stmts[..|stmts| - 1], disk, fuel);
      var (s2, e2) := Exec(s1, stmts[|stmts| - 1], disk, fuel);
      (s2, e1 + e2)
  }

  /** `read_config_file(path)`: a file that cannot be opened is one error. */
  function ReadFile(st: State, path: string, disk: Disk, fuel: nat): (State, nat)
    decreases fuel, 2, 0
  {
    if path !in disk.text then (st, 1) else RunStmts(st, Statements(disk.text[path]), disk, fuel)
  }

  // ---------------------------------------------------------------------------
  // properties of single statements

  /** Keywords are compared without regard to case. */
  lemma KeywordCaseInsensitive(st: State, k1: string, k2: string, rest: seq<string>, disk: Disk, fuel: nat)
    requires Lower(k1) == Lower(k2) && |rest| >= 1
    ensures Directive(st, [k1] + rest, disk, fuel) == Directive(st, [k2] + rest, disk, fuel)
  {
    assert ([k1] + rest)[1..] == rest && ([k2] + rest)[1..] == rest;
  }

  /** A boolean setting takes exactly `1`, `on`, `yes` as true and `0`, `off`,
      `no` as false; any other value is one error and changes nothing. */
  lemma BoolSetting(st: State, arr: seq<string>, disk: Disk, fuel: nat)
    requires |arr| >= 2 && IsBoolKeyword(Lower(arr[0]))
    ensures var (st', e) := Directive(st, arr, disk, fuel);
            var k := Lower(arr[0]);
            (arr[1] == "1" || arr[1] == "on" || arr[1] == "yes" ==>
               e == 0 && st' == st.(settings := SetFlag(st.settings, k, true)) && Flag(st'.settings, k))
            && (arr[1] == "0" || arr[1] == "off" || arr[1] == "no" ==>
               e == 0 && st' == st.(settings := SetFlag(st.settings, k, false)) && !Flag(st'.settings, k))
            && (ParseBool(arr[1]).None? ==> e == 1 && st' == st)
  {
  }

  /** `num_proc` takes an integer of at least 1; anything else is one error
      and changes nothing. */
  lemma NumProcSetting(st: State, arr: seq<string>, disk: Disk, fuel: nat)
    requires |arr| >= 2 && Lower(arr[0]) == "num_proc"
    ensures var (st', e) := Directive(st, arr, disk, fuel);
            (e == 0 ==> st'.settings.numProc >= 1 && ParseInt(arr[1], 10) == Some(st'.settings.numProc))
            && (e == 0 <==> ParseInt(arr[1], 10).Some? && ParseInt(arr[1], 10).value >= 1)
            && (e == 1 ==> st' == st)
  {
    LaterKeywordGroups();
  }

  /** A setting keyword in any case is handled as the setting statement, and
      only the settings change. */
  lemma DirectiveSetting(st: State, arr: seq<string>, disk: Disk, fuel: nat)
    requires |arr| >= 2 && IsSettingKeyword(Lower(arr[0]))
    ensures var (s, e) := SettingDirective(st.settings, Lower(arr[0]), arr[1..], disk);
            Directive(st, arr, disk, fuel) == (st.(settings := s), e)
  {
  }

  /** `masterdir` is set once, to an existing directory, and `MASTER_LEN`
      becomes its length plus one; otherwise one error and nothing changes. */
  lemma MasterDirSetting(s: Settings, args: seq<string>, disk: Disk)
    requires |args| >= 1
    ensures var (s', e) := SettingDirective(s, "masterdir", args, disk);
            (e == 0 <==> s.masterDir.None? && disk.isDir(args[0]))
            && (e == 0 ==> s' == s.(masterDir := Some(args[0]), masterLen := |args[0]| + 1))
            && (e != 0 ==> e == 1 && s' == s)
  {
  }

  /** `scriptdir` is set once, to an existing directory. */
  lemma ScriptDirSetting(s: Settings, args: seq<string>, disk: Disk)
    requires |args| >= 1
    ensures var (s', e) := SettingDirective(s, "scriptdir", args, disk);
            (e == 0 <==> s.scriptDir.None? && disk.isDir(args[0]))
            && (e == 0 ==> s' == s.(scriptDir := Some(args[0])))
            && (e != 0 ==> e == 1 && s' == s)
  {
  }

  /** `overlaydir`, `deletedir` and `tasksdir` append a directory that exists
      and is not in their list yet; anything else is one error. */
  lemma DirListSetting(s: Settings, keyword: string, args: seq<string>, disk: Disk)
    requires |args| >= 1 && IsDirListKeyword(keyword)
    ensures var (s', e) := SettingDirective(s, keyword, args, disk);
            (e == 0 <==> args[0] !in DirList(s, keyword) && disk.isDir(args[0]))
            && (e == 0 ==> s' == WithDirList(s, keyword, DirList(s, keyword) + [args[0]])
                           && DirList(s', keyword) == DirList(s, keyword) + [args[0]])
            && (e != 0 ==> e == 1 && s' == s)
  {
  }

  /** `symlink_mode` is read as an octal number. */
  lemma SymlinkModeSetting(s: Settings, args: seq<string>, disk: Disk)
    requires |args| >= 1
    ensures var (s', e) := SettingDirective(s, "symlink_mode", args, disk);
            (e == 0 <==> ParseInt(args[0], 8).Some?)
            && (e == 0 ==> s' == s.(symlinkMode := ParseInt(args[0], 8).value))
            && (e != 0 ==> e == 1 && s' == s)
  {
  }

  /** The `ignore` keywords extend the list of ignored names by all their
      arguments. */
  lemma IgnoreSetting(s: Settings, keyword: string, args: seq<string>, disk: Disk)
    requires |args| >= 1 && IsIgnoreKeyword(keyword)
    ensures SettingDirective(s, keyword, args, disk) == (s.(ignoreFiles := s.ignoreFiles + args), 0)
  {
  }

  /** `on_update file cmd…` needs a command whose script exists; the command
      is the remaining words joined by spaces. */
  lemma OnUpdateSetting(s: Settings, args: seq<string>, disk: Disk)
    requires |args| >= 1
    ensures var (s', e) := SettingDirective(s, "on_update", args, disk);
            (e == 0 <==> |args| >= 2 && disk.isFile(ScriptPath(s.masterDir, args[1])))
            && (e == 0 ==> s' == s.(onUpdate := s.onUpdate[args[0] := JoinWords(args[1..])]))
            && (e != 0 ==> e == 1 && s' == s)
  {
  }

  /** `always_run cmd…` needs an existing script and refuses a command that
      is already listed. */
  lemma AlwaysRunSetting(s: Settings, args: seq<string>, disk: Disk)
    requires |args| >= 1
    ensures var (s', e) := SettingDirective(s, "always_run", args, disk);
            (e == 0 <==> JoinWords(args) !in s.alwaysRun && disk.isFile(ScriptPath(s.masterDir, args[0])))
            && (e == 0 ==> s' == s.(alwaysRun := s.alwaysRun + [JoinWords(args)]))
            && (e != 0 ==> e == 1 && s' == s)
  {
    LaterKeywordGroups();
  }

  /** A `*_cmd` keyword needs its first word to be an existing file, and
      stores all its words joined by spaces. */
  lemma CommandLineSetting(s: Settings, keyword: string, args: seq<string>, disk: Disk)
    requires |args| >= 1 && IsCommandKeyword(keyword)
    ensures var (s', e) := SettingDirective(s, keyword, args, disk);
            (e == 0 <==> disk.isFile(args[0]))
            && (e == 0 ==> s' == s.(commands := s.commands[keyword := JoinWords(args)]))
            && (e != 0 ==> e == 1 && s' == s)
  {
    CommandKeywordGroup(keyword);
  }

  /** No `*_cmd` keyword belongs to an earlier group. */
  lemma CommandKeywordGroup(k: string)
    requires IsCommandKeyword(k)
    ensures !IsDirKeyword(k) && !IsValueKeyword(k) && !IsScriptKeyword(k)
  {
    assert k[|k| - 1] == 'd' && |k| != 11;
  }

  lemma LaterKeywordGroups()
    ensures !IsDirKeyword("always_run") && !IsValueKeyword("always_run")
    ensures !IsDirKeyword("logfile") && !IsValueKeyword("logfile") && !IsScriptKeyword("logfile") && !IsCommandKeyword("logfile")
    ensures !IsDirKeyword("num_proc") && !IsValueKeyword("num_proc") && !IsScriptKeyword("num_proc") && !IsCommandKeyword("num_proc")
  {
    assert "always_run"[0] == 'a' && "overlaydir"[0] == 'o' && "ignore_dir"[0] == 'i';
    assert "logfile"[0] == 'l' && "ssh_cmd"[0] == 's' && "scp_cmd"[0] == 's';
    assert "num_proc"[0] == 'n' && "tasksdir"[0] == 't' && "diff_cmd"[0] == 'd' && "ping_cmd"[0] == 'p';
  }

  /** `logfile` stores its words joined by spaces. */
  lemma LogfileSetting(s: Settings, args: seq<string>, disk: Disk)
    requires |args| >= 1
    ensures SettingDirective(s, "logfile", args, disk) == (s.(logfile := JoinWords(args)), 0)
  {
    LaterKeywordGroups();
  }

  lemma InterfaceToken(groups: seq<string>, x: string)
    requires |groups| >= 1 && groups[|groups| - 1] == InterfacePrefix + x
    ensures SplitInterface(groups) == (Some(x), groups[..|groups| - 1])
  {
    assert (InterfacePrefix + x)[..10] == InterfacePrefix;
    var (iface, rest) := SplitInterface(groups);
    assert rest + [InterfacePrefix + iface.value] == groups;
    assert InterfacePrefix + iface.value == InterfacePrefix + x;
    assert iface.value == (InterfacePrefix + iface.value)[10..];
  }

  /** A node line ending in `interface:X` for a new node: `X` becomes the
      node's interface, and the node's groups are the expansion of the other
      groups on the line. */
  lemma InterfaceOnNodeLine(st: State, arr: seq<string>, x: string, disk: Disk, fuel: nat)
    requires |arr| >= 3 && (Lower(arr[0]) == "node" || Lower(arr[0]) == "host")
    requires arr[1] !in st.nodes && arr[1] !in st.groupDefs && arr[1] !in st.interfaces
    requires arr[|arr| - 1] == InterfacePrefix + x
    requires !HasNodeName(st.groupDefs, st.nodes, arr[2..|arr| - 1])
    ensures var (st', e) := Directive(st, arr, disk, fuel);
            e == 0 && st'.interfaces == st.interfaces[arr[1] := x]
            && NodeInterface(st'.interfaces, arr[1]) == x
            && arr[1] in st'.nodes && st'.nodes[arr[1]] == Dedupe(Units(st.groupDefs, arr[2..|arr| - 1]))
  {
    var args := arr[1..];
    assert args[1..] == arr[2..];
    assert arr[2..][..|arr[2..]| - 1] == arr[2..|arr| - 1];
    DirectiveTable(st, arr, disk, fuel);
    InterfaceNodeTable(st, Lower(arr[0]), args, x);
  }

  lemma DirectiveTable(st: State, arr: seq<string>, disk: Disk, fuel: nat)
    requires |arr| >= 2 && IsTableKeyword(Lower(arr[0]))
    ensures Directive(st, arr, disk, fuel) == TableDirective(st, Lower(arr[0]), arr[1..])
  {
    var k := Lower(arr[0]);
    assert k != "include" && !IsSettingKeyword(k);
  }

  lemma InterfaceNodeTable(st: State, keyword: string, args: seq<string>, x: string)
    requires |args| >= 2 && (keyword == "node" || keyword == "host")
    requires args[0] !in st.nodes && args[0] !in st.groupDefs && args[0] !in st.interfaces
    requires args[|args| - 1] == InterfacePrefix + x
    requires !HasNodeName(st.groupDefs, st.nodes, args[1..][..|args[1..]| - 1])
    ensures var (st', e) := TableDirective(st, keyword, args);
            e == 0 && st'.interfaces == st.interfaces[args[0] := x]
            && args[0] in st'.nodes && st'.nodes[args[0]] == Dedupe(Units(st.groupDefs, args[1..][..|args[1..]| - 1]))
  {
    var groups := args[1..];
    InterfaceToken(groups, x);
    var rest := groups[..|groups| - 1];
    ExpandOutcome(st.groupDefs, st.nodes, rest);
    assert keyword != "group";
    var (defs, members) := Expand(st.groupDefs, st.nodes, rest);
    assert members == Some(Dedupe(Units(st.groupDefs, rest)));
  }

  /** `group g members…`: too few arguments, or a name already taken by a
      group or a node, is one error and changes nothing. Otherwise the line
      succeeds exactly when no member is a node; then `g` is defined as the
      expansion of its members, the unknown members become groups without
      members, and the other tables stay as they were. */
  lemma GroupLine(st: State, args: seq<string>)
    requires |args| >= 1
    ensures var (st', e) := TableDirective(st, "group", args);
            var g := args[0];
            (|args| < 2 || g in st.groupDefs || g in st.nodes ==> e == 1 && st' == st)
            && (|args| >= 2 && g !in st.groupDefs && g !in st.nodes ==>
                  (e == 0 <==> !HasNodeName(st.groupDefs, st.nodes, args[1..]))
                  && st'.nodes == st.nodes && st'.interfaces == st.interfaces
                  && st'.ignoreGroups == st.ignoreGroups
                  && (e == 0 ==>
                        g in st'.groupDefs && st'.groupDefs[g] == Some(Dedupe(Units(st.groupDefs, args[1..])))
                        && forall x :: x != g ==>
                             (x in st'.groupDefs <==> x in st.groupDefs || x in args[1..])))
  {
    if |args| >= 2 && args[0] !in st.groupDefs && args[0] !in st.nodes {
      ExpandOutcome(st.groupDefs, st.nodes, args[1..]);
    }
  }

  /** `node n groups…` without an interface: a name already taken by a node
      or a group is one error and changes nothing. Otherwise the line
      succeeds exactly when no listed group is a node, and then `n` gets the
      expansion of its groups, the interfaces staying as they were. */
  lemma NodeLine(st: State, keyword: string, args: seq<string>)
    requires |args| >= 1 && (keyword == "node" || keyword == "host")
    requires SplitInterface(args[1..]).0.None?
    ensures var (st', e) := TableDirective(st, keyword, args);
            var n := args[0];
            (n in st.nodes || n in st.groupDefs ==> e == 1 && st' == st)
            && (n !in st.nodes && n !in st.groupDefs ==>
                  (e == 0 <==> !HasNodeName(st.groupDefs, st.nodes, args[1..]))
                  && st'.interfaces == st.interfaces && st'.ignoreGroups == st.ignoreGroups
                  && (e == 0 ==> st'.nodes == st.nodes[n := Dedupe(Units(st.groupDefs, args[1..]))])
                  && (e != 0 ==> st'.nodes == st.nodes))
  {
    if args[0] !in st.nodes && args[0] !in st.groupDefs {
      ExpandOutcome(st.groupDefs, st.nodes, args[1..]);
    }
  }

  /** A node line with an interface for a node whose interface is already
      known is one error and changes nothing. */
  lemma InterfaceRedefined(st: State, keyword: string, args: seq<string>)
    requires |args| >= 1 && (keyword == "node" || keyword == "host")
    requires SplitInterface(args[1..]).0.Some? && args[0] in st.interfaces
    ensures TableDirective(st, keyword, args) == (st, 1)
  {
  }

  /** `ignore_node n` and `ignore_host n` put `n` at the end of the ignored
      groups; nothing else changes and there is no error. */
  lemma IgnoreNodeLine(st: State, keyword: string, args: seq<string>)
    requires |args| >= 1 && (keyword == "ignore_node" || keyword == "ignore_host")
    ensures var (st', e) := TableDirective(st, keyword, args);
            e == 0 && st'.ignoreGroups == st.ignoreGroups + [args[0]]
            && st'.nodes == st.nodes && st'.groupDefs == st.groupDefs && st'.interfaces == st.interfaces
  {
  }

  /** A group or node line changes the group table only by adding names (and
      the node table only by adding the new node); the names already there
      keep their entries. */
  lemma TableDirectiveAdds(st: State, arr: seq<string>, disk: Disk, fuel: nat)
    requires |arr| >= 2 && IsTableKeyword(Lower(arr[0]))
    ensures var (st', _) := Directive(st, arr, disk, fuel);
            st.groupDefs.Keys <= st'.groupDefs.Keys && st.nodes.Keys <= st'.nodes.Keys
            && (forall n :: n in st.nodes ==> st'.nodes[n] == st.nodes[n])
  {
    DirectiveTable(st, arr, disk, fuel);
    TableAdds(st, Lower(arr[0]), arr[1..]);
  }

  lemma TableAdds(st: State, keyword: string, args: seq<string>)
    requires |args| >= 1 && IsTableKeyword(keyword)
    ensures var (st', _) := TableDirective(st, keyword, args);
            st.groupDefs.Keys <= st'.groupDefs.Keys && st.nodes.Keys <= st'.nodes.Keys
            && (forall n :: n in st.nodes ==> st'.nodes[n] == st.nodes[n])
  {
    if keyword == "group" {
      CollectDefsGrow(st.groupDefs, st.nodes, args[1..]);
    } else if keyword == "host" || keyword == "node" {
      CollectDefsGrow(st.groupDefs, st.nodes, SplitInterface(args[1..]).1);
    } else if keyword == "ignore_group" {
      AddNamesAddsUnknown(st.groupDefs, args);
    }
  }

  lemma {:induction false} CollectDefsGrow(defs: GroupDefs, nodes: Nodes, grouplist: seq<string>)
    ensures defs.Keys <= Collect(defs, nodes, grouplist).defs.Keys
  {
    if grouplist != [] {
      CollectDefsGrow(defs, nodes, grouplist[..|grouplist| - 1]);
    }
  }

  /** The running totals after one more statement. */
  lemma RunStmtsStep(st: State, stmts: seq<Stmt>, s: Stmt, disk: Disk, fuel: nat,
                     st1: State, errors: nat, e: nat, after: seq<Stmt>, total: nat)
    requires (st1, e) == Exec(RunStmts(st, stmts, disk, fuel).0, s, disk, fuel)
    requires errors == RunStmts(st, stmts, disk, fuel).1
    requires after == stmts + [s] && total == errors + e
    ensures (st1, total) == RunStmts(st, after, disk, fuel)
  {
    assert after != [] && after[..|after| - 1] == stmts && after[|after| - 1] == s;
  }
}
