/** The configuration module's global tables as an object: reading the
    configuration file, and the operations on groups and nodes that update
    the tables in place. */
module Config {
  import opened Text
  import opened Seqs
  import opened ConfigTables
  import opened ConfigLines
  import opened ConfigRead

  /** Once the first loop of `expand_grouplist` has raised, the rest of the
      list is not looked at. */
  lemma {:induction false} CollectRaisedStays(defs: GroupDefs, nodes: Nodes, grouplist: seq<string>, k: nat)
    requires k <= |grouplist| && Collect(defs, nodes, grouplist[..k]).raised
    ensures Collect(defs, nodes, grouplist) == Collect(defs, nodes, grouplist[..k])
    decreases |grouplist| - k
  {
    if k < |grouplist| {
      assert grouplist[..k + 1][..k] == grouplist[..k];
      CollectRaisedStays(defs, nodes, grouplist, k + 1);
    } else {
      assert grouplist[..k] == grouplist;
    }
  }

  /** Reading a list in two parts. */
  lemma {:induction false} ReadFromAppend(a: Reading, x: seq<string>, y: seq<string>)
    ensures ReadFrom(a, x + y) == ReadFrom(ReadFrom(a, x), y)
    decreases |y|
  {
    if y == [] {
      assert x + y == x;
    } else {
      assert (x + y)[..|x + y| - 1] == x + y[..|y| - 1];
      ReadFromAppend(a, x, y[..|y| - 1]);
    }
  }

  lemma ImplicitByNode(nodes: Nodes, nodes1: Nodes, nodes0: Nodes)
    requires nodes.Keys == nodes1.Keys == nodes0.Keys
    requires forall n :: n in nodes1 ==> nodes1[n] == [n] + RemoveFirst(nodes0[n], n)
    requires forall n :: n in nodes ==> nodes[n] == WithAll(nodes1[n])
    ensures nodes == Implicit(nodes0)
  {
  }

  lemma ReadNext(lines: seq<string>, i: nat)
    requires i < |lines|
    ensures ReadFrom(Start, lines[..i + 1]) == ReadStep(ReadFrom(Start, lines[..i]), lines[i])
  {
    assert lines[..i + 1][..i] == lines[..i];
  }

  /** The inner loop of `remove_ignored_groups()`: each ignored group is
      taken out of one host's list; `changed` reports whether any was there. */
  method RemoveGroups(groups: seq<string>, ignore: seq<string>) returns (r: seq<string>, changed: bool)
    ensures r == RemoveAll(groups, ignore)
    ensures !changed ==> r == groups
  {
    r := groups;
    changed := false;
    var k := 0;
    while k < |ignore|
      invariant k <= |ignore|
      invariant r == RemoveAll(groups, ignore[..k])
      invariant !changed ==> r == groups
    {
      RemoveAllSnoc(groups, ignore, k);
      if ignore[k] in r {
        r := RemoveFirst(r, ignore[k]);
        changed := true;
      }
      k := k + 1;
    }
    assert ignore[..k] == ignore;
  }

  class Config {
    var nodes: Nodes
    var groupDefs: GroupDefs
    var interfaces: map<string, string>
    var ignoreGroups: seq<string>
    var settings: Settings
    var action: int
    var actionOption: string
    var nodename: Option<string>
    var hostname: string

    constructor (settings: Settings)
      ensures nodes == map[] && groupDefs == map[] && interfaces == map[] && ignoreGroups == []
      ensures this.settings == settings && action == 0 && nodename == None
    {
      nodes := map[];
      groupDefs := map[];
      interfaces := map[];
      ignoreGroups := [];
      this.settings := settings;
      action := 0;
      actionOption := "";
      nodename := None;
      hostname := "";
    }

    function Current(): State
      reads this
    {
      State(nodes, groupDefs, interfaces, ignoreGroups, settings)
    }

    /** `expand_grouplist(grouplist)`; `None` is the RuntimeError for a node
        name, raised after the names before it were entered into `GROUP_DEFS`. */
    method ExpandGrouplist(grouplist: seq<string>) returns (r: Option<seq<string>>)
      modifies this`groupDefs
      ensures (groupDefs, r) == Expand(old(groupDefs), nodes, grouplist)
    {
      var groups: seq<string> := [];
      var i := 0;
      while i < |grouplist|
        invariant i <= |grouplist|
        invariant Collect(old(groupDefs), nodes, grouplist[..i]) == Collecting(groupDefs, groups, false)
      {
        var elem := grouplist[i];
        assert grouplist[..i + 1][..i] == grouplist[..i];
        groups := groups + [elem];
        if elem in groupDefs {
          var compound := groupDefs[elem];
          if compound.Some? {
            groups := groups + compound.value;
          }
        } else {
          if elem in nodes {
            CollectRaisedStays(old(groupDefs), nodes, grouplist, i + 1);
            return None;
          }
          groupDefs := groupDefs[elem := None];
        }
        i := i + 1;
      }
      assert grouplist[..i] == grouplist;
      var expanded: seq<string> := [];
      var j := 0;
      while j < |groups|
        invariant j <= |groups|
        invariant expanded == Dedupe(groups[..j])
      {
        assert groups[..j + 1][..j] == groups[..j];
        if groups[j] !in expanded {
          expanded := expanded + [groups[j]];
        }
        j := j + 1;
      }
      assert groups[..j] == groups;
      r := Some(expanded);
    }

    /** `insert_group(node, group)`. */
    method InsertGroup(node: string, group: string)
      modifies this`nodes
      ensures nodes == ConfigTables.InsertGroup(old(nodes), node, group)
    {
      if node in nodes {
        var groups := nodes[node];
        if group in groups {
          groups := RemoveFirst(groups, group);
        }
        nodes := nodes[node := [group] + groups];
      } else {
        nodes := nodes[node := [group]];
      }
    }

    /** `remove_ignored_groups()`: the hosts are visited in an unspecified order. */
    method RemoveIgnoredGroups()
      modifies this`nodes
      ensures nodes == RemoveIgnored(old(nodes), ignoreGroups)
    {
      var todo := nodes.Keys;
      while todo != {}
        invariant todo <= nodes.Keys && nodes.Keys == old(nodes).Keys
        invariant forall h :: h in nodes ==> nodes[h] == if h in todo then old(nodes)[h] else RemoveAll(old(nodes)[h], ignoreGroups)
        decreases todo
      {
        var host :| host in todo;
        var groups, changed := RemoveGroups(nodes[host], ignoreGroups);
        if changed {
          nodes := nodes[host := groups];
        }
        todo := todo - {host};
      }
    }

    /** `get_nodes_in_groups(nodegroups)`, with the nodes visited in the key
        order `keys`: each node once, exactly the nodes in one of the groups. */
    method GetNodesInGroups(keys: seq<string>, nodegroups: seq<string>) returns (arr: seq<string>)
      requires KeyOrder(keys, nodes)
      ensures Distinct(arr)
      ensures forall x :: x in arr <==> InSomeGroup(nodes, x, nodegroups)
    {
      arr := [];
      var i := 0;
      while i < |nodegroups|
        invariant i <= |nodegroups|
        invariant Distinct(arr)
        invariant forall x :: x in arr <==> InSomeGroup(nodes, x, nodegroups[..i])
      {
        var nodegroup := nodegroups[i];
        var j := 0;
        while j < |keys|
          invariant j <= |keys|
          invariant Distinct(arr)
          invariant forall x :: x in arr <==> InSomeGroup(nodes, x, nodegroups[..i]) || (x in keys[..j] && x in nodes && nodegroup in nodes[x])
        {
          var node := keys[j];
          assert keys[..j + 1] == keys[..j] + [node];
          if nodegroup in nodes[node] && node !in arr {
            arr := arr + [node];
          }
          j := j + 1;
        }
        assert keys[..j] == keys;
        forall x
          ensures InSomeGroup(nodes, x, nodegroups[..i + 1]) <==> InSomeGroup(nodes, x, nodegroups[..i]) || (x in nodes && nodegroup in nodes[x])
        {
          assert nodegroups[..i + 1] == nodegroups[..i] + [nodegroup];
          if InSomeGroup(nodes, x, nodegroups[..i + 1]) && !(x in nodes && nodegroup in nodes[x]) {
            var k :| 0 <= k < i + 1 && nodegroups[..i + 1][k] in nodes[x];
            assert k < i && nodegroups[..i][k] in nodes[x];
          }
          if InSomeGroup(nodes, x, nodegroups[..i]) {
            var k :| 0 <= k < i && nodegroups[..i][k] in nodes[x];
            assert nodegroups[..i + 1][k] in nodes[x];
          }
          if x in nodes && nodegroup in nodes[x] {
            assert nodegroups[..i + 1][i] in nodes[x];
          }
        }
        i := i + 1;
      }
      assert nodegroups[..i] == nodegroups;
    }

    /** `set_action(a, opt)`: a second action makes the program exit. */
    method SetAction(a: int, opt: string) returns (exits: bool)
      modifies this`action, this`actionOption
      ensures exits <==> old(action) > 0
      ensures exits ==> action == old(action) && actionOption == old(actionOption)
      ensures !exits ==> action == a && actionOption == opt
    {
      if action > 0 {
        return true;
      }
      action := a;
      actionOption := opt;
      return false;
    }

    /** The end of `read_config`: each node's own name as its first group,
        group `all` for every node, and groups `all` and `none`, the latter
        ignored. */
    method AddImplicitGroups()
      modifies this`nodes, this`groupDefs, this`ignoreGroups
      ensures nodes == Implicit(old(nodes))
      ensures groupDefs == AddNames(old(groupDefs), ["all", "none"])
      ensures ignoreGroups == if "none" in old(ignoreGroups) then old(ignoreGroups) else old(ignoreGroups) + ["none"]
    {
      ghost var nodes0 := nodes;
      InsertOwnNames();
      if "all" !in groupDefs {
        groupDefs := groupDefs["all" := None];
      }
      ghost var nodes1 := nodes;
      AppendAll();
      ImplicitByNode(nodes, nodes1, nodes0);
      if "none" !in groupDefs {
        groupDefs := groupDefs["none" := None];
      }
      if "none" !in ignoreGroups {
        ignoreGroups := ignoreGroups + ["none"];
      }
      assert ["all", "none"][..1] == ["all"];
      assert ["all"][..0] == [];
      assert AddNames(old(groupDefs), ["all"]) == if "all" in old(groupDefs) then old(groupDefs) else old(groupDefs)["all" := None];
    }

    /** `insert_group(node, node)` for every node, in an unspecified order. */
    method InsertOwnNames()
      modifies this`nodes
      ensures nodes.Keys == old(nodes).Keys
      ensures forall n :: n in nodes ==> nodes[n] == [n] + RemoveFirst(old(nodes)[n], n)
    {
      var todo := nodes.Keys;
      while todo != {}
        invariant todo <= nodes.Keys && nodes.Keys == old(nodes).Keys
        invariant forall n :: n in nodes ==> nodes[n] == if n in todo then old(nodes)[n] else [n] + RemoveFirst(old(nodes)[n], n)
        decreases todo
      {
        var node :| node in todo;
        InsertGroup(node, node);
        todo := todo - {node};
      }
    }

    /** Group `all` at the end of every node's list that lacks it, in an
        unspecified order. */
    method AppendAll()
      modifies this`nodes
      ensures nodes.Keys == old(nodes).Keys
      ensures forall n :: n in nodes ==> nodes[n] == WithAll(old(nodes)[n])
    {
      var todo := nodes.Keys;
      while todo != {}
        invariant todo <= nodes.Keys && nodes.Keys == old(nodes).Keys
        invariant forall n :: n in nodes ==> nodes[n] == if n in todo then old(nodes)[n] else WithAll(old(nodes)[n])
        decreases todo
      {
        var node :| node in todo;
        if "all" !in nodes[node] {
          nodes := nodes[node := nodes[node] + ["all"]];
        }
        todo := todo - {node};
      }
    }

    /** The first node, in the order of `keys`, whose interface or one of
        whose groups is the host name or the short host name. */
    method SearchNodes(short: string, host: string, keys: seq<string>) returns (name: Option<string>)
      ensures name == HostInNodes(nodes, interfaces, keys, short, host)
    {
      var k := 0;
      while k < |keys|
        invariant k <= |keys|
        invariant HostInNodes(nodes, interfaces, keys, short, host) == HostInNodes(nodes, interfaces, keys[k..], short, host)
      {
        assert keys[k..][1..] == keys[k + 1..];
        var node := keys[k];
        var iface := NodeInterface(interfaces, node);
        if iface == short || iface == host {
          return Some(node);
        }
        var groups := GroupsOf(nodes, node);
        if short in groups || host in groups {
          return Some(node);
        }
        k := k + 1;
      }
      assert keys[k..] == [];
      return None;
    }

    /** The node `add_myhostname()` picks for a host that is not defined
        under both its full and its short name. */
    method ChooseNode(host: string, keys: seq<string>) returns (name: Option<string>)
      requires KeyOrder(keys, nodes)
      requires MyNodename(nodes, interfaces, keys, host) != Conflict
      ensures MyNodename(nodes, interfaces, keys, host) == Chosen(name)
    {
      var short := ShortName(host);
      if short in nodes {
        name := Some(short);
      } else if host in nodes {
        name := Some(host);
      } else {
        name := SearchNodes(short, host, keys);
      }
    }

    /** The host name, the short host name and the node name go in front
        of the chosen node's groups. */
    method InsertMyGroups(node: string, host: string)
      modifies this`nodes
      ensures nodes == MyGroupsFirst(old(nodes), node, host)
    {
      InsertGroup(node, host);
      InsertGroup(node, ShortName(host));
      InsertGroup(node, node);
    }

    /** `add_myhostname()` for the host name `host`, with the nodes visited in
        the key order `keys`; `conflict` is the exit for a host defined under
        both its full and its short name. */
    method AddMyHostname(host: string, keys: seq<string>) returns (conflict: bool)
      requires KeyOrder(keys, nodes)
      modifies this`nodes, this`nodename, this`hostname
      ensures hostname == host
      ensures conflict <==> MyNodename(old(nodes), interfaces, keys, host) == Conflict
      ensures conflict ==> nodes == old(nodes) && nodename == old(nodename)
      ensures !conflict ==> nodename == MyNodename(old(nodes), interfaces, keys, host).nodename
      ensures !conflict ==> nodes == match nodename
                                     case None => old(nodes)
                                     case Some(n) => MyGroupsFirst(old(nodes), n, host)
    {
      hostname := host;
      var short := ShortName(host);
      if host != short && host in nodes && short in nodes {
        return true;
      }
      var name := ChooseNode(host, keys);
      nodename := name;
      if name.Some? {
        InsertMyGroups(name.value, host);
      }
      return false;
    }

    /** `read_config_file(path)`: the lines are read one at a time, continued
        lines are joined, and each complete statement is carried out at once.
        Returns the number of errors. */
    method ReadConfigFile(path: string, disk: Disk, fuel: nat) returns (errors: nat)
      modifies this`nodes, this`groupDefs, this`interfaces, this`ignoreGroups, this`settings
      ensures (Current(), errors) == ReadFile(old(Current()), path, disk, fuel)
      decreases fuel, 2, 0
    {
      if path !in disk.text {
        return 1;
      }
      var lines := disk.text[path];
      ghost var st0 := Current();
      ghost var stmts: seq<Stmt> := [];
      var lineno := 0;
      var line := "";
      errors := 0;
      var i := 0;
      while i < |lines|
        invariant i <= |lines|
        invariant ReadFrom(Start, lines[..i]) == Reading(stmts, line, lineno, false)
        invariant (Current(), errors) == RunStmts(st0, stmts, disk, fuel)
      {
        var raw := lines[i];
        if raw == [] {
          ReadNext(lines, i);
          ReadAfterEof(ReadFrom(Start, lines[..i + 1]), lines[i + 1..]);
          ReadFromAppend(Start, lines[..i + 1], lines[i + 1..]);
          assert lines[..i + 1] + lines[i + 1..] == lines;
          break;
        }
        ReadNext(lines, i);
        line, lineno, stmts, errors := ReadLine(raw, line, lineno, st0, stmts, errors, disk, fuel);
        i := i + 1;
      }
      if i == |lines| {
        assert lines[..i] == lines;
      }
    }

    /** One nonempty line of the reading loop: a blank line is skipped, a
        line ending in a backslash is kept for the next, and any other line
        completes a statement, which is executed. */
    method ReadLine(raw: string, line: string, lineno: nat, ghost st0: State, ghost stmts: seq<Stmt>,
                    errors: nat, disk: Disk, fuel: nat)
      returns (line': string, lineno': nat, ghost stmts': seq<Stmt>, errors': nat)
      modifies this`nodes, this`groupDefs, this`interfaces, this`ignoreGroups, this`settings
      requires raw != []
      requires (Current(), errors) == RunStmts(st0, stmts, disk, fuel)
      ensures Reading(stmts', line', lineno', false) == ReadStep(Reading(stmts, line, lineno, false), raw)
      ensures (Current(), errors') == RunStmts(st0, stmts', disk, fuel)
      decreases fuel, 1, 1
    {
      lineno', stmts', errors' := lineno + 1, stmts, errors;
      var piece := LinePiece(raw);
      ReadStepPiece(Reading(stmts, line, lineno, false), raw, piece);
      match piece
      case Blank =>
        line' := line;
      case Continued(t) =>
        line' := line + " " + t;
      case Final(t) =>
        var stmt := Stmt(lineno', Split(line + " " + t));
        line' := "";
        stmts' := stmts + [stmt];
        var e := ExecStmt(stmt, disk, fuel);
        errors' := errors + e;
        RunStmtsStep(st0, stmts, stmt, disk, fuel, Current(), errors, e, stmts', errors');
    }

    /** One complete statement: fewer than two words is an error. */
    method ExecStmt(stmt: Stmt, disk: Disk, fuel: nat) returns (errors: nat)
      modifies this`nodes, this`groupDefs, this`interfaces, this`ignoreGroups, this`settings
      ensures (Current(), errors) == Exec(old(Current()), stmt, disk, fuel)
      decreases fuel, 1, 0
    {
      if |stmt.tokens| <= 1 {
        return 1;
      }
      errors := Apply(stmt.tokens, disk, fuel);
    }

    /** One statement of at least two tokens: its keyword, without regard to
        case, selects what is checked and set. */
    method Apply(arr: seq<string>, disk: Disk, fuel: nat) returns (errors: nat)
      requires |arr| >= 2
      modifies this`nodes, this`groupDefs, this`interfaces, this`ignoreGroups, this`settings
      ensures (Current(), errors) == Directive(old(Current()), arr, disk, fuel)
      decreases fuel, 0, 0
    {
      var keyword := Lower(arr[0]);
      var args := arr[1..];
      if keyword == "include" {
        if fuel == 0 {
          return 1;
        }
        errors := ReadConfigFile(args[0], disk, fuel - 1);
      } else if IsSettingKeyword(keyword) {
        var (s, e) := SettingDirective(settings, keyword, args, disk);
        settings := s;
        errors := e;
      } else if IsTableKeyword(keyword) {
        errors := ApplyTable(keyword, args);
      } else {
        errors := 1;
      }
    }

    /** The statements that change the group and node tables. */
    method ApplyTable(keyword: string, args: seq<string>) returns (errors: nat)
      requires |args| >= 1 && IsTableKeyword(keyword)
      modifies this`nodes, this`groupDefs, this`interfaces, this`ignoreGroups
      ensures (Current(), errors) == TableDirective(old(Current()), keyword, args)
    {
      if keyword == "group" {
        var group := args[0];
        if |args| < 2 || group in groupDefs || group in nodes {
          return 1;
        }
        var members := ExpandGrouplist(args[1..]);
        if members.None? {
          return 1;
        }
        groupDefs := groupDefs[group := members];
        return 0;
      }
      if keyword == "host" || keyword == "node" {
        var node := args[0];
        var groups := args[1..];
        if node in nodes || node in groupDefs {
          return 1;
        }
        if |groups| >= 1 && StartsWith(groups[|groups| - 1], InterfacePrefix) {
          var iface := groups[|groups| - 1][10..];
          groups := groups[..|groups| - 1];
          if node in interfaces {
            return 1;
          }
          interfaces := interfaces[node := iface];
        }
        var members := ExpandGrouplist(groups);
        if members.None? {
          return 1;
        }
        nodes := nodes[node := members.value];
        return 0;
      }
      if keyword == "ignore_host" || keyword == "ignore_node" {
        ignoreGroups := ignoreGroups + [args[0]];
        return 0;
      }
      ignoreGroups := ignoreGroups + args;
      var k := 0;
      while k < |args|
        modifies this`groupDefs
        invariant k <= |args|
        invariant groupDefs == AddNames(old(groupDefs), args[..k])
      {
        assert args[..k + 1][..k] == args[..k];
        if args[k] !in groupDefs {
          groupDefs := groupDefs[args[k] := None];
        }
        k := k + 1;
      }
      assert args[..k] == args;
      return 0;
    }
  }
}
