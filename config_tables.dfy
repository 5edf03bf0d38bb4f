/** The group and node tables of the configuration: `NODES` maps each node to
    its group list, `GROUP_DEFS` maps each group to its member groups (or to
    nothing), `INTERFACES` gives a node's network name and `IGNORE_GROUPS`
    lists the groups that are switched off. This module holds the pure
    definitions of the table operations and what they guarantee; the class
    that updates the tables in place is `Config.Config`. */
module ConfigTables {
  import opened Text
  import opened Seqs

  type Nodes = map<string, seq<string>>
  type GroupDefs = map<string, Option<seq<string>>>

  /** `keys` is an enumeration of the keys of `m`, as Python's `dict.keys()`
      gives it: every key exactly once, in an order the model does not fix. */
  predicate KeyOrder<V>(keys: seq<string>, m: map<string, V>) {
    Distinct(keys) && (forall i :: 0 <= i < |keys| ==> keys[i] in m) && (forall k :: k in m ==> k in keys)
  }

  // ---------------------------------------------------------------------------
  // expand_grouplist

  /** The state of the first loop of `expand_grouplist`: the `GROUP_DEFS` it
      has written so far, the collected list and whether it raised. */
  datatype Collecting = Collecting(defs: GroupDefs, groups: seq<string>, raised: bool)

  /** One element of the loop: append it and, if it is a known compound group,
      its members; an unknown node name raises; any other unknown name is
      entered into `GROUP_DEFS` with no members. */
  function CollectStep(c: Collecting, nodes: Nodes, elem: string): Collecting {
    if c.raised then c
    else if elem in c.defs then
      Collecting(c.defs, c.groups + [elem] + (match c.defs[elem] case Some(m) => m case None => []), false)
    else if elem in nodes then Collecting(c.defs, c.groups + [elem], true)
    else Collecting(c.defs[elem := None], c.groups + [elem], false)
  }

  function Collect(defs: GroupDefs, nodes: Nodes, grouplist: seq<string>): Collecting {
    if grouplist == [] then Collecting(defs, [], false)
    else CollectStep(Collect(defs, nodes, grouplist[..|grouplist| - 1]), nodes, grouplist[|grouplist| - 1])
  }

  /** `expand_grouplist(grouplist)`: the new `GROUP_DEFS` (written also when
      the call raises) and the expanded list, or `None` for the RuntimeError. */
  function Expand(defs: GroupDefs, nodes: Nodes, grouplist: seq<string>): (r: (GroupDefs, Option<seq<string>>))
    ensures r.1.Some? ==> Distinct(r.1.value)
  {
    var c := Collect(defs, nodes, grouplist);
    (c.defs, if c.raised then None else Some(Dedupe(c.groups)))
  }

  /** A name followed by its members in `defs`, if it has any. */
  function Unit(defs: GroupDefs, x: string): seq<string> {
    [x] + (if x in defs && defs[x].Some? then defs[x].value else [])
  }

  function Units(defs: GroupDefs, grouplist: seq<string>): seq<string> {
    if grouplist == [] then [] else Units(defs, grouplist[..|grouplist| - 1]) + Unit(defs, grouplist[|grouplist| - 1])
  }

  /** A name of `grouplist` that is a node and not a group. */
  predicate HasNodeName(defs: GroupDefs, nodes: Nodes, grouplist: seq<string>) {
    exists i :: 0 <= i < |grouplist| && grouplist[i] !in defs && grouplist[i] in nodes
  }

  /** `d` is `defs` with every unknown name of `grouplist` added without members. */
  ghost predicate AddsUnknown(defs: GroupDefs, grouplist: seq<string>, d: GroupDefs) {
    (forall x :: x in d <==> x in defs || x in grouplist)
    && (forall x :: x in d ==> d[x] == if x in defs then defs[x] else None)
  }

  lemma {:induction false} CollectDefs(defs: GroupDefs, nodes: Nodes, grouplist: seq<string>)
    ensures var c := Collect(defs, nodes, grouplist);
            (c.raised <==> HasNodeName(defs, nodes, grouplist))
            && (!c.raised ==> AddsUnknown(defs, grouplist, c.defs))
    decreases |grouplist|
  {
    if grouplist != [] {
      var init, elem := grouplist[..|grouplist| - 1], grouplist[|grouplist| - 1];
      assert grouplist == init + [elem];
      CollectDefs(defs, nodes, init);
      var c := Collect(defs, nodes, init);
      assert forall i :: 0 <= i < |init| ==> init[i] == grouplist[i];
      if HasNodeName(defs, nodes, init) {
        var i :| 0 <= i < |init| && init[i] !in defs && init[i] in nodes;
        assert grouplist[i] == init[i];
      } else {
        assert HasNodeName(defs, nodes, grouplist) <==> elem !in defs && elem in nodes;
        if elem in c.defs && elem !in defs {
          var i :| 0 <= i < |init| && init[i] == elem;
          assert init[i] !in nodes;
        }
      }
    }
  }

  lemma {:induction false} CollectGroups(defs: GroupDefs, nodes: Nodes, grouplist: seq<string>)
    ensures var c := Collect(defs, nodes, grouplist);
            !c.raised ==> c.groups == Units(defs, grouplist)
    decreases |grouplist|
  {
    if grouplist != [] {
      var init, elem := grouplist[..|grouplist| - 1], grouplist[|grouplist| - 1];
      CollectGroups(defs, nodes, init);
      CollectDefs(defs, nodes, init);
      var c := Collect(defs, nodes, init);
      if !c.raised && elem in c.defs {
        assert c.defs[elem] == if elem in defs then defs[elem] else None;
      }
    }
  }

  /** `expand_grouplist` raises exactly when an element is a node name and
      not a group; otherwise it returns, each once and in order of first
      occurrence, the elements each followed by its members, and every unknown
      name has become a group without members. */
  lemma ExpandOutcome(defs: GroupDefs, nodes: Nodes, grouplist: seq<string>)
    ensures var (defs', r) := Expand(defs, nodes, grouplist);
            (r.None? <==> HasNodeName(defs, nodes, grouplist))
            && (r.Some? ==> r.value == Dedupe(Units(defs, grouplist)) && AddsUnknown(defs, grouplist, defs'))
  {
    CollectDefs(defs, nodes, grouplist);
    CollectGroups(defs, nodes, grouplist);
  }

  // ---------------------------------------------------------------------------
  // insert_group, remove_ignored_groups

  /** `insert_group(node, group)` on `NODES`. */
  function InsertGroup(nodes: Nodes, node: string, group: string): Nodes {
    if node in nodes then nodes[node := [group] + RemoveFirst(nodes[node], group)]
    else nodes[node := [group]]
  }

  /** After `insert_group(node, g)` the node's list starts with `g`, followed
      by the old list with its first `g` (if any) taken out; an absent node
      gets `[g]`; no other node changes. */
  lemma InsertGroupFront(nodes: Nodes, node: string, g: string)
    ensures var n := InsertGroup(nodes, node, g);
            n.Keys == nodes.Keys + {node}
            && (forall x :: x in nodes && x != node ==> n[x] == nodes[x])
            && n[node][0] == g
            && (node !in nodes ==> n[node] == [g])
            && (node in nodes && g !in nodes[node] ==> n[node] == [g] + nodes[node])
            && (node in nodes && g in nodes[node] ==>
                  var i := IndexOf(nodes[node], g);
                  n[node] == [g] + nodes[node][..i] + nodes[node][i + 1..])
  {
    if node in nodes {
      InsertGroupList(nodes[node], g);
    }
  }

  /** The list of a node that was there: `g`, then the old list less its first `g`. */
  lemma InsertGroupList(s: seq<string>, g: string)
    ensures g !in s ==> [g] + RemoveFirst(s, g) == [g] + s
    ensures g in s ==> var i := IndexOf(s, g);
                       [g] + RemoveFirst(s, g) == [g] + s[..i] + s[i + 1..]
  {
    if g in s {
      var i := IndexOf(s, g);
      RemoveFirstCut(s, g);
      Assoc([g], s[..i], s[i + 1..]);
    }
  }

  lemma InsertGroupDistinct(nodes: Nodes, node: string, g: string)
    requires node in nodes ==> Distinct(nodes[node])
    ensures Distinct(InsertGroup(nodes, node, g)[node])
  {
    if node in nodes {
      RemoveFirstDistinct(nodes[node], g);
      var r := RemoveFirst(nodes[node], g);
      assert forall k :: 0 <= k < |r| ==> r[k] != g;
    }
  }

  /** The inner loop of `remove_ignored_groups`: each ignored group in turn,
      its first occurrence taken out. */
  function RemoveAll(groups: seq<string>, ignore: seq<string>): seq<string> {
    if ignore == [] then groups else RemoveFirst(RemoveAll(groups, ignore[..|ignore| - 1]), ignore[|ignore| - 1])
  }

  lemma RemoveAllSnoc(groups: seq<string>, ignore: seq<string>, k: nat)
    requires k < |ignore|
    ensures RemoveAll(groups, ignore[..k + 1]) == RemoveFirst(RemoveAll(groups, ignore[..k]), ignore[k])
  {
    assert ignore[..k + 1][..k] == ignore[..k];
  }

  lemma {:induction false} RemoveAllKeepsDistinct(groups: seq<string>, ignore: seq<string>)
    requires Distinct(groups)
    ensures Distinct(RemoveAll(groups, ignore))
  {
    if ignore != [] {
      RemoveAllKeepsDistinct(groups, ignore[..|ignore| - 1]);
      RemoveFirstDistinct(RemoveAll(groups, ignore[..|ignore| - 1]), ignore[|ignore| - 1]);
    }
  }

  /** Every group of the list that is not ignored survives. */
  lemma {:induction false} RemoveAllKeeps(groups: seq<string>, ignore: seq<string>, g: string)
    requires g in groups && g !in ignore
    ensures g in RemoveAll(groups, ignore)
  {
    if ignore != [] {
      var init, x := ignore[..|ignore| - 1], ignore[|ignore| - 1];
      assert ignore == init + [x];
      RemoveAllKeeps(groups, init, g);
      var s := RemoveAll(groups, init);
      assert multiset(RemoveFirst(s, x))[g] == multiset(s)[g];
    }
  }

  /** The groups that survive keep their order. */
  lemma {:induction false} RemoveAllSubsequence(groups: seq<string>, ignore: seq<string>)
    ensures IsSubsequence(RemoveAll(groups, ignore), groups)
  {
    if ignore == [] {
      SubsequenceRefl(groups);
    } else {
      var init, x := ignore[..|ignore| - 1], ignore[|ignore| - 1];
      RemoveAllSubsequence(groups, init);
      RemoveFirstSubsequence(RemoveAll(groups, init), x);
      SubsequenceTrans(RemoveAll(groups, ignore), RemoveAll(groups, init), groups);
    }
  }

  /** On a list without duplicates, no ignored group survives. */
  lemma {:induction false} RemoveAllDrops(groups: seq<string>, ignore: seq<string>, k: nat)
    requires Distinct(groups) && k < |ignore|
    ensures ignore[k] !in RemoveAll(groups, ignore)
  {
    if k == |ignore| - 1 {
      RemoveAllDropsLast(groups, ignore);
    } else {
      var init, x := ignore[..|ignore| - 1], ignore[|ignore| - 1];
      RemoveAllDrops(groups, init, k);
      assert init[k] == ignore[k];
      RemoveFirstAbsent(RemoveAll(groups, init), x, ignore[k]);
    }
  }

  lemma RemoveAllDropsLast(groups: seq<string>, ignore: seq<string>)
    requires Distinct(groups) && ignore != []
    ensures ignore[|ignore| - 1] !in RemoveAll(groups, ignore)
  {
    var init := ignore[..|ignore| - 1];
    RemoveAllKeepsDistinct(groups, init);
    RemoveFirstDistinct(RemoveAll(groups, init), ignore[|ignore| - 1]);
  }

  /** `remove_ignored_groups()` on `NODES`. */
  function RemoveIgnored(nodes: Nodes, ignore: seq<string>): (r: Nodes)
    ensures r.Keys == nodes.Keys
    ensures forall n :: n in nodes ==> r[n] == RemoveAll(nodes[n], ignore)
  {
    map h | h in nodes :: RemoveAll(nodes[h], ignore)
  }

  // ---------------------------------------------------------------------------
  // queries

  /** A node in one of the `nodegroups`: its group list names one of them. */
  predicate InSomeGroup(nodes: Nodes, node: string, nodegroups: seq<string>) {
    node in nodes && exists k :: 0 <= k < |nodegroups| && nodegroups[k] in nodes[node]
  }

  /** `get_node_interface(node)`: the name set by `interface:` on the node's
      line, or the node name. */
  function NodeInterface(interfaces: map<string, string>, node: string): (r: string)
    ensures node in interfaces ==> r == interfaces[node]
    ensures node !in interfaces ==> r == node
  {
    if node in interfaces then interfaces[node] else node
  }

  /** `get_groups(nodename)`. */
  function GroupsOf(nodes: Nodes, node: string): (r: seq<string>)
    ensures node in nodes ==> r == nodes[node]
    ensures node !in nodes ==> r == []
  {
    if node in nodes then nodes[node] else []
  }

  /** `make_all_groups()`: the group names followed by the node names, each in
      its dictionary's key order. */
  function AllGroups(defs: GroupDefs, groupKeys: seq<string>, nodes: Nodes, nodeKeys: seq<string>): (r: seq<string>)
    requires KeyOrder(groupKeys, defs) && KeyOrder(nodeKeys, nodes)
    ensures |r| == |groupKeys| + |nodeKeys|
    ensures forall x :: x in r <==> x in defs || x in nodes
  {
    groupKeys + nodeKeys
  }

  /** The list holds no name twice exactly when no name is both a group and
      a node. */
  lemma AllGroupsDistinct(defs: GroupDefs, groupKeys: seq<string>, nodes: Nodes, nodeKeys: seq<string>)
    requires KeyOrder(groupKeys, defs) && KeyOrder(nodeKeys, nodes)
    ensures Distinct(AllGroups(defs, groupKeys, nodes, nodeKeys)) <==> defs.Keys !! nodes.Keys
  {
    var r := AllGroups(defs, groupKeys, nodes, nodeKeys);
    if defs.Keys !! nodes.Keys {
      forall i, j | 0 <= i < j < |r|
        ensures r[i] != r[j]
      {
        if j < |groupKeys| || i >= |groupKeys| {
        } else {
          assert r[i] in defs && r[j] in nodes;
        }
      }
    } else {
      var x :| x in defs && x in nodes;
      var i :| 0 <= i < |groupKeys| && groupKeys[i] == x;
      var j :| 0 <= j < |nodeKeys| && nodeKeys[j] == x;
      assert r[i] == r[|groupKeys| + j];
    }
  }

  // ---------------------------------------------------------------------------
  // the implicit groups of read_config

  /** A node's list after `read_config`: its own name moved to the front, and
      `all` appended if missing. */
  function ImplicitGroups(groups: seq<string>, node: string): seq<string> {
    WithAll([node] + RemoveFirst(groups, node))
  }

  /** Group `all` appended to a list that lacks it. */
  function WithAll(g: seq<string>): seq<string> {
    if "all" in g then g else g + ["all"]
  }

  /** Every node's list starts with its own name and contains `all`; the other
      groups keep their relative order. */
  lemma ImplicitGroupsShape(groups: seq<string>, node: string)
    ensures var g := ImplicitGroups(groups, node);
            |g| > 0 && g[0] == node && "all" in g
            && g[..1 + |RemoveFirst(groups, node)|] == [node] + RemoveFirst(groups, node)
            && multiset(g) - multiset{"all"} <= multiset(groups) + multiset{node}
  {
    var g0 := [node] + RemoveFirst(groups, node);
    assert g0 + ["all"] == g0 + ["all"];
    assert (g0 + ["all"])[..|g0|] == g0;
    assert g0[..|g0|] == g0;
  }

  /** `NODES` after `read_config`. */
  function Implicit(nodes: Nodes): (r: Nodes)
    ensures r.Keys == nodes.Keys
  {
    map n | n in nodes :: ImplicitGroups(nodes[n], n)
  }

  /** After `read_config` every node's list starts with its own name and
      contains `all`. */
  lemma ImplicitNodes(nodes: Nodes)
    ensures forall n :: n in Implicit(nodes) ==> |Implicit(nodes)[n]| > 0 && Implicit(nodes)[n][0] == n && "all" in Implicit(nodes)[n]
  {
    forall n | n in Implicit(nodes)
      ensures |Implicit(nodes)[n]| > 0 && Implicit(nodes)[n][0] == n && "all" in Implicit(nodes)[n]
    {
      ImplicitGroupsShape(nodes[n], n);
    }
  }

  // ---------------------------------------------------------------------------
  // add_myhostname

  /** `string.split(hostname, '.')[0]`: the host name up to its first dot. */
  function ShortName(hostname: string): (r: string)
    ensures '.' !in r && StartsWith(hostname, r)
    ensures r == hostname || hostname[|r|] == '.'
  {
    var n := Find(hostname, '.');
    if n == -1 then hostname else hostname[..n]
  }

  /** The node whose interface name or group list names the host, first in
      key order; `None` when there is none. */
  function HostInNodes(nodes: Nodes, interfaces: map<string, string>, keys: seq<string>, short: string, hostname: string): (r: Option<string>)
    ensures r.Some? ==> r.value in keys
  {
    if keys == [] then None
    else
      var node := keys[0];
      var iface := NodeInterface(interfaces, node);
      if iface == short || iface == hostname then Some(node)
      else
        var groups := GroupsOf(nodes, node);
        if short in groups || hostname in groups then Some(node)
        else HostInNodes(nodes, interfaces, keys[1..], short, hostname)
  }

  /** A node names the host as its interface or as one of its groups. */
  predicate NamesHost(nodes: Nodes, interfaces: map<string, string>, node: string, short: string, hostname: string) {
    var iface := NodeInterface(interfaces, node);
    iface == short || iface == hostname || short in GroupsOf(nodes, node) || hostname in GroupsOf(nodes, node)
  }

  /** `HostInNodes` finds the first node in key order that names the host. */
  lemma {:induction false} HostInNodesFirst(nodes: Nodes, interfaces: map<string, string>, keys: seq<string>, short: string, hostname: string)
    ensures var r := HostInNodes(nodes, interfaces, keys, short, hostname);
            (r.None? <==> forall k :: 0 <= k < |keys| ==> !NamesHost(nodes, interfaces, keys[k], short, hostname))
            && (r.Some? ==> exists k :: 0 <= k < |keys| && keys[k] == r.value
                              && NamesHost(nodes, interfaces, keys[k], short, hostname)
                              && forall j :: 0 <= j < k ==> !NamesHost(nodes, interfaces, keys[j], short, hostname))
  {
    if keys != [] {
      HostInNodesFirst(nodes, interfaces, keys[1..], short, hostname);
      var r := HostInNodes(nodes, interfaces, keys[1..], short, hostname);
      assert forall k :: 0 < k < |keys| ==> keys[k] == keys[1..][k - 1];
      if !NamesHost(nodes, interfaces, keys[0], short, hostname) && r.Some? {
        var k :| 0 <= k < |keys[1..]| && keys[1..][k] == r.value
                 && NamesHost(nodes, interfaces, keys[1..][k], short, hostname)
                 && forall j :: 0 <= j < k ==> !NamesHost(nodes, interfaces, keys[1..][j], short, hostname);
        assert keys[k + 1] == r.value;
      }
    }
  }

  /** What `add_myhostname` decides for `hostname`. */
  datatype HostChoice = Conflict | Chosen(nodename: Option<string>)

  /** The choice of `add_myhostname`: both the full and the short name defined
      as nodes is a conflict; otherwise the short name, then the full name, then
      the first node naming the host. */
  function MyNodename(nodes: Nodes, interfaces: map<string, string>, keys: seq<string>, hostname: string): (r: HostChoice)
    requires KeyOrder(keys, nodes)
    ensures r == Conflict <==> hostname != ShortName(hostname) && hostname in nodes && ShortName(hostname) in nodes
    ensures r.Chosen? && r.nodename.Some? ==> r.nodename.value in nodes
    ensures r.Chosen? && ShortName(hostname) in nodes ==> r.nodename == Some(ShortName(hostname))
    ensures r.Chosen? && ShortName(hostname) !in nodes && hostname in nodes ==> r.nodename == Some(hostname)
  {
    var short := ShortName(hostname);
    if hostname != short && hostname in nodes && short in nodes then Conflict
    else if short in nodes then Chosen(Some(short))
    else if hostname in nodes then Chosen(Some(hostname))
    else Chosen(HostInNodes(nodes, interfaces, keys, short, hostname))
  }

  /** The groups of the chosen node once `add_myhostname` has inserted the
      host name, the short host name and the node name in front. */
  function MyGroupsFirst(nodes: Nodes, node: string, hostname: string): Nodes {
    InsertGroup(InsertGroup(InsertGroup(nodes, node, hostname), node, ShortName(hostname)), node, node)
  }

  /** The node's list then starts with its own name and holds both host
      names; no other node changes. */
  lemma MyGroupsFirstShape(nodes: Nodes, node: string, hostname: string)
    ensures var n := MyGroupsFirst(nodes, node, hostname);
            n.Keys == nodes.Keys + {node} && n[node][0] == node
            && ShortName(hostname) in n[node] && hostname in n[node]
            && forall x :: x in nodes && x != node ==> n[x] == nodes[x]
  {
    var n1 := InsertGroup(nodes, node, hostname);
    var n2 := InsertGroup(n1, node, ShortName(hostname));
    var n3 := InsertGroup(n2, node, node);
    InsertGroupFront(nodes, node, hostname);
    InsertGroupFront(n1, node, ShortName(hostname));
    InsertGroupFront(n2, node, node);
    InsertKeeps(n1, node, ShortName(hostname), hostname);
    InsertKeeps(n2, node, node, hostname);
    InsertKeeps(n2, node, node, ShortName(hostname));
  }

  /** Moving a group to the front keeps every other group of the list. */
  lemma InsertKeeps(nodes: Nodes, node: string, g: string, y: string)
    requires node in nodes && y in nodes[node]
    ensures y in InsertGroup(nodes, node, g)[node]
  {
    var s := nodes[node];
    if y != g {
      var k :| 0 <= k < |s| && s[k] == y;
      var r := RemoveFirst(s, g);
      assert multiset(r)[y] == multiset(s)[y];
      assert y in multiset(r);
    }
  }

  /** A host that is neither a node by its short name nor by its full name is
      the first node, in key order, that names it; it stays unknown only when
      no node names it. */
  lemma MyNodenameByReference(nodes: Nodes, interfaces: map<string, string>, keys: seq<string>, hostname: string)
    requires KeyOrder(keys, nodes)
    requires ShortName(hostname) !in nodes && hostname !in nodes
    ensures var r := MyNodename(nodes, interfaces, keys, hostname);
            (r == Chosen(None) <==> forall k :: 0 <= k < |keys| ==> !NamesHost(nodes, interfaces, keys[k], ShortName(hostname), hostname))
            && (r.nodename.Some? ==>
                  exists k :: 0 <= k < |keys| && keys[k] == r.nodename.value
                    && NamesHost(nodes, interfaces, keys[k], ShortName(hostname), hostname)
                    && forall j :: 0 <= j < k ==> !NamesHost(nodes, interfaces, keys[j], ShortName(hostname), hostname))
  {
    HostInNodesFirst(nodes, interfaces, keys, ShortName(hostname), hostname);
  }
}
