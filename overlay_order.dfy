/** Properties of the per-directory order, of `post_dict` and of the
    top-level directory selection. */
module OverlayOrder {
  import opened Text
  import opened Seqs
  import opened Sorting
  import opened Classify
  import opened Overlay

  /** The order of a directory's entries: post scripts before all other
      entries, ascending importance within each class, equal keys in listing
      order, and nothing gained or lost. */
  lemma ArrangeOrder(p: Params, srcDir: string, destDir: string, entries: seq<Entry>)
    ensures var arr := Arrange(p, srcDir, destDir, entries);
            var c := Candidates(p, srcDir, destDir, entries);
            && multiset(arr) == multiset(c)
            && (forall i, j :: 0 <= i < j < |arr| && arr[j].obj.isPost ==> arr[i].obj.isPost)
            && (forall i, j :: 0 <= i < j < |arr| && arr[i].obj.isPost == arr[j].obj.isPost ==>
                  arr[i].importance <= arr[j].importance)
            && (forall k :: WithKey(arr, ItemKey, k) == WithKey(c, ItemKey, k))
  {
    var c := Candidates(p, srcDir, destDir, entries);
    SortSorted(c, ItemKey);
    forall k ensures WithKey(Sort(c, ItemKey), ItemKey, k) == WithKey(c, ItemKey, k) {
      SortStable(c, ItemKey, k);
    }
  }

  predicate IsPostFor(it: Item, d: string) {
    it.obj.isPost && it.obj.dest == d
  }

  /** `post_dict` after the loop has seen `items`: a post script is entered
      for its destination unless one is there already. */
  function PostDict(items: seq<Item>): map<string, string> {
    if items == [] then map[]
    else
      var m := PostDict(items[..|items| - 1]);
      var o := items[|items| - 1].obj;
      if o.isPost && o.dest !in m then m[o.dest := o.src] else m
  }

  /** `post_dict` has an entry for exactly the destinations of post scripts. */
  lemma {:induction false} PostDictKeys(items: seq<Item>, d: string)
    ensures d in PostDict(items) <==> exists k :: 0 <= k < |items| && IsPostFor(items[k], d)
  {
    if items != [] {
      var init := items[..|items| - 1];
      PostDictKeys(init, d);
      assert forall k :: 0 <= k < |init| ==> init[k] == items[k];
    }
  }

  /** One more entry seen by the loop. */
  lemma PostDictSnoc(items: seq<Item>, i: nat)
    requires i < |items|
    ensures var m := PostDict(items[..i]);
            var o := items[i].obj;
            PostDict(items[..i + 1]) == if o.isPost && o.dest !in m then m[o.dest := o.src] else m
  {
    assert items[..i + 1][..i] == items[..i];
  }

  /** The first post script for a destination wins. */
  lemma {:induction false} PostDictFirstWins(items: seq<Item>, k: nat)
    requires k < |items| && items[k].obj.isPost
    requires forall j :: 0 <= j < k ==> !IsPostFor(items[j], items[k].obj.dest)
    ensures items[k].obj.dest in PostDict(items) && PostDict(items)[items[k].obj.dest] == items[k].obj.src
  {
    var d := items[k].obj.dest;
    var init := items[..|items| - 1];
    if k < |items| - 1 {
      assert init[k] == items[k];
      PostDictFirstWins(init, k);
    } else {
      assert forall j :: 0 <= j < |init| ==> init[j] == items[j];
      PostDictKeys(init, d);
    }
  }

  /** Entries other than post scripts leave `post_dict` alone. */
  lemma {:induction false} PostDictNoPosts(s: seq<Item>, t: seq<Item>)
    requires forall k :: 0 <= k < |t| ==> !t[k].obj.isPost
    ensures PostDict(s + t) == PostDict(s)
    decreases |t|
  {
    if t == [] {
      assert s + t == s;
    } else {
      var u := s + t;
      assert u[..|u| - 1] == s + t[..|t| - 1];
      PostDictNoPosts(s, t[..|t| - 1]);
    }
  }

  /** In a list with post scripts first, `post_dict` is complete at the first
      entry that is not a post script. */
  lemma PostsComplete(arr: seq<Item>, i: nat)
    requires i < |arr| && !arr[i].obj.isPost
    requires forall a, b :: 0 <= a < b < |arr| && arr[b].obj.isPost ==> arr[a].obj.isPost
    ensures PostDict(arr[..i]) == PostDict(arr)
  {
    var t := arr[i..];
    assert arr == arr[..i] + t;
    forall k | 0 <= k < |t| ensures !t[k].obj.isPost {
      assert t[k] == arr[i + k];
    }
    PostDictNoPosts(arr[..i], t);
  }

  /** Because post scripts are sorted first, `post_dict` is complete when the
      loop reaches the first entry of a directory that is not a post script. */
  lemma PostsCompleteBeforeOthers(p: Params, srcDir: string, destDir: string, entries: seq<Entry>, i: nat)
    requires i < |Arrange(p, srcDir, destDir, entries)|
    requires !Arrange(p, srcDir, destDir, entries)[i].obj.isPost
    ensures var arr := Arrange(p, srcDir, destDir, entries);
            PostDict(arr[..i]) == PostDict(arr)
  {
    ArrangeOrder(p, srcDir, destDir, entries);
    PostsComplete(Arrange(p, srcDir, destDir, entries), i);
  }

  /** The number of post scripts at the head of a list. */
  function LeadingPosts(arr: seq<Item>): (n: nat)
    ensures n <= |arr|
    ensures forall k :: 0 <= k < n ==> arr[k].obj.isPost
    ensures n < |arr| ==> !arr[n].obj.isPost
  {
    if arr == [] || !arr[0].obj.isPost then 0
    else
      var n := LeadingPosts(arr[1..]);
      assert forall k :: 1 <= k < n + 1 ==> arr[k] == arr[1..][k - 1];
      n + 1
  }

  /** While the loop is still among the leading post scripts it only builds
      `post_dict`; it then goes on from the first plain entry `n` with the
      complete `post_dict`, which no later entry changes. */
  lemma {:induction false} PostsThenPlain(p: Params, cb: Callback, entries: seq<Entry>, arr: seq<Item>,
                                          i: nat, n: nat, w: Walk)
    requires forall k :: 0 <= k < |arr| ==> arr[k].entry in entries
    requires i <= n <= |arr|
    requires forall k :: 0 <= k < n ==> arr[k].obj.isPost
    requires forall k :: n <= k < |arr| ==> !arr[k].obj.isPost
    ensures ProcessItems(p, cb, entries, arr, i, PostDict(arr[..i]), w)
         == ProcessItems(p, cb, entries, arr, n, PostDict(arr), w)
    decreases n - i
  {
    if i < n {
      PostDictSnoc(arr, i);
      PostsThenPlain(p, cb, entries, arr, i + 1, n, w);
    } else if n < |arr| {
      PostsComplete(arr, n);
    } else {
      assert arr[..n] == arr;
    }
  }

  /** In a list with post scripts first, everything after the leading post
      scripts is a plain entry. */
  lemma PlainAfterLeadingPosts(arr: seq<Item>)
    requires forall a, b :: 0 <= a < b < |arr| && arr[b].obj.isPost ==> arr[a].obj.isPost
    ensures forall k :: LeadingPosts(arr) <= k < |arr| ==> !arr[k].obj.isPost
  {
  }

  /** `_walk_subtree` on a directory is the loop started at its first plain
      entry with the directory's complete `post_dict`: every entry after the
      post scripts, and so every object the callback receives from this
      directory, is handed that same dictionary. */
  lemma WalkDirFullPostDict(p: Params, cb: Callback, srcDir: string, destDir: string, entries: seq<Entry>, w: Walk)
    ensures var arr := Arrange(p, srcDir, destDir, entries);
            var n := LeadingPosts(arr);
            && (forall k :: n <= k < |arr| ==> !arr[k].obj.isPost)
            && WalkDir(p, cb, srcDir, destDir, entries, w) == ProcessItems(p, cb, entries, arr, n, PostDict(arr), w)
  {
    var arr := Arrange(p, srcDir, destDir, entries);
    var n := LeadingPosts(arr);
    ArrangeOrder(p, srcDir, destDir, entries);
    PlainAfterLeadingPosts(arr);
    assert arr[..0] == [];
    PostsThenPlain(p, cb, entries, arr, 0, n, w);
  }

  /** `_toplevel`: exactly the top-level directories named after one of my
      groups, each with the index of its group, in ascending index order. */
  lemma ToplevelSelection(p: Params, overlay: string, top: seq<Entry>)
    ensures var roots := Toplevel(p, overlay, top);
            && (forall i :: 0 <= i < |roots| ==>
                  roots[i].entry in top && roots[i].path == JoinPath(overlay, roots[i].entry.name)
                  && 0 <= roots[i].importance && roots[i].importance == IndexOf(p.myGroups, roots[i].entry.name))
            && (forall k :: 0 <= k < |top| && top[k].name in p.myGroups ==>
                  Root(JoinPath(overlay, top[k].name), IndexOf(p.myGroups, top[k].name), top[k]) in roots)
            && (forall i, j :: 0 <= i < j < |roots| ==> roots[i].importance <= roots[j].importance)
  {
    ToplevelSound(p, overlay, top);
    ToplevelComplete(p, overlay, top);
    SortSorted(RootCandidates(p, overlay, top), RootKey);
  }

  lemma ToplevelSound(p: Params, overlay: string, top: seq<Entry>)
    ensures var roots := Toplevel(p, overlay, top);
            forall i :: 0 <= i < |roots| ==> RootOf(p, overlay, top, roots[i])
  {
    RootCandidatesSound(p, overlay, top);
    SortKeeps(RootCandidates(p, overlay, top), RootKey, d => RootOf(p, overlay, top, d));
  }

  lemma ToplevelComplete(p: Params, overlay: string, top: seq<Entry>)
    ensures var roots := Toplevel(p, overlay, top);
            forall k :: 0 <= k < |top| && top[k].name in p.myGroups ==>
              Root(JoinPath(overlay, top[k].name), IndexOf(p.myGroups, top[k].name), top[k]) in roots
  {
    var c := RootCandidates(p, overlay, top);
    var roots := Toplevel(p, overlay, top);
    RootCandidatesComplete(p, overlay, top);
    forall k | 0 <= k < |top| && top[k].name in p.myGroups
      ensures Root(JoinPath(overlay, top[k].name), IndexOf(p.myGroups, top[k].name), top[k]) in roots
    {
      var d := Root(JoinPath(overlay, top[k].name), IndexOf(p.myGroups, top[k].name), top[k]);
      assert d in multiset(c);
    }
  }

  /** A top-level directory for one of my groups, with that group's index. */
  predicate RootOf(p: Params, overlay: string, top: seq<Entry>, d: Root) {
    d.entry in top && d.path == JoinPath(overlay, d.entry.name)
    && 0 <= d.importance && d.importance == IndexOf(p.myGroups, d.entry.name)
  }

  lemma {:induction false} RootCandidatesSound(p: Params, overlay: string, top: seq<Entry>)
    ensures forall i :: 0 <= i < |RootCandidates(p, overlay, top)| ==> RootOf(p, overlay, top, RootCandidates(p, overlay, top)[i])
  {
    if top != [] {
      var init := top[..|top| - 1];
      RootCandidatesSound(p, overlay, init);
      var c0 := RootCandidates(p, overlay, init);
      var c := RootCandidates(p, overlay, top);
      forall i | 0 <= i < |c|
        ensures RootOf(p, overlay, top, c[i])
      {
        if i < |c0| {
          assert c[i] == c0[i] && RootOf(p, overlay, init, c0[i]);
          assert c0[i].entry in init;
        }
      }
    }
  }

  lemma {:induction false} RootCandidatesComplete(p: Params, overlay: string, top: seq<Entry>)
    ensures forall k :: 0 <= k < |top| && top[k].name in p.myGroups ==>
              Root(JoinPath(overlay, top[k].name), IndexOf(p.myGroups, top[k].name), top[k])
                in RootCandidates(p, overlay, top)
  {
    if top != [] {
      var init := top[..|top| - 1];
      RootCandidatesComplete(p, overlay, init);
      assert forall k :: 0 <= k < |init| ==> init[k] == top[k];
    }
  }
}
