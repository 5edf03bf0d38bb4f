/** The overlay walk: every directory of the tree is listed, its entries are
    classified and ordered (post scripts first, then by importance), post
    scripts are registered per directory, duplicate destinations are
    suppressed across the whole walk, and a callback is run on every
    selected file and on every directory after its contents. A callback that
    answers false stops the walk. */
module Overlay {
  import opened Text
  import opened Seqs
  import opened Sorting
  import opened Classify

  /** A directory entry of the overlay tree as `os.listdir` and `stat` see it. */
  datatype Entry = Entry(name: string, isDir: bool, children: seq<Entry>)

  /** The settings the walk reads from `synctool.param`. */
  datatype Params = Params(
    myGroups: seq<string>,
    allGroups: seq<string>,
    ignoreFiles: seq<string>,
    ignoreWildcards: seq<string>,
    fnmatch: (string, string) -> bool,
    ignoreDotfiles: bool,
    ignoreDotdirs: bool,
    requireExtension: bool)

  /** An element of `arr`: the classified entry with its full paths. */
  datatype Item = Item(obj: Obj, importance: int, entry: Entry)

  /** One callback invocation: the object passed and the `post_dict` of its
      directory level at that moment. */
  datatype Call = Call(src: string, dest: string, isDir: bool, posts: map<string, string>)

  /** The state shared by the whole walk: the `duplicates` set and the
      callback invocations made so far. */
  datatype Walk = Walk(dups: set<string>, trace: seq<Call>)

  /** The callback's verdict on a visit, given the visits before it. */
  type Callback = (seq<Call>, Call) -> bool

  /** The entry is listed in `IGNORE_FILES` or matches one of the wildcards. */
  predicate Ignored(p: Params, name: string) {
    name in p.ignoreFiles
    || exists k :: 0 <= k < |p.ignoreWildcards| && p.fnmatch(name, p.ignoreWildcards[k])
  }

  /** `OverlayObject.make`: the names joined onto the directory paths. */
  function Make(o: Obj, srcDir: string, destDir: string): Obj {
    Obj(JoinPath(srcDir, o.src), JoinPath(destDir, o.dest), o.isPost, o.noExt)
  }

  function Candidate(p: Params, srcDir: string, destDir: string, e: Entry): Option<Item> {
    if Ignored(p, e.name) then None
    else match SplitExtension(p.myGroups, p.allGroups, e.name)
      case Dropped(_) => None
      case Classified(o, importance) => Some(Item(Make(o, srcDir, destDir), importance, e))
  }

  /** `arr` before sorting: the listing with ignored and dropped entries removed. */
  function Candidates(p: Params, srcDir: string, destDir: string, entries: seq<Entry>): (r: seq<Item>)
    ensures forall i :: 0 <= i < |r| ==> r[i].entry in entries
  {
    if entries == [] then []
    else
      var e := entries[|entries| - 1];
      var init := Candidates(p, srcDir, destDir, entries[..|entries| - 1]);
      assert forall i :: 0 <= i < |init| ==> init[i].entry in entries[..|entries| - 1];
      match Candidate(p, srcDir, destDir, e)
      case None => init
      case Some(it) => init + [it]
  }

  function ItemKey(it: Item): Key {
    PostFirstKey(it.obj, it.importance)
  }

  /** `arr` after `arr.sort(_sort_by_importance_post_first)`. */
  function Arrange(p: Params, srcDir: string, destDir: string, entries: seq<Entry>): (r: seq<Item>)
    ensures forall i :: 0 <= i < |r| ==> r[i].entry in entries
  {
    var c := Candidates(p, srcDir, destDir, entries);
    var r := Sort(c, ItemKey);
    assert forall i :: 0 <= i < |r| ==> r[i].entry in entries by {
      forall i | 0 <= i < |r| ensures r[i].entry in entries {
        assert r[i] in multiset(r);
        assert r[i] in multiset(c);
        var j :| 0 <= j < |c| && c[j] == r[i];
      }
    }
    r
  }

  /** The name starts with a dot (listing names are never empty). */
  predicate IsDotName(name: string) {
    |name| > 0 && name[0] == '.'
  }

  /** `_walk_subtree(src_dir, dest_dir, duplicates, callback)`: the new shared
      state and the return value. */
  function WalkDir(p: Params, cb: Callback, srcDir: string, destDir: string, entries: seq<Entry>, w: Walk): (r: (Walk, bool))
    decreases entries, 1
  {
    ProcessItems(p, cb, entries, Arrange(p, srcDir, destDir, entries), 0, map[], w)
  }

  /** The loop over `arr` from position `i`, with `post_dict` so far. */
  function ProcessItems(p: Params, cb: Callback, entries: seq<Entry>, items: seq<Item>, i: nat,
                        posts: map<string, string>, w: Walk): (r: (Walk, bool))
    requires i <= |items|
    requires forall k :: 0 <= k < |items| ==> items[k].entry in entries
    decreases entries, 0, |items| - i
  {
    if i == |items| then (w, true)
    else
      var it := items[i];
      var o := it.obj;
      if o.isPost then
        var posts' := if o.dest in posts then posts else posts[o.dest := o.src];
        ProcessItems(p, cb, entries, items, i + 1, posts', w)
      else if it.entry.isDir then
        if p.ignoreDotdirs && IsDotName(it.entry.name) then
          ProcessItems(p, cb, entries, items, i + 1, posts, w)
        else
          var (w1, go) := WalkDir(p, cb, o.src, o.dest, it.entry.children, w);
          if !go then (w1, false)
          else
            var v := Call(o.src, o.dest, true, posts);
            var w2 := Walk(w1.dups, w1.trace + [v]);
            if !cb(w1.trace, v) then (w2, false)
            else ProcessItems(p, cb, entries, items, i + 1, posts, w2)
      else if p.ignoreDotfiles && IsDotName(it.entry.name) then
        ProcessItems(p, cb, entries, items, i + 1, posts, w)
      else if p.requireExtension && o.noExt then
        ProcessItems(p, cb, entries, items, i + 1, posts, w)
      else if o.dest in w.dups then
        ProcessItems(p, cb, entries, items, i + 1, posts, w)
      else
        var v := Call(o.src, o.dest, false, posts);
        var w2 := Walk(w.dups + {o.dest}, w.trace + [v]);
        if !cb(w.trace, v) then (w2, false)
        else ProcessItems(p, cb, entries, items, i + 1, posts, w2)
  }

  /** A top-level directory of the overlay that belongs to one of my groups. */
  datatype Root = Root(path: string, importance: int, entry: Entry)

  function RootCandidates(p: Params, overlay: string, top: seq<Entry>): seq<Root> {
    if top == [] then []
    else
      var e := top[|top| - 1];
      var init := RootCandidates(p, overlay, top[..|top| - 1]);
      var importance := IndexOf(p.myGroups, e.name);
      if importance == -1 then init
      else init + [Root(JoinPath(overlay, e.name), importance, e)]
  }

  function RootKey(d: Root): Key {
    Key(0, d.importance)
  }

  /** `_toplevel(overlay)`: my group directories in ascending importance. */
  function Toplevel(p: Params, overlay: string, top: seq<Entry>): seq<Root> {
    Sort(RootCandidates(p, overlay, top), RootKey)
  }

  /** The loop of `visit` over the top-level directories, each walked with
      destination `/`, stopping at the first walk that returns false. */
  function VisitRoots(p: Params, cb: Callback, roots: seq<Root>, w: Walk): (r: (Walk, bool))
  {
    if roots == [] then (w, true)
    else
      var (w1, go) := WalkDir(p, cb, roots[0].path, "/", roots[0].entry.children, w);
      if !go then (w1, false) else VisitRoots(p, cb, roots[1..], w1)
  }

  /** `visit(overlay, callback)` with a fresh `duplicates` set: all the
      callback invocations, in order. */
  function VisitTrace(p: Params, cb: Callback, overlay: string, top: seq<Entry>): seq<Call> {
    VisitRoots(p, cb, Toplevel(p, overlay, top), Walk({}, [])).0.trace
  }
}
