/** The overlay walk as the program performs it: `_walk_subtree` builds and
    sorts its list of entries, fills `post_dict` in place and adds to the
    `duplicates` set it shares with every other directory of the walk;
    `visit`, `find` and `find_terse` sit on top. */
module OverlayWalker {
  import opened Text
  import opened Seqs
  import opened Sorting
  import opened Classify
  import opened Overlay
  import opened OverlayWalk
  import opened OverlayOrder

  /** The wildcard loop of `_walk_subtree`: does `name` match one of the
      ignore patterns? */
  method MatchesWildcard(p: Params, name: string) returns (wildcardMatch: bool)
    ensures wildcardMatch <==> exists k :: 0 <= k < |p.ignoreWildcards| && p.fnmatch(name, p.ignoreWildcards[k])
  {
    wildcardMatch := false;
    var k := 0;
    while k < |p.ignoreWildcards|
      invariant k <= |p.ignoreWildcards|
      invariant forall j :: 0 <= j < k ==> !p.fnmatch(name, p.ignoreWildcards[j])
    {
      if p.fnmatch(name, p.ignoreWildcards[k]) {
        wildcardMatch := true;
        break;
      }
      k := k + 1;
    }
  }

  /** The first loop of `_walk_subtree`: `arr` built from the listing, before
      it is sorted. */
  method Listing(p: Params, srcDir: string, destDir: string, entries: seq<Entry>) returns (arr: seq<Item>)
    ensures arr == Candidates(p, srcDir, destDir, entries)
  {
    arr := [];
    var n := 0;
    while n < |entries|
      invariant n <= |entries|
      invariant arr == Candidates(p, srcDir, destDir, entries[..n])
    {
      assert entries[..n + 1][..n] == entries[..n];
      var it := ListEntry(p, srcDir, destDir, entries[n]);
      if it.Some? {
        arr := arr + [it.value];
      }
      n := n + 1;
    }
    assert entries[..n] == entries;
  }

  /** One turn of that loop: an ignored name, a wildcard match or a name
      for another group adds nothing. */
  method ListEntry(p: Params, srcDir: string, destDir: string, entry: Entry) returns (it: Option<Item>)
    ensures it == Candidate(p, srcDir, destDir, entry)
  {
    if entry.name in p.ignoreFiles {
      return None;
    }
    // check the wildcards before any group extension is examined
    var wildcardMatch := MatchesWildcard(p, entry.name);
    if wildcardMatch {
      return None;
    }
    match SplitExtension(p.myGroups, p.allGroups, entry.name)
    case Dropped(_) =>
      it := None;
    case Classified(o, importance) =>
      it := Some(Item(Make(o, srcDir, destDir), importance, entry));
  }

  /** The state of one `visit`: the shared `duplicates` set, and the calls the
      callback has received. */
  class Walker {
    var duplicates: set<string>
    var trace: seq<Call>

    constructor ()
      ensures duplicates == {} && trace == []
    {
      duplicates := {};
      trace := [];
    }

    /** A directory entry of `_walk_subtree`: its contents are walked, then the
        callback runs on the directory itself. */
    method WalkDirectory(p: Params, cb: Callback, o: Obj, children: seq<Entry>, postDict: map<string, string>)
      returns (go: bool)
      modifies this
      ensures var r1 := WalkDir(p, cb, o.src, o.dest, children, Walk(old(duplicates), old(trace)));
              var v := Call(o.src, o.dest, true, postDict);
              && go == (r1.1 && cb(r1.0.trace, v))
              && Walk(duplicates, trace) == (if r1.1 then Walk(r1.0.dups, r1.0.trace + [v]) else r1.0)
      decreases children, 2
    {
      var sub := WalkSubtree(p, cb, o.src, o.dest, children);
      if !sub {
        return false;
      }
      var v := Call(o.src, o.dest, true, postDict);
      go := cb(trace, v);
      trace := trace + [v];
    }

    /** A file entry of `_walk_subtree` whose destination is new: it is added
        to `duplicates` and handed to the callback. */
    method SelectFile(p: Params, cb: Callback, o: Obj, postDict: map<string, string>) returns (go: bool)
      modifies this
      ensures var v := Call(o.src, o.dest, false, postDict);
              && go == cb(old(trace), v)
              && duplicates == old(duplicates) + {o.dest} && trace == old(trace) + [v]
    {
      duplicates := duplicates + {o.dest};
      var v := Call(o.src, o.dest, false, postDict);
      go := cb(trace, v);
      trace := trace + [v];
    }

    /** `_walk_subtree(src_dir, dest_dir, duplicates, callback)`. */
    method WalkSubtree(p: Params, cb: Callback, srcDir: string, destDir: string, entries: seq<Entry>)
      returns (go: bool)
      modifies this
      ensures (Walk(duplicates, trace), go) == WalkDir(p, cb, srcDir, destDir, entries, Walk(old(duplicates), old(trace)))
      decreases entries, 1
    {
      var arr := Listing(p, srcDir, destDir, entries);
      // post scripts first: post_dict has them when they are needed
      arr := Sort(arr, ItemKey);
      var postDict: map<string, string> := map[];
      var i := 0;
      while i < |arr|
        invariant i <= |arr|
        invariant forall k :: 0 <= k < |arr| ==> arr[k].entry in entries
        invariant postDict == PostDict(arr[..i])
        invariant WalkDir(p, cb, srcDir, destDir, entries, Walk(old(duplicates), old(trace)))
               == ProcessItems(p, cb, entries, arr, i, postDict, Walk(duplicates, trace))
      {
        var it := arr[i];
        var o := it.obj;
        PostDictSnoc(arr, i);
        i := i + 1;
        if o.isPost {
          if o.dest in postDict {
            continue;
          }
          postDict := postDict[o.dest := o.src];
          continue;
        }
        if it.entry.isDir {
          if p.ignoreDotdirs && IsDotName(it.entry.name) {
            continue;
          }
          var ok := WalkDirectory(p, cb, o, it.entry.children, postDict);
          if !ok {
            return false;
          }
          continue;
        }
        if p.ignoreDotfiles && IsDotName(it.entry.name) {
          continue;
        }
        if p.requireExtension && o.noExt {
          continue;
        }
        if o.dest in duplicates {
          // a more important source for this destination was selected before
          continue;
        }
        var ok := SelectFile(p, cb, o, postDict);
        if !ok {
          return false;
        }
      }
      return true;
    }
  }

  /** `visit(overlay, callback)`: the calls the callback receives. */
  method Visit(p: Params, cb: Callback, overlay: string, top: seq<Entry>) returns (calls: seq<Call>)
    ensures calls == VisitTrace(p, cb, overlay, top)
  {
    var walker := new Walker();
    var roots := Toplevel(p, overlay, top);
    var i := 0;
    var go := true;
    while i < |roots| && go
      invariant i <= |roots|
      invariant go ==>
                  VisitRoots(p, cb, roots, Walk({}, [])) == VisitRoots(p, cb, roots[i..], Walk(walker.duplicates, walker.trace))
      invariant !go ==> VisitRoots(p, cb, roots, Walk({}, [])).0 == Walk(walker.duplicates, walker.trace)
    {
      assert roots[i..][1..] == roots[i + 1..];
      go := walker.WalkSubtree(p, cb, roots[i].path, "/", roots[i].entry.children);
      i := i + 1;
    }
    calls := walker.trace;
  }

  /** What `_find_callback` left in `_FOUND` once the walk is over. */
  method LastIfDest(calls: seq<Call>, target: string) returns (found: Option<Call>)
    ensures found == Found(calls, target)
  {
    found := None;
    if calls != [] {
      var last := calls[|calls| - 1];
      if last.dest == target {
        found := Some(last);
      }
    }
  }

  /** `find(overlay, dest_path)`: the first object of the walk whose
      destination is `target`, or None. */
  method Find(p: Params, overlay: string, top: seq<Entry>, target: string) returns (found: Option<Call>)
    ensures found == FirstWithDest(VisitTrace(p, AcceptAll, overlay, top), target)
  {
    var calls := Visit(p, FindCallback(target), overlay, top);
    FindIsFirstMatch(p, overlay, top, target);
    // _find_callback stored the object it refused, which ended the walk
    found := LastIfDest(calls, target);
  }
}
