/** Properties of the overlay walk: duplicate suppression across the whole
    walk, and early termination measured against the walk whose callback
    accepts every visit. */
module OverlayWalk {
  import opened Text
  import opened Seqs
  import opened Sorting
  import opened Classify
  import opened Overlay

  predicate Prefix<T(==)>(a: seq<T>, b: seq<T>) {
    |a| <= |b| && b[..|a|] == a
  }

  /** Destinations of the files (not directories) in a trace. */
  function FileDests(t: seq<Call>): set<string> {
    set k | 0 <= k < |t| && !t[k].isDir :: t[k].dest
  }

  /** No destination is visited twice as a file. */
  predicate DistinctFiles(t: seq<Call>) {
    forall i, j :: 0 <= i < j < |t| && !t[i].isDir && !t[j].isDir ==> t[i].dest != t[j].dest
  }

  /** `duplicates` holds exactly the destinations of the files visited, each
      of which was visited once. */
  predicate Sound(w: Walk) {
    w.dups == FileDests(w.trace) && DistinctFiles(w.trace)
  }

  lemma DirStepSound(w: Walk, v: Call)
    requires Sound(w) && v.isDir
    ensures Sound(Walk(w.dups, w.trace + [v]))
  {
    var t := w.trace + [v];
    assert forall k :: 0 <= k < |w.trace| ==> t[k] == w.trace[k];
    assert FileDests(t) == FileDests(w.trace);
  }

  lemma FileStepSound(w: Walk, v: Call)
    requires Sound(w) && !v.isDir && v.dest !in w.dups
    ensures Sound(Walk(w.dups + {v.dest}, w.trace + [v]))
  {
    var t := w.trace + [v];
    assert forall k :: 0 <= k < |w.trace| ==> t[k] == w.trace[k];
    assert t[|w.trace|] == v;
    assert FileDests(t) == FileDests(w.trace) + {v.dest};
  }

  lemma PrefixTrans<T>(a: seq<T>, b: seq<T>, c: seq<T>)
    requires Prefix(a, b) && Prefix(b, c)
    ensures Prefix(a, c)
  {
    assert c[..|a|] == c[..|b|][..|a|];
  }

  lemma PrefixSnoc<T>(a: seq<T>, x: T)
    ensures Prefix(a, a + [x])
  {
    assert (a + [x])[..|a|] == a;
  }

  /** A walk only appends to the trace and keeps `duplicates` sound. */
  lemma {:induction false} WalkDirSound(p: Params, cb: Callback, srcDir: string, destDir: string,
                                          entries: seq<Entry>, w: Walk)
    requires Sound(w)
    ensures Sound(WalkDir(p, cb, srcDir, destDir, entries, w).0)
    decreases entries, 1
  {
    ProcessItemsSound(p, cb, entries, Arrange(p, srcDir, destDir, entries), 0, map[], w);
  }

  lemma {:induction false} ProcessItemsSound(p: Params, cb: Callback, entries: seq<Entry>, items: seq<Item>,
                                               i: nat, posts: map<string, string>, w: Walk)
    requires i <= |items|
    requires forall k :: 0 <= k < |items| ==> items[k].entry in entries
    requires Sound(w)
    ensures Sound(ProcessItems(p, cb, entries, items, i, posts, w).0)
    decreases entries, 0, |items| - i
  {
    if i < |items| {
      var it := items[i];
      var o := it.obj;
      if o.isPost {
        var posts' := if o.dest in posts then posts else posts[o.dest := o.src];
        ProcessItemsSound(p, cb, entries, items, i + 1, posts', w);
      } else if it.entry.isDir {
        if p.ignoreDotdirs && IsDotName(it.entry.name) {
          ProcessItemsSound(p, cb, entries, items, i + 1, posts, w);
        } else {
          var (w1, go) := WalkDir(p, cb, o.src, o.dest, it.entry.children, w);
          WalkDirSound(p, cb, o.src, o.dest, it.entry.children, w);
          if go {
            var v := Call(o.src, o.dest, true, posts);
            var w2 := Walk(w1.dups, w1.trace + [v]);
            DirStepSound(w1, v);
            if cb(w1.trace, v) {
              ProcessItemsSound(p, cb, entries, items, i + 1, posts, w2);
            }
          }
        }
      } else if (p.ignoreDotfiles && IsDotName(it.entry.name)) || (p.requireExtension && o.noExt) || o.dest in w.dups {
        ProcessItemsSound(p, cb, entries, items, i + 1, posts, w);
      } else {
        var v := Call(o.src, o.dest, false, posts);
        var w2 := Walk(w.dups + {o.dest}, w.trace + [v]);
        FileStepSound(w, v);
        if cb(w.trace, v) {
          ProcessItemsSound(p, cb, entries, items, i + 1, posts, w2);
        }
      }
    }
  }

  /** A walk only appends to the trace. */
  lemma {:induction false} WalkDirExtends(p: Params, cb: Callback, srcDir: string, destDir: string,
                                            entries: seq<Entry>, w: Walk)
    ensures Prefix(w.trace, WalkDir(p, cb, srcDir, destDir, entries, w).0.trace)
    decreases entries, 1
  {
    ProcessItemsExtends(p, cb, entries, Arrange(p, srcDir, destDir, entries), 0, map[], w);
  }

  lemma {:induction false} ProcessItemsExtends(p: Params, cb: Callback, entries: seq<Entry>, items: seq<Item>,
                                                 i: nat, posts: map<string, string>, w: Walk)
    requires i <= |items|
    requires forall k :: 0 <= k < |items| ==> items[k].entry in entries
    ensures Prefix(w.trace, ProcessItems(p, cb, entries, items, i, posts, w).0.trace)
    decreases entries, 0, |items| - i
  {
    if i < |items| {
      var it := items[i];
      var o := it.obj;
      if o.isPost {
        var posts' := if o.dest in posts then posts else posts[o.dest := o.src];
        ProcessItemsExtends(p, cb, entries, items, i + 1, posts', w);
      } else if it.entry.isDir {
        if p.ignoreDotdirs && IsDotName(it.entry.name) {
          ProcessItemsExtends(p, cb, entries, items, i + 1, posts, w);
        } else {
          var (w1, go) := WalkDir(p, cb, o.src, o.dest, it.entry.children, w);
          WalkDirExtends(p, cb, o.src, o.dest, it.entry.children, w);
          if go {
            var v := Call(o.src, o.dest, true, posts);
            var w2 := Walk(w1.dups, w1.trace + [v]);
            PrefixSnoc(w1.trace, v);
            PrefixTrans(w.trace, w1.trace, w2.trace);
            if cb(w1.trace, v) {
              ProcessItemsExtends(p, cb, entries, items, i + 1, posts, w2);
              PrefixTrans(w.trace, w2.trace, ProcessItems(p, cb, entries, items, i + 1, posts, w2).0.trace);
            }
          }
        }
      } else if (p.ignoreDotfiles && IsDotName(it.entry.name)) || (p.requireExtension && o.noExt) || o.dest in w.dups {
        ProcessItemsExtends(p, cb, entries, items, i + 1, posts, w);
      } else {
        var v := Call(o.src, o.dest, false, posts);
        var w2 := Walk(w.dups + {o.dest}, w.trace + [v]);
        PrefixSnoc(w.trace, v);
        if cb(w.trace, v) {
          ProcessItemsExtends(p, cb, entries, items, i + 1, posts, w2);
          PrefixTrans(w.trace, w2.trace, ProcessItems(p, cb, entries, items, i + 1, posts, w2).0.trace);
        }
      }
    }
  }

  /** The sequence of top-level walks keeps `duplicates` sound: it is shared
      by all of them. */
  lemma {:induction false} VisitRootsSound(p: Params, cb: Callback, roots: seq<Root>, w: Walk)
    requires Sound(w)
    ensures Sound(VisitRoots(p, cb, roots, w).0)
  {
    if roots != [] {
      var (w1, go) := WalkDir(p, cb, roots[0].path, "/", roots[0].entry.children, w);
      WalkDirSound(p, cb, roots[0].path, "/", roots[0].entry.children, w);
      if go {
        VisitRootsSound(p, cb, roots[1..], w1);
      }
    }
  }

  /** Every destination reaches the callback at most once as a file in one
      `visit`, whatever the callback answers. */
  lemma VisitFilesOnce(p: Params, cb: Callback, overlay: string, top: seq<Entry>)
    ensures DistinctFiles(VisitTrace(p, cb, overlay, top))
  {
    assert Sound(Walk({}, []));
    VisitRootsSound(p, cb, Toplevel(p, overlay, top), Walk({}, []));
  }

  // ---------------------------------------------------------------------------
  // Early termination

  /** The callback of a full walk: every visit is accepted. */
  function AcceptAll(t: seq<Call>, v: Call): bool {
    true
  }

  /** The callback accepted every visit of `t` from position `from` on. */
  predicate Accepted(cb: Callback, t: seq<Call>, from: nat) {
    forall k :: from <= k < |t| ==> cb(t[..k], t[k])
  }

  /** How a walk with callback `cb` relates to the full walk from the same
      state: either it ran to completion, accepted everything and ended in the
      same state, or it stopped at a visit the callback refused, having
      accepted all earlier ones, with a trace that is a prefix of the full one. */
  predicate Stopped(cb: Callback, w: Walk, r: (Walk, bool), f: (Walk, bool)) {
    (r.1 ==> r.0 == f.0 && Accepted(cb, r.0.trace, |w.trace|))
    && (!r.1 ==> |w.trace| < |r.0.trace| && Prefix(r.0.trace, f.0.trace)
                 && Accepted(cb, r.0.trace[..|r.0.trace| - 1], |w.trace|)
                 && !cb(r.0.trace[..|r.0.trace| - 1], r.0.trace[|r.0.trace| - 1]))
  }

  /** A full walk always returns true. */
  lemma {:induction false} WalkDirCompletes(p: Params, srcDir: string, destDir: string, entries: seq<Entry>, w: Walk)
    ensures WalkDir(p, AcceptAll, srcDir, destDir, entries, w).1
    decreases entries, 1
  {
    ProcessItemsCompletes(p, entries, Arrange(p, srcDir, destDir, entries), 0, map[], w);
  }

  lemma {:induction false} ProcessItemsCompletes(p: Params, entries: seq<Entry>, items: seq<Item>,
                                                   i: nat, posts: map<string, string>, w: Walk)
    requires i <= |items|
    requires forall k :: 0 <= k < |items| ==> items[k].entry in entries
    ensures ProcessItems(p, AcceptAll, entries, items, i, posts, w).1
    decreases entries, 0, |items| - i
  {
    if i < |items| {
      var it := items[i];
      var o := it.obj;
      if o.isPost {
        var posts' := if o.dest in posts then posts else posts[o.dest := o.src];
        ProcessItemsCompletes(p, entries, items, i + 1, posts', w);
      } else if it.entry.isDir {
        if p.ignoreDotdirs && IsDotName(it.entry.name) {
          ProcessItemsCompletes(p, entries, items, i + 1, posts, w);
        } else {
          var (w1, go) := WalkDir(p, AcceptAll, o.src, o.dest, it.entry.children, w);
          WalkDirCompletes(p, o.src, o.dest, it.entry.children, w);
          var v := Call(o.src, o.dest, true, posts);
          ProcessItemsCompletes(p, entries, items, i + 1, posts, Walk(w1.dups, w1.trace + [v]));
        }
      } else if (p.ignoreDotfiles && IsDotName(it.entry.name)) || (p.requireExtension && o.noExt) || o.dest in w.dups {
        ProcessItemsCompletes(p, entries, items, i + 1, posts, w);
      } else {
        var v := Call(o.src, o.dest, false, posts);
        ProcessItemsCompletes(p, entries, items, i + 1, posts, Walk(w.dups + {o.dest}, w.trace + [v]));
      }
    }
  }

  lemma AcceptedSnoc(cb: Callback, t: seq<Call>, from: nat, v: Call)
    requires Accepted(cb, t, from) && cb(t, v) && from <= |t|
    ensures Accepted(cb, t + [v], from)
  {
    var t' := t + [v];
    forall k | from <= k < |t'| ensures cb(t'[..k], t'[k]) {
      if k < |t| {
        assert t'[..k] == t[..k];
      } else {
        assert t'[..k] == t;
      }
    }
  }

  lemma AcceptedTrans(cb: Callback, t: seq<Call>, a: nat, b: nat)
    requires a <= b <= |t| && Accepted(cb, t[..b], a) && Accepted(cb, t, b)
    ensures Accepted(cb, t, a)
  {
    forall k | a <= k < |t| ensures cb(t[..k], t[k]) {
      if k < b {
        assert t[..b][..k] == t[..k];
        assert t[..b][k] == t[k];
      }
    }
  }

  /** Continuing after an accepted step: the outcome of the rest relates to
      the full walk from the same state as it does from the state before. */
  lemma StoppedLater(cb: Callback, w: Walk, w2: Walk, r: (Walk, bool), f: (Walk, bool))
    requires Stopped(cb, w2, r, f)
    requires Prefix(w.trace, w2.trace) && Accepted(cb, w2.trace, |w.trace|)
    requires Prefix(w2.trace, r.0.trace)
    ensures Stopped(cb, w, r, f)
  {
    var t := r.0.trace;
    assert t[..|w2.trace|] == w2.trace;
    if r.1 {
      AcceptedTrans(cb, t, |w.trace|, |w2.trace|);
    } else {
      var t' := t[..|t| - 1];
      assert t'[..|w2.trace|] == w2.trace;
      AcceptedTrans(cb, t', |w.trace|, |w2.trace|);
    }
  }

  lemma {:induction false} WalkDirStops(p: Params, cb: Callback, srcDir: string, destDir: string,
                                          entries: seq<Entry>, w: Walk)
    ensures Stopped(cb, w, WalkDir(p, cb, srcDir, destDir, entries, w), WalkDir(p, AcceptAll, srcDir, destDir, entries, w))
    decreases entries, 1
  {
    ProcessItemsStops(p, cb, entries, Arrange(p, srcDir, destDir, entries), 0, map[], w);
  }

  lemma {:induction false} ProcessItemsStops(p: Params, cb: Callback, entries: seq<Entry>, items: seq<Item>,
                                               i: nat, posts: map<string, string>, w: Walk)
    requires i <= |items|
    requires forall k :: 0 <= k < |items| ==> items[k].entry in entries
    ensures Stopped(cb, w, ProcessItems(p, cb, entries, items, i, posts, w),
                    ProcessItems(p, AcceptAll, entries, items, i, posts, w))
    decreases entries, 0, |items| - i
  {
    if i < |items| {
      var it := items[i];
      var o := it.obj;
      if o.isPost {
        var posts' := if o.dest in posts then posts else posts[o.dest := o.src];
        ProcessItemsStops(p, cb, entries, items, i + 1, posts', w);
      } else if it.entry.isDir {
        if p.ignoreDotdirs && IsDotName(it.entry.name) {
          ProcessItemsStops(p, cb, entries, items, i + 1, posts, w);
        } else {
          DirStops(p, cb, entries, items, i, posts, w);
        }
      } else if (p.ignoreDotfiles && IsDotName(it.entry.name)) || (p.requireExtension && o.noExt) || o.dest in w.dups {
        ProcessItemsStops(p, cb, entries, items, i + 1, posts, w);
      } else {
        var v := Call(o.src, o.dest, false, posts);
        var w2 := Walk(w.dups + {o.dest}, w.trace + [v]);
        var f := ProcessItems(p, AcceptAll, entries, items, i + 1, posts, w2);
        ProcessItemsExtends(p, AcceptAll, entries, items, i + 1, posts, w2);
        if cb(w.trace, v) {
          ProcessItemsStops(p, cb, entries, items, i + 1, posts, w2);
          ProcessItemsExtends(p, cb, entries, items, i + 1, posts, w2);
          assert w2.trace[..|w.trace|] == w.trace;
          AcceptedSnoc(cb, w.trace, |w.trace|, v);
          StoppedLater(cb, w, w2, ProcessItems(p, cb, entries, items, i + 1, posts, w2), f);
        } else {
          assert w2.trace[..|w2.trace| - 1] == w.trace;
          assert f.0.trace[..|w2.trace|] == w2.trace;
        }
      }
    }
  }

  /** One step of `ProcessItems` on a directory item that is walked. */
  lemma DirUnfold(p: Params, cb: Callback, entries: seq<Entry>, items: seq<Item>,
                  i: nat, posts: map<string, string>, w: Walk)
    requires i < |items|
    requires forall k :: 0 <= k < |items| ==> items[k].entry in entries
    requires !items[i].obj.isPost && items[i].entry.isDir
    requires !(p.ignoreDotdirs && IsDotName(items[i].entry.name))
    ensures var o := items[i].obj;
            var r1 := WalkDir(p, cb, o.src, o.dest, items[i].entry.children, w);
            var v := Call(o.src, o.dest, true, posts);
            var w2 := Walk(r1.0.dups, r1.0.trace + [v]);
            ProcessItems(p, cb, entries, items, i, posts, w)
              == if !r1.1 then r1
                 else if !cb(r1.0.trace, v) then (w2, false)
                 else ProcessItems(p, cb, entries, items, i + 1, posts, w2)
  {
  }

  lemma StoppedExtend(cb: Callback, w: Walk, r: (Walk, bool), f1: (Walk, bool), f: (Walk, bool))
    requires Stopped(cb, w, r, f1) && !r.1 && Prefix(f1.0.trace, f.0.trace)
    ensures Stopped(cb, w, r, f)
  {
    PrefixTrans(r.0.trace, f1.0.trace, f.0.trace);
  }

  /** The directory case of `ProcessItemsStops`. */
  lemma {:induction false} DirStops(p: Params, cb: Callback, entries: seq<Entry>, items: seq<Item>,
                                      i: nat, posts: map<string, string>, w: Walk)
    requires i < |items|
    requires forall k :: 0 <= k < |items| ==> items[k].entry in entries
    requires !items[i].obj.isPost && items[i].entry.isDir
    requires !(p.ignoreDotdirs && IsDotName(items[i].entry.name))
    ensures Stopped(cb, w, ProcessItems(p, cb, entries, items, i, posts, w),
                    ProcessItems(p, AcceptAll, entries, items, i, posts, w))
    decreases entries, 0, |items| - i, 1
  {
    var o := items[i].obj;
    var children := items[i].entry.children;
    var r1 := WalkDir(p, cb, o.src, o.dest, children, w);
    var f1 := WalkDir(p, AcceptAll, o.src, o.dest, children, w);
    WalkDirStops(p, cb, o.src, o.dest, children, w);
    WalkDirCompletes(p, o.src, o.dest, children, w);
    WalkDirExtends(p, cb, o.src, o.dest, children, w);
    var v := Call(o.src, o.dest, true, posts);
    var fw2 := Walk(f1.0.dups, f1.0.trace + [v]);
    var f := ProcessItems(p, AcceptAll, entries, items, i + 1, posts, fw2);
    DirUnfold(p, AcceptAll, entries, items, i, posts, w);
    DirUnfold(p, cb, entries, items, i, posts, w);
    if !r1.1 {
      ProcessItemsExtends(p, AcceptAll, entries, items, i + 1, posts, fw2);
      PrefixSnoc(f1.0.trace, v);
      PrefixTrans(f1.0.trace, fw2.trace, f.0.trace);
      StoppedExtend(cb, w, r1, f1, f);
    } else {
      DirStopsGo(p, cb, entries, items, i, posts, w, r1, v, f);
    }
  }

  lemma {:induction false} DirStopsGo(p: Params, cb: Callback, entries: seq<Entry>, items: seq<Item>,
                                        i: nat, posts: map<string, string>, w: Walk,
                                        r1: (Walk, bool), v: Call, f: (Walk, bool))
    requires i < |items|
    requires forall k :: 0 <= k < |items| ==> items[k].entry in entries
    requires r1.1 && Prefix(w.trace, r1.0.trace) && Accepted(cb, r1.0.trace, |w.trace|)
    requires f == ProcessItems(p, AcceptAll, entries, items, i + 1, posts, Walk(r1.0.dups, r1.0.trace + [v]))
    ensures Stopped(cb, w, if !cb(r1.0.trace, v) then (Walk(r1.0.dups, r1.0.trace + [v]), false)
                           else ProcessItems(p, cb, entries, items, i + 1, posts, Walk(r1.0.dups, r1.0.trace + [v])), f)
    decreases entries, 0, |items| - i, 0
  {
    var w2 := Walk(r1.0.dups, r1.0.trace + [v]);
    ProcessItemsExtends(p, AcceptAll, entries, items, i + 1, posts, w2);
    PrefixSnoc(r1.0.trace, v);
    PrefixTrans(w.trace, r1.0.trace, w2.trace);
    if cb(r1.0.trace, v) {
      ProcessItemsStops(p, cb, entries, items, i + 1, posts, w2);
      ProcessItemsExtends(p, cb, entries, items, i + 1, posts, w2);
      AcceptedSnoc(cb, r1.0.trace, |w.trace|, v);
      StoppedLater(cb, w, w2, ProcessItems(p, cb, entries, items, i + 1, posts, w2), f);
    } else {
      assert w2.trace[..|w2.trace| - 1] == r1.0.trace;
      assert w2.trace[..|w.trace|] == w.trace;
    }
  }

  lemma {:induction false} VisitRootsExtends(p: Params, cb: Callback, roots: seq<Root>, w: Walk)
    ensures Prefix(w.trace, VisitRoots(p, cb, roots, w).0.trace)
  {
    if roots != [] {
      var (w1, go) := WalkDir(p, cb, roots[0].path, "/", roots[0].entry.children, w);
      WalkDirExtends(p, cb, roots[0].path, "/", roots[0].entry.children, w);
      if go {
        VisitRootsExtends(p, cb, roots[1..], w1);
        PrefixTrans(w.trace, w1.trace, VisitRoots(p, cb, roots[1..], w1).0.trace);
      }
    }
  }

  /** Early termination across the top-level directories: once the callback
      answers false, no later top-level directory is walked. */
  lemma {:induction false} VisitRootsStops(p: Params, cb: Callback, roots: seq<Root>, w: Walk)
    ensures Stopped(cb, w, VisitRoots(p, cb, roots, w), VisitRoots(p, AcceptAll, roots, w))
  {
    if roots != [] {
      var d := roots[0];
      var r1 := WalkDir(p, cb, d.path, "/", d.entry.children, w);
      var f1 := WalkDir(p, AcceptAll, d.path, "/", d.entry.children, w);
      WalkDirStops(p, cb, d.path, "/", d.entry.children, w);
      WalkDirCompletes(p, d.path, "/", d.entry.children, w);
      WalkDirExtends(p, cb, d.path, "/", d.entry.children, w);
      var f := VisitRoots(p, AcceptAll, roots[1..], f1.0);
      if !r1.1 {
        VisitRootsExtends(p, AcceptAll, roots[1..], f1.0);
        StoppedExtend(cb, w, r1, f1, f);
      } else {
        VisitRootsStops(p, cb, roots[1..], r1.0);
        VisitRootsExtends(p, cb, roots[1..], r1.0);
        StoppedLater(cb, w, r1.0, VisitRoots(p, cb, roots[1..], r1.0), f);
      }
    }
  }

  /** The first call in `t` for destination `d`. */
  function FirstWithDest(t: seq<Call>, d: string): (r: Option<Call>)
    ensures r.Some? ==> r.value in t && r.value.dest == d
    ensures r.None? ==> forall k :: 0 <= k < |t| ==> t[k].dest != d
  {
    if t == [] then None
    else if t[0].dest == d then Some(t[0])
    else FirstWithDest(t[1..], d)
  }

  lemma {:induction false} FirstWithDestPrefix(t: seq<Call>, f: seq<Call>, d: string)
    requires Prefix(t, f) && t != [] && t[|t| - 1].dest == d
    requires forall k :: 0 <= k < |t| - 1 ==> t[k].dest != d
    ensures FirstWithDest(f, d) == Some(t[|t| - 1])
  {
    if |t| > 1 {
      assert f[0] == t[0];
      assert Prefix(t[1..], f[1..]) by { assert f[1..][..|t[1..]|] == f[..|t|][1..]; }
      FirstWithDestPrefix(t[1..], f[1..], d);
    }
  }

  /** `_find_callback`: stop at the first object whose destination is the target. */
  function FindCallback(target: string): Callback {
    (t: seq<Call>, v: Call) => v.dest != target
  }

  /** What `find` returns, given the trace of its walk: `_FOUND` is the object
      the callback refused, which is the last one called, or None. */
  function Found(t: seq<Call>, target: string): Option<Call> {
    if t != [] && t[|t| - 1].dest == target then Some(t[|t| - 1]) else None
  }

  /** `find` returns the first object of the full walk whose destination is the
      target: the search sees every object the walk would select before it. */
  lemma FindIsFirstMatch(p: Params, overlay: string, top: seq<Entry>, target: string)
    ensures Found(VisitTrace(p, FindCallback(target), overlay, top), target)
         == FirstWithDest(VisitTrace(p, AcceptAll, overlay, top), target)
  {
    var roots := Toplevel(p, overlay, top);
    var w := Walk({}, []);
    VisitRootsStops(p, FindCallback(target), roots, w);
    FoundWhenStopped(target, w, VisitRoots(p, FindCallback(target), roots, w), VisitRoots(p, AcceptAll, roots, w));
  }

  /** A search stopped by `_find_callback` ended at the first object of the
      full walk with the target destination, or saw every object of it. */
  lemma FoundWhenStopped(target: string, w: Walk, r: (Walk, bool), f: (Walk, bool))
    requires w.trace == [] && Stopped(FindCallback(target), w, r, f)
    ensures Found(r.0.trace, target) == FirstWithDest(f.0.trace, target)
  {
    var cb := FindCallback(target);
    var t := r.0.trace;
    if r.1 {
      assert forall k :: 0 <= k < |t| ==> cb(t[..k], t[k]);
      assert forall k :: 0 <= k < |t| ==> t[k].dest != target;
    } else {
      var t' := t[..|t| - 1];
      assert forall k :: 0 <= k < |t'| ==> cb(t'[..k], t'[k]);
      assert forall k :: 0 <= k < |t| - 1 ==> t[k].dest != target by {
        forall k | 0 <= k < |t| - 1 ensures t[k].dest != target {
          assert t'[k] == t[k];
        }
      }
      FirstWithDestPrefix(t, f.0.trace, target);
    }
  }
}
