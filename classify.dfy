/** Naming convention of the overlay tree: a directory entry `name._group`
    belongs to `group`, `name.post` is a post script, and the rest are plain
    entries. `SplitExtension` turns an entry name into its destination name,
    its importance (the rank of its group in the node's group list) and its
    role flags. */
module Classify {
  import opened Text
  import opened Seqs
  import opened Sorting

  /** `os.path.splitext` for a name without `/`: the extension starts at the
      last dot, provided some non-dot character comes before that dot. */
  function SplitExt(p: string): (r: (string, string))
    ensures r.0 + r.1 == p
    ensures r.1 != [] ==> r.1[0] == '.' && !AllDots(r.0)
    ensures forall k :: 0 < k < |r.1| ==> r.1[k] != '.'
    ensures r.1 == [] ==> forall k :: 0 <= k < RFind(p, '.') ==> p[k] == '.'
  {
    var dot := RFind(p, '.');
    if dot > 0 && !AllDots(p[..dot]) then (p[..dot], p[dot..]) else (p, [])
  }

  predicate AllDots(s: string) {
    forall k :: 0 <= k < |s| ==> s[k] == '.'
  }

  /** An entry of the overlay tree, before and after `make()` joins the
      directory paths onto its names. */
  datatype Obj = Obj(src: string, dest: string, isPost: bool, noExt: bool)

  datatype Split =
    | Classified(obj: Obj, importance: int)
      /** `(None, -1)`: a group tag that is not one of this node's groups;
          `reported` when it is not a known group at all. */
    | Dropped(reported: bool)

  /** `_split_extension`. `myGroups` is the node's group list, whose last
      index is the importance of untagged entries. */
  function SplitExtension(myGroups: seq<string>, allGroups: seq<string>, filename: string): (r: Split)
    ensures r.Classified? ==> r.obj.src == filename && StartsWith(filename, r.obj.dest)
    ensures r.Classified? && filename != [] ==> r.obj.dest != []
    ensures r.Classified? && r.obj.noExt ==>
              !r.obj.isPost && r.obj.dest == filename && r.importance == |myGroups| - 1
    ensures r.Classified? && !r.obj.noExt ==>
              (r.obj.isPost && r.importance == |myGroups| - 1 && filename == r.obj.dest + ".post")
              || (0 <= r.importance < |myGroups|
                  && filename == r.obj.dest + (if r.obj.isPost then ".post" else "") + "._" + myGroups[r.importance])
  {
    var groupAll := |myGroups| - 1;
    var (name, ext) := SplitExt(filename);
    if ext == [] then Classified(Obj(filename, name, false, true), groupAll)
    else if ext == ".post" then Classified(Obj(filename, name, true, false), groupAll)
    else if !StartsWith(ext, "._") then Classified(Obj(filename, filename, false, true), groupAll)
    else
      var tag := ext[2..];
      assert ext == "._" + tag;
      if tag == [] then Classified(Obj(filename, filename, false, true), groupAll)
      else GroupTagged(myGroups, allGroups, filename, name, tag)
  }

  /** The branch of `_split_extension` for a name `name._tag`. */
  function GroupTagged(myGroups: seq<string>, allGroups: seq<string>, filename: string, name: string, tag: string): (r: Split)
    requires filename == name + "._" + tag && !AllDots(name)
    ensures r.Classified? ==> r.obj.dest != []
    ensures r.Classified? ==> r.obj.src == filename && !r.obj.noExt && StartsWith(filename, r.obj.dest)
    ensures r.Classified? ==> 0 <= r.importance < |myGroups|
    ensures r.Classified? ==>
              filename == r.obj.dest + (if r.obj.isPost then ".post" else "") + "._" + myGroups[r.importance]
  {
    var importance := IndexOf(myGroups, tag);
    if importance == -1 then Dropped(tag !in allGroups)
    else
      var (name2, ext2) := SplitExt(name);
      if ext2 == ".post" then
        assert filename == name2 + ".post" + "._" + myGroups[importance];
        assert !AllDots(name2);
        Classified(Obj(filename, name2, true, false), importance)
      else Classified(Obj(filename, name, false, false), importance)
  }

  lemma {:induction false} RFindLast(s: string, c: char, t: string)
    requires c !in t
    ensures RFind(s + [c] + t, c) == |s|
    decreases |t|
  {
    if t != [] {
      assert (s + [c] + t)[..|s + [c] + t| - 1] == s + [c] + t[..|t| - 1];
      assert (s + [c] + t)[|s + [c] + t| - 1] == t[|t| - 1];
      RFindLast(s, c, t[..|t| - 1]);
    } else {
      assert s + [c] + t == s + [c];
    }
  }

  /** The extension of `base.ext` is `.ext` when `ext` has no dot and `base`
      is not only dots. */
  lemma SplitExtAppend(base: string, ext: string)
    requires !AllDots(base) && '.' !in ext
    ensures SplitExt(base + "." + ext) == (base, "." + ext)
  {
    var p := base + "." + ext;
    assert p == base + ['.'] + ext;
    RFindLast(base, '.', ext);
    assert p[..|base|] == base;
    assert p[|base|..] == "." + ext;
  }

  lemma SplitExtNoDot(p: string)
    requires '.' !in p
    ensures SplitExt(p) == (p, [])
  {
  }

  lemma TagExt(g: string)
    ensures "._" + g != [] && "._" + g != ".post"
    ensures StartsWith("._" + g, "._") && ("._" + g)[2..] == g
  {
    var ext := "._" + g;
    assert ext[1] == '_';
    assert ".post"[1] == 'p';
    assert ext[..2] == "._";
  }

  /** `name._g` for one of the node's groups: importance is the rank of `g`
      and the destination is `name`. */
  lemma TaggedEntry(myGroups: seq<string>, allGroups: seq<string>, base: string, g: string)
    requires g in myGroups && g != [] && '.' !in g
    requires !AllDots(base) && SplitExt(base).1 != ".post"
    ensures SplitExtension(myGroups, allGroups, base + "._" + g)
         == Classified(Obj(base + "._" + g, base, false, false), IndexOf(myGroups, g))
  {
    var f := base + "._" + g;
    TaggedSplit(base, g);
    var r := SplitExtension(myGroups, allGroups, f);
    assert SplitExt(f).1 == "._" + g;
  }

  lemma TaggedSplit(base: string, g: string)
    requires '.' !in g && !AllDots(base)
    ensures SplitExt(base + "._" + g) == (base, "._" + g)
    ensures "._" + g != [] && "._" + g != ".post"
    ensures StartsWith("._" + g, "._") && ("._" + g)[2..] == g
  {
    assert base + "._" + g == base + "." + ("_" + g);
    assert "." + ("_" + g) == "._" + g;
    SplitExtAppend(base, "_" + g);
    TagExt(g);
  }

  /** `name.post._g`: a post script for `name` in group `g`. */
  lemma TaggedPost(myGroups: seq<string>, allGroups: seq<string>, base: string, g: string)
    requires g in myGroups && g != [] && '.' !in g
    requires !AllDots(base)
    ensures SplitExtension(myGroups, allGroups, base + ".post._" + g)
         == Classified(Obj(base + ".post._" + g, base, true, false), IndexOf(myGroups, g))
  {
    var name := base + ".post";
    assert base + ".post._" + g == name + "._" + g;
    assert !AllDots(name) by { assert name[|base| + 1] == 'p'; }
    TaggedSplit(name, g);
    assert name == base + "." + "post";
    SplitExtAppend(base, "post");
    var f := name + "._" + g;
    assert SplitExt(f).1 == "._" + g;
    assert SplitExt(SplitExt(f).0) == (base, ".post");
  }

  /** `name.post`: a post script for `name` that applies to every node, with
      the importance of untagged entries. This includes `name._g.post`, whose
      destination is `name._g`. */
  lemma GenericPost(myGroups: seq<string>, allGroups: seq<string>, base: string)
    requires !AllDots(base)
    ensures SplitExtension(myGroups, allGroups, base + ".post")
         == Classified(Obj(base + ".post", base, true, false), |myGroups| - 1)
  {
    assert base + ".post" == base + "." + "post";
    SplitExtAppend(base, "post");
  }

  /** A name with a tag outside the node's groups is dropped; it is an error
      only when the tag is no group at all. */
  lemma ForeignTag(myGroups: seq<string>, allGroups: seq<string>, base: string, g: string)
    requires g !in myGroups && g != [] && '.' !in g
    requires !AllDots(base)
    ensures SplitExtension(myGroups, allGroups, base + "._" + g) == Dropped(g !in allGroups)
  {
    TaggedSplit(base, g);
  }

  /** A name without any dot is an untagged entry for itself. */
  lemma UntaggedEntry(myGroups: seq<string>, allGroups: seq<string>, name: string)
    requires '.' !in name
    ensures SplitExtension(myGroups, allGroups, name)
         == Classified(Obj(name, name, false, true), |myGroups| - 1)
  {
    SplitExtNoDot(name);
  }

  /** `base.ext` with any other extension (not `.post`, not a `._` tag,
      possibly just a trailing dot) is an untagged entry for the whole name. */
  lemma OtherExt(myGroups: seq<string>, allGroups: seq<string>, base: string, ext: string)
    requires !AllDots(base) && '.' !in ext && ext != "post" && (ext == [] || ext[0] != '_')
    ensures SplitExtension(myGroups, allGroups, base + "." + ext)
         == Classified(Obj(base + "." + ext, base + "." + ext, false, true), |myGroups| - 1)
  {
    SplitExtAppend(base, ext);
    var e := "." + ext;
    assert e[1..] == ext;
    assert ".post"[1..] == "post";
    assert |e| >= 2 ==> e[1] == ext[0];
    assert "._"[1] == '_';
  }

  /** `base._`, a tag with no group name, is an untagged entry for the whole
      name. */
  lemma EmptyTag(myGroups: seq<string>, allGroups: seq<string>, base: string)
    requires !AllDots(base)
    ensures SplitExtension(myGroups, allGroups, base + "._")
         == Classified(Obj(base + "._", base + "._", false, true), |myGroups| - 1)
  {
    assert base + "._" == base + "." + "_";
    SplitExtAppend(base, "_");
    TagExt("");
    assert "._" + "" == "._";
  }

  /** An entry is dropped exactly when its extension is `._t` for a nonempty
      `t` that is not one of the node's groups, and it is reported exactly
      when `t` is no group at all. */
  lemma DroppedExactly(myGroups: seq<string>, allGroups: seq<string>, filename: string)
    ensures SplitExtension(myGroups, allGroups, filename).Dropped?
        <==> (var ext := SplitExt(filename).1;
              StartsWith(ext, "._") && ext[2..] != [] && ext[2..] !in myGroups)
    ensures SplitExtension(myGroups, allGroups, filename).Dropped? ==>
              (SplitExtension(myGroups, allGroups, filename).reported
               <==> SplitExt(filename).1[2..] !in allGroups)
  {
    var (name, ext) := SplitExt(filename);
    if ext != [] && ext != ".post" && StartsWith(ext, "._") && ext[2..] != [] {
      var tag := ext[2..];
      assert ext == "._" + tag;
      assert filename == name + "._" + tag;
      assert (IndexOf(myGroups, tag) == -1) == (tag !in myGroups);
    } else if ext == ".post" {
      assert !StartsWith(ext, "._") by { assert ext[1] == 'p'; }
    }
  }

  /** `_sort_by_importance_post_first`, a Python `cmp` function. */
  function ComparePostFirst(o1: Obj, importance1: int, o2: Obj, importance2: int): int {
    if o1.isPost then
      if o2.isPost then Cmp(importance1, importance2) else -1
    else if o2.isPost then 1
    else Cmp(importance1, importance2)
  }

  function Cmp(a: int, b: int): int {
    if a < b then -1 else if a == b then 0 else 1
  }

  /** The sort key the comparator induces: post scripts first, then ascending
      importance. */
  function PostFirstKey(o: Obj, importance: int): Key {
    Key(if o.isPost then 0 else 1, importance)
  }

  /** The comparator orders two entries exactly as their keys do, so sorting
      with it is sorting by `PostFirstKey`. */
  lemma ComparatorIsKeyOrder(o1: Obj, i1: int, o2: Obj, i2: int)
    ensures ComparePostFirst(o1, i1, o2, i2) <= 0 <==> KeyLe(PostFirstKey(o1, i1), PostFirstKey(o2, i2))
    ensures ComparePostFirst(o1, i1, o2, i2) == 0 <==> PostFirstKey(o1, i1) == PostFirstKey(o2, i2)
  {
  }

  /** `_sort_by_importance` on (path, importance) pairs. */
  lemma ImportanceComparatorIsKeyOrder(i1: int, i2: int)
    ensures Cmp(i1, i2) <= 0 <==> KeyLe(Key(0, i1), Key(0, i2))
    ensures Cmp(i1, i2) == 0 <==> Key(0, i1) == Key(0, i2)
  {
  }
}
