/** `find_terse`: a terse path `head...ending` names the overlay entry whose
    destination ends with `ending`, provided exactly one entry does. */
module OverlayTerse {
  import opened Text
  import opened Classify

  datatype TerseResult =
    | NotTerse           // no `...`: the path is handed to a plain `find`
    | NotFound
    | FoundMultiple
    | Found(obj: Obj)
    | IndexError         // `ending[-1]` on an empty ending

  /** The destination is strictly longer than `ending` and ends with it. */
  predicate TerseMatch(o: Obj, ending: string) {
    |o.dest| > |ending| && EndsWith(o.dest, ending)
  }

  /** `matches`: the entries that match `ending`, in list order. */
  function Matches(files: seq<Obj>, ending: string): (r: seq<Obj>)
    ensures |r| <= |files|
  {
    if files == [] then []
    else
      var init := files[..|files| - 1];
      var o := files[|files| - 1];
      if TerseMatch(o, ending) then Matches(init, ending) + [o] else Matches(init, ending)
  }

  /** The matches are exactly the entries that match. */
  lemma {:induction false} MatchesMembers(files: seq<Obj>, ending: string, o: Obj)
    ensures o in Matches(files, ending) <==> o in files && TerseMatch(o, ending)
  {
    if files != [] {
      var init := files[..|files| - 1];
      assert files == init + [files[|files| - 1]];
      MatchesMembers(init, ending, o);
    }
  }

  function Outcome(matches: seq<Obj>): TerseResult {
    if matches == [] then NotFound
    else if |matches| > 1 then FoundMultiple
    else Found(matches[0])
  }

  /** The ending of a terse path: what follows its first `...`. */
  function Ending(tersePath: string): string
    requires FindSub(tersePath, "...") != -1
  {
    tersePath[FindSub(tersePath, "...") + 3..]
  }

  /** `find_terse` with the quick last-character test applied only to a
      non-empty ending. */
  function Terse(files: seq<Obj>, tersePath: string): TerseResult {
    if FindSub(tersePath, "...") == -1 then NotTerse
    else Outcome(Matches(files, Ending(tersePath)))
  }

  /** The terse lookup succeeds exactly when one entry matches, and then it
      returns that entry. */
  lemma TerseFoundUnique(files: seq<Obj>, tersePath: string, o: Obj)
    requires FindSub(tersePath, "...") != -1
    ensures Terse(files, tersePath) == Found(o) <==> Matches(files, Ending(tersePath)) == [o]
    ensures Terse(files, tersePath) == Found(o) ==> o in files && TerseMatch(o, Ending(tersePath))
  {
    var m := Matches(files, Ending(tersePath));
    if Terse(files, tersePath) == Found(o) {
      assert |m| == 1 && m[0] == o;
      assert m == [o];
      MatchesMembers(files, Ending(tersePath), o);
    }
  }

  /** The loop of `find_terse` as written: the quick test reads `ending[-1]`
      whenever a destination is longer than the ending; None is the
      IndexError that raises on an empty ending. */
  function MatchesAsWritten(files: seq<Obj>, ending: string): Option<seq<Obj>> {
    if files == [] then Some([])
    else
      match MatchesAsWritten(files[..|files| - 1], ending)
      case None => None
      case Some(m) =>
        var o := files[|files| - 1];
        var l := |o.dest|;
        if l > |ending| then
          if ending == [] then None
          else if o.dest[l - 1] != ending[|ending| - 1] then Some(m)
          else if o.dest[l - |ending|..] == ending then Some(m + [o])
          else Some(m)
        else Some(m)
  }

  function TerseAsWritten(files: seq<Obj>, tersePath: string): TerseResult {
    if FindSub(tersePath, "...") == -1 then NotTerse
    else match MatchesAsWritten(files, Ending(tersePath))
      case None => IndexError
      case Some(m) => Outcome(m)
  }

  /** With a non-empty ending the quick test only skips entries that cannot
      match, so the code as written computes the intended matches. */
  lemma {:induction false} MatchesAsWrittenAgrees(files: seq<Obj>, ending: string)
    requires ending != []
    ensures MatchesAsWritten(files, ending) == Some(Matches(files, ending))
  {
    if files != [] {
      MatchesAsWrittenAgrees(files[..|files| - 1], ending);
      var o := files[|files| - 1];
      var l := |o.dest|;
      if l > |ending| && o.dest[l - 1] != ending[|ending| - 1] {
        assert o.dest[l - |ending|..][|ending| - 1] == o.dest[l - 1];
      }
    }
  }

  /** A terse path that ends in `...` crashes the code as written as soon as
      some entry has a non-empty destination. */
  lemma TerseEmptyEndingCrashes()
    ensures TerseAsWritten([Obj("/overlay/all/motd._all", "/motd", false, false)], "/...") == IndexError
    ensures Terse([Obj("/overlay/all/motd._all", "/motd", false, false)], "/...")
         == Found(Obj("/overlay/all/motd._all", "/motd", false, false))
  {
    assert "/..."[1..4] == "...";
    assert "/..."[0..3][0] == '/';
    assert FindSub("/...", "...") == 1;
    assert Ending("/...") == [];
    var files := [Obj("/overlay/all/motd._all", "/motd", false, false)];
    assert MatchesAsWritten(files[..0], []) == Some([]);
    assert EndsWith("/motd", []);
    assert Matches(files[..0], []) == [];
  }

  /** The test of one entry in the loop of `find_terse`, the quick
      last-character test first; it is skipped for an empty ending. */
  method TestEnding(o: Obj, ending: string) returns (matched: bool)
    ensures matched <==> TerseMatch(o, ending)
  {
    var l := |o.dest|;
    if l <= |ending| {
      return false;
    }
    // first do a quick test
    if |ending| > 0 && o.dest[l - 1] != ending[|ending| - 1] {
      assert o.dest[l - |ending|..][|ending| - 1] == o.dest[l - 1];
      return false;
    }
    matched := o.dest[l - |ending|..] == ending;
  }

  /** `find_terse(treedef, terse_path)`, with the entries of the selected tree
      given as a list. */
  method FindTerse(files: seq<Obj>, tersePath: string) returns (r: TerseResult)
    ensures r == Terse(files, tersePath)
    ensures r != IndexError
  {
    var idx := FindSub(tersePath, "...");
    if idx == -1 {
      return NotTerse;
    }
    var ending := tersePath[idx + 3..];
    var matches: seq<Obj> := [];
    var n := 0;
    while n < |files|
      invariant n <= |files|
      invariant matches == Matches(files[..n], ending)
    {
      assert files[..n + 1][..n] == files[..n];
      var matched := TestEnding(files[n], ending);
      if matched {
        matches := matches + [files[n]];
      }
      n := n + 1;
    }
    assert files[..n] == files;
    if matches == [] {
      return NotFound;
    }
    if |matches| > 1 {
      return FoundMultiple;
    }
    return Found(matches[0]);
  }
}
