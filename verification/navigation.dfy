/**
 * Stepping through a set of loaded fields, from src/VectorFieldSet.cpp: the
 * bookkeeping of the constructor (`mNameToIdx`, `mIdxToName`), `display`,
 * `field`, `nextModel`, `previousModel`, `firstModel`, `lastModel`,
 * `toggleGeometry`, `toggleIsosurface` and `currentDisplayName`.
 *
 * Rendering is abstracted away: `arrows(name)` says whether the loaded field
 * `name` has an arrow actor, the one thing `display` decides on. An operation
 * whose C++ counterpart has undefined behaviour (dereferencing the null
 * returned by `field` for an unknown name, indexing past the end of
 * `mIdxToName`, `back()` of an empty vector) yields `None`.
 */
module Navigation {
  import opened Results
  import Paths
  import Streams

  // ---------------------------------------------------------------------------
  // The order of `std::sort` on `std::string`
  // ---------------------------------------------------------------------------

  /** Lexicographic `<=` on strings, character by character. */
  predicate StrLe(a: string, b: string)
    decreases |a|
  {
    |a| == 0 || (|b| > 0 && (a[0] < b[0] || (a[0] == b[0] && StrLe(a[1..], b[1..]))))
  }

  lemma {:induction false} StrLeTotal(a: string, b: string)
    ensures StrLe(a, b) || StrLe(b, a)
    decreases |a|
  {
    if |a| > 0 && |b| > 0 && a[0] == b[0] {
      StrLeTotal(a[1..], b[1..]);
    }
  }

  lemma {:induction false} StrLeTrans(a: string, b: string, c: string)
    requires StrLe(a, b) && StrLe(b, c)
    ensures StrLe(a, c)
    decreases |a|
  {
    if |a| > 0 && a[0] == b[0] && b[0] == c[0] {
      StrLeTrans(a[1..], b[1..], c[1..]);
    }
  }

  lemma {:induction false} StrLeAntisym(a: string, b: string)
    requires StrLe(a, b) && StrLe(b, a)
    ensures a == b
    decreases |a|
  {
    if |a| > 0 {
      StrLeAntisym(a[1..], b[1..]);
      assert a == [a[0]] + a[1..] && b == [b[0]] + b[1..];
    }
  }

  ghost predicate Sorted(s: seq<string>) {
    forall i, j :: 0 <= i < j < |s| ==> StrLe(s[i], s[j])
  }

  /** `x` placed before the first element it does not exceed. */
  function InsertSorted(x: string, s: seq<string>): (r: seq<string>)
    requires Sorted(s)
    ensures Sorted(r)
    ensures multiset(r) == multiset(s) + multiset{x}
    ensures |r| == |s| + 1
    decreases |s|
  {
    if |s| == 0 || StrLe(x, s[0]) then
      InsertFront(x, s);
      [x] + s
    else
      var rest := InsertSorted(x, s[1..]);
      StrLeTotal(x, s[0]);
      InsertBelow(s, x, rest);
      assert s == [s[0]] + s[1..];
      [s[0]] + rest
  }

  lemma InsertFront(x: string, s: seq<string>)
    requires Sorted(s)
    requires |s| == 0 || StrLe(x, s[0])
    ensures Sorted([x] + s)
  {
    var r := [x] + s;
    forall i, j | 0 <= i < j < |r|
      ensures StrLe(r[i], r[j])
    {
      if i == 0 && j > 1 {
        StrLeTrans(x, s[0], s[j - 1]);
      }
    }
  }

  lemma InsertBelow(s: seq<string>, x: string, rest: seq<string>)
    requires |s| > 0 && Sorted(s) && StrLe(s[0], x)
    requires Sorted(rest) && multiset(rest) == multiset(s[1..]) + multiset{x}
    ensures Sorted([s[0]] + rest)
  {
    var r := [s[0]] + rest;
    forall j | 0 <= j < |rest|
      ensures StrLe(s[0], rest[j])
    {
      assert rest[j] in multiset(rest);
      if rest[j] != x {
        assert rest[j] in multiset(s[1..]);
        var k :| 0 <= k < |s[1..]| && s[1..][k] == rest[j];
        assert s[k + 1] == rest[j];
      }
    }
    forall i, j | 0 <= i < j < |r|
      ensures StrLe(r[i], r[j])
    {
      if i > 0 {
        assert r[i] == rest[i - 1] && r[j] == rest[j - 1];
      } else {
        assert r[j] == rest[j - 1];
      }
    }
  }

  /** `std::sort` of the paths: the sorted arrangement of the same paths, duplicates kept. */
  function Sort(s: seq<string>): (r: seq<string>)
    ensures Sorted(r)
    ensures multiset(r) == multiset(s)
    ensures |r| == |s|
    decreases |s|
  {
    if |s| == 0 then []
    else
      assert s == [s[0]] + s[1..];
      InsertSorted(s[0], Sort(s[1..]))
  }

  /** Sorting a sorted list changes nothing. */
  lemma {:induction false} SortSorted(s: seq<string>)
    requires Sorted(s)
    ensures Sort(s) == s
    decreases |s|
  {
    if |s| > 0 {
      SortSorted(s[1..]);
      assert [s[0]] + s[1..] == s;
    }
  }

  // ---------------------------------------------------------------------------
  // The set and its construction
  // ---------------------------------------------------------------------------

  /**
   * `VectorFieldSet` without its rendering state: `names` is `mIdxToName`,
   * `index` is `mNameToIdx`, `loaded` holds the keys of `mFields`, `current`
   * is `mCurrentName` (empty until a field is shown) and the two display flags.
   */
  datatype FieldSet = FieldSet(
    names: seq<string>,
    index: map<string, nat>,
    loaded: set<string>,
    current: string,
    withGeometry: bool,
    withIsosurface: bool)

  /**
   * The positions `mNameToIdx.insert({p, i})` leaves behind: `insert` does
   * not overwrite, so a repeated path keeps its first position.
   */
  function FirstPositions(paths: seq<string>): (m: map<string, nat>)
    ensures forall p :: p in m <==> p in paths
    ensures forall p :: p in m ==> m[p] < |paths| && paths[m[p]] == p
    ensures forall p, j :: p in m && 0 <= j < m[p] ==> paths[j] != p
    decreases |paths|
  {
    if |paths| == 0 then map[]
    else
      var init := paths[..|paths| - 1];
      var last := paths[|paths| - 1];
      assert paths == init + [last];
      var m := FirstPositions(init);
      if last in m then m else m[last := |paths| - 1]
  }

  /** `mIdxToName[mNameToIdx[p]] == p` for every recorded name. */
  ghost predicate Consistent(fs: FieldSet) {
    forall p :: p in fs.index ==> fs.index[p] < |fs.names| && fs.names[fs.index[p]] == p
  }

  /**
   * The constructor: every path is loaded, `mIdxToName` is sorted, but
   * `mNameToIdx` holds each path's position in the INPUT.
   */
  function Build(paths: seq<string>): (r: FieldSet)
    ensures Sorted(r.names) && multiset(r.names) == multiset(paths)
    ensures forall p :: p in r.loaded <==> p in paths
    ensures forall p :: p in r.index <==> p in paths
    ensures forall p :: p in r.index ==> r.index[p] < |paths| && paths[r.index[p]] == p
    ensures r.current == "" && !r.withGeometry && !r.withIsosurface
  {
    FieldSet(Sort(paths), FirstPositions(paths), set p | p in paths, "", false, false)
  }

  /** The constructor with `mNameToIdx` built from the sorted list instead. */
  function BuildSorted(paths: seq<string>): (r: FieldSet)
    ensures Sorted(r.names) && multiset(r.names) == multiset(paths)
    ensures forall p :: p in r.loaded <==> p in paths
    ensures forall p :: p in r.index <==> p in paths
    ensures Consistent(r)
    ensures r.current == "" && !r.withGeometry && !r.withIsosurface
  {
    var names := Sort(paths);
    assert forall p :: p in names <==> p in paths by {
      forall p ensures p in names <==> p in paths {
        assert p in names <==> p in multiset(names);
        assert p in paths <==> p in multiset(paths);
      }
    }
    FieldSet(names, FirstPositions(names), set p | p in paths, "", false, false)
  }

  ghost predicate Distinct(s: seq<string>) {
    forall i, j :: 0 <= i < j < |s| ==> s[i] != s[j]
  }

  /**
   * The name list and the index map of the constructor agree exactly when
   * the paths came in sorted order (for paths without repeats).
   */
  lemma BuildConsistentIffSorted(paths: seq<string>)
    requires Distinct(paths)
    ensures Consistent(Build(paths)) <==> Sorted(paths)
  {
    var fs := Build(paths);
    if Sorted(paths) {
      SortSorted(paths);
    }
    if Consistent(fs) {
      forall i | 0 <= i < |paths|
        ensures fs.names[i] == paths[i]
      {
        var p := paths[i];
        assert p in fs.index;
        assert fs.index[p] == i;
      }
      assert fs.names == paths;
    }
  }

  // ---------------------------------------------------------------------------
  // Operations
  // ---------------------------------------------------------------------------

  /** `field(name)` is non-null exactly for a loaded name. */
  predicate HasField(fs: FieldSet, name: string) {
    name in fs.loaded
  }

  /**
   * `display(name)`: an unknown name is dereferenced as null; a field with an
   * arrow actor becomes the current one; otherwise nothing changes.
   */
  function Display(fs: FieldSet, name: string, arrows: string -> bool): (r: Option<FieldSet>)
    ensures r.None? <==> !HasField(fs, name)
    ensures r.Some? && arrows(name) ==> r.value == fs.(current := name)
    ensures r.Some? && !arrows(name) ==> r.value == fs
  {
    if !HasField(fs, name) then None
    else if arrows(name) then Some(fs.(current := name))
    else Some(fs)
  }

  /**
   * `mNameToIdx[mCurrentName]`: the current name's index; `operator[]`
   * inserts a missing name with index 0 and reads that.
   */
  function CurrentIndex(fs: FieldSet): (r: (nat, FieldSet))
    ensures fs.current in fs.index ==> r == (fs.index[fs.current], fs)
    ensures fs.current !in fs.index ==> r.0 == 0 && r.1 == fs.(index := fs.index[fs.current := 0])
  {
    if fs.current in fs.index then (fs.index[fs.current], fs)
    else (0, fs.(index := fs.index[fs.current := 0]))
  }

  /** `nextModel`: nothing at the last index, otherwise the next name in the list. */
  function Next(fs: FieldSet, arrows: string -> bool): (r: Option<FieldSet>)
    ensures |fs.names| == 0 ==> r.None?
    ensures r.Some? ==> r.value.names == fs.names && r.value.loaded == fs.loaded
    ensures r.Some? ==> r.value.withGeometry == fs.withGeometry && r.value.withIsosurface == fs.withIsosurface
    ensures r.Some? ==> r.value.current == fs.current || r.value.current in fs.names
  {
    var (i, fs1) := CurrentIndex(fs);
    if i + 1 == |fs1.names| then Some(fs1)
    else if i + 1 < |fs1.names| then Display(fs1, fs1.names[i + 1], arrows)
    else None
  }

  /** `previousModel`: nothing at index 0, otherwise the previous name in the list. */
  function Previous(fs: FieldSet, arrows: string -> bool): (r: Option<FieldSet>)
    ensures r.Some? ==> r.value.names == fs.names && r.value.loaded == fs.loaded
    ensures r.Some? ==> r.value.withGeometry == fs.withGeometry && r.value.withIsosurface == fs.withIsosurface
    ensures r.Some? ==> r.value.current == fs.current || r.value.current in fs.names
  {
    var (i, fs1) := CurrentIndex(fs);
    if i == 0 then Some(fs1)
    else if i - 1 < |fs1.names| then Display(fs1, fs1.names[i - 1], arrows)
    else None
  }

  /** `firstModel`. */
  function First(fs: FieldSet, arrows: string -> bool): (r: Option<FieldSet>)
    ensures |fs.names| == 0 ==> r.None?
  {
    if |fs.names| == 0 then None else Display(fs, fs.names[0], arrows)
  }

  /** `lastModel`. */
  function Last(fs: FieldSet, arrows: string -> bool): (r: Option<FieldSet>)
    ensures |fs.names| == 0 ==> r.None?
  {
    if |fs.names| == 0 then None else Display(fs, fs.names[|fs.names| - 1], arrows)
  }

  /** `toggleGeometry`: flip the flag, then show the field at the current index again. */
  function ToggleGeometry(fs: FieldSet, arrows: string -> bool): (r: Option<FieldSet>)
    ensures r.Some? ==> r.value.withGeometry == !fs.withGeometry
    ensures r.Some? ==> r.value.withIsosurface == fs.withIsosurface
    ensures r.Some? ==> r.value.names == fs.names && r.value.loaded == fs.loaded
  {
    var (i, fs1) := CurrentIndex(fs);
    var fs2 := fs1.(withGeometry := !fs1.withGeometry);
    if i < |fs2.names| then Display(fs2, fs2.names[i], arrows) else None
  }

  /** `toggleIsosurface`: flip the flag, then show the field at the current index again. */
  function ToggleIsosurface(fs: FieldSet, arrows: string -> bool): (r: Option<FieldSet>)
    ensures r.Some? ==> r.value.withIsosurface == !fs.withIsosurface
    ensures r.Some? ==> r.value.withGeometry == fs.withGeometry
    ensures r.Some? ==> r.value.names == fs.names && r.value.loaded == fs.loaded
  {
    var (i, fs1) := CurrentIndex(fs);
    var fs2 := fs1.(withIsosurface := !fs1.withIsosurface);
    if i < |fs2.names| then Display(fs2, fs2.names[i], arrows) else None
  }

  /**
   * `currentDisplayName`: the last path token of the current name. While no
   * field has been made current the name is empty, splitting it yields no
   * tokens, and `back()` of none is undefined: `None`.
   */
  function CurrentDisplayName(fs: FieldSet): (r: Option<string>)
    ensures r.None? <==> fs.current == ""
    ensures r.Some? ==> '/' !in r.value && r.value in Streams.Split(fs.current, '/')
  {
    if fs.current == "" then None else Some(Paths.DisplayName(fs.current))
  }

  /**
   * A freshly built set shown a field without an arrow actor keeps its empty
   * current name, so its display name is undefined.
   */
  lemma NoArrowsNoDisplayName(paths: seq<string>, name: string, arrows: string -> bool)
    requires name in paths && !arrows(name)
    ensures Display(Build(paths), name, arrows).Some?
    ensures CurrentDisplayName(Display(Build(paths), name, arrows).value).None?
  {
  }

  /** After a field file in some directory is shown, its bare file name is the current display name. */
  lemma DisplayedFileName(fs: FieldSet, dir: string, f: string, arrows: string -> bool)
    requires f != "" && '/' !in f
    requires HasField(fs, dir + "/" + f) && arrows(dir + "/" + f)
    ensures Display(fs, dir + "/" + f, arrows).Some?
    ensures CurrentDisplayName(Display(fs, dir + "/" + f, arrows).value) == Some(f)
  {
    Paths.DisplayNameOfPath(dir, f);
  }

  // ---------------------------------------------------------------------------
  // Properties
  // ---------------------------------------------------------------------------

  /** Every index the map holds points into the list, and every listed name is loaded. */
  ghost predicate InRange(fs: FieldSet) {
    && |fs.names| > 0
    && (forall i :: 0 <= i < |fs.names| ==> fs.names[i] in fs.loaded)
    && (forall p :: p in fs.index ==> fs.index[p] < |fs.names|)
  }

  /** Both constructions of a non-empty set are in range. */
  lemma BuildInRange(paths: seq<string>)
    requires |paths| > 0
    ensures InRange(Build(paths))
    ensures InRange(BuildSorted(paths))
  {
    var fs := Build(paths);
    forall i | 0 <= i < |fs.names|
      ensures fs.names[i] in fs.loaded
    {
      assert fs.names[i] in multiset(fs.names);
    }
    var gs := BuildSorted(paths);
    forall i | 0 <= i < |gs.names|
      ensures gs.names[i] in gs.loaded
    {
      assert gs.names[i] in multiset(gs.names);
    }
  }

  /** `operator[]` on the current name keeps the set in range. */
  lemma CurrentIndexInRange(fs: FieldSet)
    requires InRange(fs)
    ensures CurrentIndex(fs).0 < |fs.names| && InRange(CurrentIndex(fs).1)
    ensures CurrentIndex(fs).1.names == fs.names && CurrentIndex(fs).1.loaded == fs.loaded
  {
  }

  /** Showing a listed name of a set in range is defined and keeps it in range. */
  lemma DisplayInRange(fs: FieldSet, i: nat, arrows: string -> bool)
    requires InRange(fs) && i < |fs.names|
    ensures Display(fs, fs.names[i], arrows).Some? && InRange(Display(fs, fs.names[i], arrows).value)
  {
  }

  /**
   * On a set in range no navigation step has undefined behaviour, and every
   * step leaves the set in range.
   */
  lemma NavigationDefined(fs: FieldSet, arrows: string -> bool)
    requires InRange(fs)
    ensures Next(fs, arrows).Some? && InRange(Next(fs, arrows).value)
    ensures Previous(fs, arrows).Some? && InRange(Previous(fs, arrows).value)
    ensures First(fs, arrows).Some? && InRange(First(fs, arrows).value)
    ensures Last(fs, arrows).Some? && InRange(Last(fs, arrows).value)
  {
    CurrentIndexInRange(fs);
    var (i, fs1) := CurrentIndex(fs);
    if i + 1 < |fs1.names| {
      DisplayInRange(fs1, i + 1, arrows);
    }
    if i > 0 {
      DisplayInRange(fs1, i - 1, arrows);
    }
    DisplayInRange(fs, 0, arrows);
    DisplayInRange(fs, |fs.names| - 1, arrows);
  }

  /** The same for the two toggles. */
  lemma TogglesDefined(fs: FieldSet, arrows: string -> bool)
    requires InRange(fs)
    ensures ToggleGeometry(fs, arrows).Some? && InRange(ToggleGeometry(fs, arrows).value)
    ensures ToggleIsosurface(fs, arrows).Some? && InRange(ToggleIsosurface(fs, arrows).value)
  {
    CurrentIndexInRange(fs);
    var (i, fs1) := CurrentIndex(fs);
    DisplayInRange(fs1.(withGeometry := !fs1.withGeometry), i, arrows);
    DisplayInRange(fs1.(withIsosurface := !fs1.withIsosurface), i, arrows);
  }

  /** On a consistent list without repeats, a listed name's index is its position. */
  lemma IndexOfListed(fs: FieldSet, i: nat)
    requires Consistent(fs) && Distinct(fs.names)
    requires i < |fs.names| && fs.names[i] in fs.index
    ensures fs.index[fs.names[i]] == i
  {
    var k := fs.index[fs.names[i]];
    assert fs.names[k] == fs.names[i];
  }

  /**
   * On a consistent list without repeats, `nextModel` moves from the i-th
   * name to the (i+1)-th, and `previousModel` moves back.
   */
  lemma NextThenPrevious(fs: FieldSet, i: nat, arrows: string -> bool)
    requires Consistent(fs) && Distinct(fs.names)
    requires i + 1 < |fs.names| && fs.current == fs.names[i]
    requires fs.names[i] in fs.index && fs.names[i + 1] in fs.index
    requires fs.names[i + 1] in fs.loaded && fs.names[i] in fs.loaded
    requires arrows(fs.names[i + 1]) && arrows(fs.names[i])
    ensures Next(fs, arrows) == Some(fs.(current := fs.names[i + 1]))
    ensures Previous(Next(fs, arrows).value, arrows) == Some(fs)
  {
    IndexOfListed(fs, i);
    var gs := fs.(current := fs.names[i + 1]);
    assert Consistent(gs);
    IndexOfListed(gs, i + 1);
  }

  /** At either end of a consistent list, stepping past the end changes nothing. */
  lemma StepsStopAtEnds(fs: FieldSet, arrows: string -> bool)
    requires Consistent(fs) && Distinct(fs.names) && |fs.names| > 0
    ensures fs.current == fs.names[|fs.names| - 1] && fs.current in fs.index ==> Next(fs, arrows) == Some(fs)
    ensures fs.current == fs.names[0] && fs.current in fs.index ==> Previous(fs, arrows) == Some(fs)
  {
    if fs.current == fs.names[|fs.names| - 1] && fs.current in fs.index {
      IndexOfListed(fs, |fs.names| - 1);
    }
    if fs.current == fs.names[0] && fs.current in fs.index {
      IndexOfListed(fs, 0);
    }
  }

  /**
   * Before anything is shown the current name is empty; `operator[]` records
   * it with index 0, so `nextModel` shows the second name, not the first.
   */
  lemma NextBeforeDisplay(paths: seq<string>, arrows: string -> bool)
    requires "" !in paths && |paths| > 1
    ensures Next(Build(paths), arrows).Some?
    ensures "" in Next(Build(paths), arrows).value.index && Next(Build(paths), arrows).value.index[""] == 0
    ensures arrows(Build(paths).names[1]) ==> Next(Build(paths), arrows).value.current == Build(paths).names[1]
  {
    var fs := Build(paths);
    assert fs.names[1] in multiset(fs.names);
  }

  /** The first and last names are shown by `firstModel` and `lastModel` when they have arrows. */
  lemma FirstAndLast(fs: FieldSet, arrows: string -> bool)
    requires InRange(fs)
    requires arrows(fs.names[0]) && arrows(fs.names[|fs.names| - 1])
    ensures First(fs, arrows).value.current == fs.names[0]
    ensures Last(fs, arrows).value.current == fs.names[|fs.names| - 1]
  {
  }

  /** `std::sort` puts "b" after "a". */
  lemma SortBA()
    ensures Sort(["b", "a"]) == ["a", "b"]
  {
    var paths := ["b", "a"];
    assert !StrLe("b", "a");
    assert paths[1..] == ["a"];
    assert Sort(["a"]) == ["a"];
  }

  lemma PositionsOfTwo(x: string, y: string)
    requires x != y
    ensures FirstPositions([x, y]) == map[x := 0, y := 1]
  {
    var paths := [x, y];
    assert paths[..1] == [x];
    assert FirstPositions([x]) == map[x := 0] by {
      assert [x][..0] == [];
    }
  }

  /**
   * A set built from paths given out of order: after `firstModel` shows "a",
   * `nextModel` reads the input position of "a" (1), takes it for the last
   * index and stays on "a", so "b" is never reached. With the index map built
   * from the sorted list, `nextModel` moves on to "b".
   */
  lemma UnsortedInputGetsStuck()
    ensures First(Build(["b", "a"]), _ => true).value.current == "a"
    ensures Next(First(Build(["b", "a"]), _ => true).value, _ => true).value.current == "a"
    ensures First(BuildSorted(["b", "a"]), _ => true).value.current == "a"
    ensures Next(First(BuildSorted(["b", "a"]), _ => true).value, _ => true).value.current == "b"
  {
    SortBA();
    PositionsOfTwo("b", "a");
    PositionsOfTwo("a", "b");
    var fs := Build(["b", "a"]);
    assert fs.names == ["a", "b"] && fs.index == map["b" := 0, "a" := 1];
    assert "a" in fs.loaded && "b" in fs.loaded;
    var gs := BuildSorted(["b", "a"]);
    assert gs.names == ["a", "b"] && gs.index == map["a" := 0, "b" := 1];
    assert "a" in gs.loaded && "b" in gs.loaded;
  }
}
