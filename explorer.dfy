/**
 * The `px` command's queries over a bnd workspace catalog: selection of projects by ordered
 * include and `!`-exclude patterns, the ordering of Eclipse's import dialog, and the `deps`,
 * `gaps`, `roots`, `list` and `uses` listings. The catalog is built the first time a query needs
 * it and reused afterwards.
 *
 * Paths are printed as the catalog holds them (`toAbsolutePath` is not part of this model), and a
 * Java `Set` handed to a query is a sequence in that set's iteration order.
 */
module Explorer {
  import opened Wrappers
  import opened Seqs
  import opened JavaStrings
  import opened Digraphs
  import B = BndProjects
  import C = BndCatalogs

  /** The errors that end a `px` command. */
  datatype Failure =
    | NoWorkspace(path: string)
    | Query(error: C.CatalogError)
    | UnknownProject(project: string)
    | NoSuchKluge(project: string)
    | NothingToImport

  /** An error raised by a catalog query, as a command failure. */
  function Lift<T>(r: Result<T, C.CatalogError>): (f: Result<T, Failure>)
    ensures f.Ok? <==> r.Ok?
    ensures r.Ok? ==> f.value == r.value
    ensures r.Err? ==> f.error == Query(r.error)
  {
    match r
    case Ok(v) => Ok(v)
    case Err(e) => Err(Query(e))
  }

  // ---------------------------------------------------------------------------
  // EclipseOrdering
  // ---------------------------------------------------------------------------

  /** The path with every `.` replaced by NUL. */
  function Dotless(path: string): (r: string)
    ensures |r| == |path|
    ensures forall i :: 0 <= i < |path| ==> r[i] == if path[i] == '.' then '\0' else path[i]
  {
    seq(|path|, i requires 0 <= i < |path| => if path[i] == '.' then '\0' else path[i])
  }

  /** `stringify`: the dotless path followed by `\u0001`. */
  function Stringify(path: string): string
  {
    Dotless(path) + ['\U{1}']
  }

  /** `EclipseOrdering.compare`: `compareTo` of the stringified paths. */
  function EclipseCompare(p1: string, p2: string): int
  {
    CompareTo(Stringify(p1), Stringify(p2))
  }

  /** `compareTo` skips a common prefix. */
  lemma {:induction false} CompareToCommonPrefix(a: string, b: string, c: string)
    ensures CompareTo(a + b, a + c) == CompareTo(b, c)
  {
    if a != [] {
      assert (a + b)[1..] == a[1..] + b;
      assert (a + c)[1..] == a[1..] + c;
      CompareToCommonPrefix(a[1..], b, c);
    } else {
      assert a + b == b && a + c == c;
    }
  }

  /**
   * On paths without NUL characters the comparator is a total order: it returns 0 only for equal
   * paths, swapping its arguments negates it, and it is transitive.
   */
  lemma EclipseOrderingTotal(p1: string, p2: string, p3: string)
    requires '\0' !in p1 && '\0' !in p2
    ensures EclipseCompare(p1, p2) == 0 <==> p1 == p2
    ensures EclipseCompare(p2, p1) == -EclipseCompare(p1, p2)
    ensures EclipseCompare(p1, p2) < 0 && EclipseCompare(p2, p3) < 0 ==> EclipseCompare(p1, p3) < 0
  {
    var s1, s2, s3 := Stringify(p1), Stringify(p2), Stringify(p3);
    CompareToZero(s1, s2);
    CompareToAntisymmetric(s1, s2);
    if CompareTo(s1, s2) < 0 && CompareTo(s2, s3) < 0 {
      CompareToTransitive(s1, s2, s3);
    }
    if s1 == s2 {
      forall i | 0 <= i < |p1| ensures p1[i] == p2[i] {
        assert s1[i] == s2[i];
      }
    }
  }

  /**
   * A dotted name sorts before its prefix (`x.y` before `x`), where plain `compareTo` puts the
   * prefix first: the import dialog lists nested names ahead of their parents.
   */
  lemma EclipseOrderingDotFirst(x: string, y: string)
    ensures EclipseCompare(x + "." + y, x) < 0
    ensures CompareTo(x, x + "." + y) < 0
  {
    var dotted := x + "." + y;
    assert Dotless(dotted) == Dotless(x) + ['\0'] + Dotless(y) by {
      assert forall i :: 0 <= i < |x| ==> dotted[i] == x[i];
      assert forall i :: |x| < i < |dotted| ==> dotted[i] == y[i - |x| - 1];
    }
    assert Stringify(dotted) == Dotless(x) + (['\0'] + Dotless(y) + ['\U{1}']);
    CompareToCommonPrefix(Dotless(x), ['\0'] + Dotless(y) + ['\U{1}'], ['\U{1}']);
    assert x == x + [] && dotted == x + ("." + y);
    CompareToCommonPrefix(x, [], "." + y);
  }

  // ---------------------------------------------------------------------------
  // getMatchingProjects
  // ---------------------------------------------------------------------------

  /** The folder names of the given projects, in listing order. */
  function NamesOf(c: C.BndCatalog, ids: set<nat>): (r: seq<string>)
    ensures forall x :: x in r <==> exists i :: i in ids && i < |c.projects| && c.projects[i].name == x
  {
    var listed := Filter(Range(|c.projects|), i => i in ids);
    assert forall k :: 0 <= k < |listed| ==> listed[k] in listed;
    var r := seq(|listed|, k requires 0 <= k < |listed| => c.projects[listed[k]].name);
    assert forall i :: i in ids && i < |c.projects| ==> c.projects[i].name in r by {
      forall i | i in ids && i < |c.projects| ensures c.projects[i].name in r {
        assert i in listed;
        var k :| 0 <= k < |listed| && listed[k] == i;
        assert r[k] == c.projects[i].name;
      }
    }
    r
  }

  /** A pattern starting with `!` removes its matches instead of adding them. */
  predicate Excludes(pattern: string)
  {
    |pattern| > 0 && pattern[0] == '!'
  }

  /** The pattern without its leading `!`. */
  function Stripped(pattern: string): string
  {
    if Excludes(pattern) then pattern[1..] else pattern
  }

  /** The folder names of the projects one pattern (without its `!`) finds. */
  function Matches(c: C.BndCatalog, pattern: string, glob: C.Glob): (r: Result<seq<string>, C.CatalogError>)
    reads c
    requires c.Valid()
    ensures r.Err? <==> forall k :: k in c.pathIndex ==> !glob(Stripped(pattern), k)
    ensures r.Err? ==> r.error == C.NoMatch(Stripped(pattern))
    ensures r.Ok? ==> forall x :: x in r.value <==>
      exists p :: p in c.FindProjects(Stripped(pattern), glob).value && p < |c.projects| && c.projects[p].name == x
  {
    match c.FindProjects(Stripped(pattern), glob)
    case Err(e) => Err(e)
    case Ok(ids) => Ok(NamesOf(c, ids))
  }

  /** A strictly sorted list loses its order neither by dropping its head nor under a smaller head. */
  lemma HeadBelow(xs: seq<string>)
    requires StrictlySorted(xs) && xs != []
    ensures StrictlySorted(xs[1..])
    ensures forall y :: y in xs[1..] ==> CompareTo(xs[0], y) < 0
  {
    forall y | y in xs[1..] ensures CompareTo(xs[0], y) < 0 {
      var k :| 0 <= k < |xs[1..]| && xs[1..][k] == y;
      assert xs[k + 1] == y;
    }
  }

  /** A new head below every element keeps a list strictly sorted. */
  lemma LeastFirst(x: string, xs: seq<string>)
    requires StrictlySorted(xs)
    requires forall y :: y in xs ==> CompareTo(x, y) < 0
    ensures StrictlySorted([x] + xs)
  {
    var s := [x] + xs;
    forall i, j | 0 <= i < j < |s| ensures CompareTo(s[i], s[j]) < 0 {
      assert s[j] == xs[j - 1];
      if i > 0 {
        assert s[i] == xs[i - 1];
      }
    }
  }

  /** `TreeSet.add`: `x` in its place in a strictly sorted list, unless it is there already. */
  function Add(xs: seq<string>, x: string): (r: seq<string>)
    requires StrictlySorted(xs)
    ensures StrictlySorted(r)
    ensures forall y :: y in r <==> y in xs || y == x
  {
    if xs == [] then [x]
    else if x == xs[0] then xs
    else
      HeadBelow(xs);
      CompareToZero(x, xs[0]);
      if CompareTo(x, xs[0]) < 0 then
        assert forall y :: y in xs ==> y == xs[0] || y in xs[1..];
        assert forall y :: y in xs[1..] ==> CompareTo(x, y) < 0 by {
          forall y | y in xs[1..] ensures CompareTo(x, y) < 0 {
            CompareToTransitive(x, xs[0], y);
          }
        }
        LeastFirst(x, xs);
        [x] + xs
      else
        CompareToAntisymmetric(x, xs[0]);
        var rest := Add(xs[1..], x);
        LeastFirst(xs[0], rest);
        assert xs == [xs[0]] + xs[1..];
        [xs[0]] + rest
  }

  /** `TreeSet.remove`: the strictly sorted list without `x`. */
  function Remove(xs: seq<string>, x: string): (r: seq<string>)
    requires StrictlySorted(xs)
    ensures StrictlySorted(r)
    ensures forall y :: y in r <==> y in xs && y != x
  {
    if xs == [] then []
    else
      HeadBelow(xs);
      CompareToZero(xs[0], xs[0]);
      if xs[0] == x then
        xs[1..]
      else
        var rest := Remove(xs[1..], x);
        LeastFirst(xs[0], rest);
        assert xs == [xs[0]] + xs[1..];
        [xs[0]] + rest
  }

  /** One pattern applied to the sorted set: each of its matches added, or removed when it excludes. */
  function Apply(acc: seq<string>, pattern: string, names: seq<string>): (r: seq<string>)
    requires StrictlySorted(acc)
    ensures StrictlySorted(r)
    ensures forall x :: x in r <==> if Excludes(pattern) then x in acc && x !in names else x in acc || x in names
    decreases |names|
  {
    if names == [] then acc
    else
      assert names == [names[0]] + names[1..];
      Apply(if Excludes(pattern) then Remove(acc, names[0]) else Add(acc, names[0]), pattern, names[1..])
  }

  /** A project stays or comes in unless the pattern removes it. */
  lemma ApplyKeeps(acc: seq<string>, pattern: string, names: seq<string>, x: string)
    requires StrictlySorted(acc)
    requires (x in acc && !(Excludes(pattern) && x in names)) || (!Excludes(pattern) && x in names)
    ensures x in Apply(acc, pattern, names)
  {
  }

  /** What each pattern finds, in pattern order. */
  function Found(c: C.BndCatalog, patterns: seq<string>, glob: C.Glob): (r: seq<Result<seq<string>, C.CatalogError>>)
    reads c
    requires c.Valid()
    ensures |r| == |patterns|
    ensures forall k :: 0 <= k < |patterns| ==> r[k] == Matches(c, patterns[k], glob)
  {
    seq(|patterns|, k reads c requires 0 <= k < |patterns| && c.Valid() => Matches(c, patterns[k], glob))
  }

  /**
   * The sorted set left after applying `patterns` in order, given what each one finds, or the
   * error of the first pattern that finds nothing.
   */
  function Fold(patterns: seq<string>, found: seq<Result<seq<string>, C.CatalogError>>): (r: Result<seq<string>, C.CatalogError>)
    requires |found| == |patterns|
    ensures r.Ok? ==> StrictlySorted(r.value)
    decreases |patterns|
  {
    if patterns == [] then Ok([])
    else
      var n := |patterns| - 1;
      match Fold(patterns[..n], found[..n])
      case Err(e) => Err(e)
      case Ok(acc) =>
        match found[n]
        case Err(e) => Err(e)
        case Ok(names) => Ok(Apply(acc, patterns[n], names))
  }

  /** The patterns succeed together exactly when each one finds something. */
  lemma {:induction false} FoldOk(patterns: seq<string>, found: seq<Result<seq<string>, C.CatalogError>>)
    requires |found| == |patterns|
    ensures Fold(patterns, found).Ok? <==> forall k :: 0 <= k < |found| ==> found[k].Ok?
    decreases |patterns|
  {
    if patterns != [] {
      var n := |patterns| - 1;
      var prior := found[..n];
      FoldOk(patterns[..n], prior);
      if Fold(patterns, found).Ok? {
        forall k | 0 <= k < |found| ensures found[k].Ok? {
          if k < n {
            assert prior[k] == found[k];
          }
        }
      } else if Fold(patterns[..n], prior).Err? {
        var k :| 0 <= k < n && !prior[k].Ok?;
        assert !found[k].Ok?;
      }
    }
  }

  /** A failure is the error of the first pattern that finds nothing. */
  lemma {:induction false} FoldFirstError(patterns: seq<string>, found: seq<Result<seq<string>, C.CatalogError>>)
    requires |found| == |patterns| && Fold(patterns, found).Err?
    ensures exists k :: 0 <= k < |found| && found[k] == Err(Fold(patterns, found).error) && forall j :: 0 <= j < k ==> found[j].Ok?
    decreases |patterns|
  {
    var n := |patterns| - 1;
    var init, prior := patterns[..n], found[..n];
    var r := Fold(init, prior);
    if r.Err? {
      FoldFirstError(init, prior);
      var k :| 0 <= k < n && prior[k] == Err(r.error) && forall j :: 0 <= j < k ==> prior[j].Ok?;
      assert found[k] == Err(Fold(patterns, found).error);
      assert forall j :: 0 <= j < k ==> found[j].Ok? by {
        forall j | 0 <= j < k ensures found[j].Ok? {
          assert prior[j] == found[j];
        }
      }
    } else {
      FoldOk(init, prior);
      assert forall j :: 0 <= j < n ==> found[j].Ok? by {
        forall j | 0 <= j < n ensures found[j].Ok? {
          assert prior[j] == found[j];
        }
      }
    }
  }

  /** `getMatchingProjects` once the catalog exists. */
  function Matching(c: C.BndCatalog, patterns: seq<string>, glob: C.Glob): Result<seq<string>, C.CatalogError>
    reads c
    requires c.Valid()
  {
    Fold(patterns, Found(c, patterns, glob))
  }

  /** One more pattern: its matches applied to the set so far, or its error. */
  lemma FoldStep(patterns: seq<string>, found: seq<Result<seq<string>, C.CatalogError>>, i: nat, acc: seq<string>)
    requires |found| == |patterns| && i < |patterns|
    requires Fold(patterns[..i], found[..i]) == Ok(acc)
    ensures found[i].Ok? ==> Fold(patterns[..i + 1], found[..i + 1]) == Ok(Apply(acc, patterns[i], found[i].value))
    ensures found[i].Err? ==> Fold(patterns[..i + 1], found[..i + 1]) == Err(found[i].error)
  {
    assert patterns[..i + 1][..i] == patterns[..i];
    assert found[..i + 1][..i] == found[..i];
  }

  /** Once a prefix of the patterns fails, the whole list fails with the same error. */
  lemma {:induction false} FoldStops(patterns: seq<string>, found: seq<Result<seq<string>, C.CatalogError>>, k: nat)
    requires |found| == |patterns| && k <= |patterns|
    requires Fold(patterns[..k], found[..k]).Err?
    ensures Fold(patterns, found) == Fold(patterns[..k], found[..k])
    decreases |patterns|
  {
    if k < |patterns| {
      var n := |patterns| - 1;
      assert patterns[..n][..k] == patterns[..k];
      assert found[..n][..k] == found[..k];
      FoldStops(patterns[..n], found[..n], k);
    } else {
      assert patterns[..k] == patterns;
      assert found[..k] == found;
    }
  }

  /** The loop of `getMatchingProjects`, one pattern at a time: the next pattern's matches applied, or its error as the outcome. */
  lemma MatchingStep(c: C.BndCatalog, patterns: seq<string>, glob: C.Glob, i: nat, acc: seq<string>)
    requires c.Valid() && i < |patterns|
    requires i == 0 ==> acc == []
    requires i > 0 ==> Fold(patterns[..i], Found(c, patterns, glob)[..i]) == Ok(acc)
    ensures var m := Matches(c, patterns[i], glob);
      m.Ok? ==> Fold(patterns[..i + 1], Found(c, patterns, glob)[..i + 1]) == Ok(Apply(acc, patterns[i], m.value))
    ensures var m := Matches(c, patterns[i], glob);
      m.Err? ==> Matching(c, patterns, glob) == Err(m.error)
  {
    var found := Found(c, patterns, glob);
    assert Fold(patterns[..i], found[..i]) == Ok(acc) by {
      if i == 0 {
        assert patterns[..0] == [] && found[..0] == [];
      }
    }
    if found[i].Err? {
      assert Fold(patterns, found) == Err(found[i].error) by {
        FoldStep(patterns, found, i, acc);
        FoldStops(patterns, found, i + 1);
      }
    } else {
      FoldStep(patterns, found, i, acc);
    }
  }

  /** After the last pattern the loop's prefix is the whole list. */
  lemma MatchingDone(c: C.BndCatalog, patterns: seq<string>, glob: C.Glob)
    requires c.Valid()
    ensures Fold(patterns[..|patterns|], Found(c, patterns, glob)[..|patterns|]) == Matching(c, patterns, glob)
  {
    assert patterns[..|patterns|] == patterns;
    assert Found(c, patterns, glob)[..|patterns|] == Found(c, patterns, glob);
  }

  /** What one pattern found holds `x`. */
  predicate Hit(found: Result<seq<string>, C.CatalogError>, x: string)
  {
    found.Ok? && x in found.value
  }

  /** Pattern `j` removes `x`. */
  predicate Removes(patterns: seq<string>, found: seq<Result<seq<string>, C.CatalogError>>, j: nat, x: string)
    requires |found| == |patterns| && j < |patterns|
  {
    Excludes(patterns[j]) && Hit(found[j], x)
  }

  /** Pattern `k` adds `x` and no later pattern removes it. */
  predicate Selects(patterns: seq<string>, found: seq<Result<seq<string>, C.CatalogError>>, k: nat, x: string)
    requires |found| == |patterns| && k < |patterns|
  {
    && !Excludes(patterns[k]) && Hit(found[k], x)
    && forall j {:trigger Removes(patterns, found, j, x)} :: k < j < |patterns| ==> !Removes(patterns, found, j, x)
  }

  /** An earlier pattern's selection survives one more pattern unless that pattern removes `x`. */
  lemma SelectsExtend(patterns: seq<string>, found: seq<Result<seq<string>, C.CatalogError>>, k: nat, x: string)
    requires |found| == |patterns| && k + 1 < |patterns|
    ensures var n := |patterns| - 1;
      Selects(patterns, found, k, x) <==> Selects(patterns[..n], found[..n], k, x) && !Removes(patterns, found, n, x)
  {
    var n := |patterns| - 1;
    var init, prior := patterns[..n], found[..n];
    forall j | k <= j < n ensures init[j] == patterns[j] && prior[j] == found[j] && Removes(init, prior, j, x) == Removes(patterns, found, j, x) {
    }
  }

  /** The last pattern keeps or adds `x` when `x` was there before and it does not remove it, or when it adds it. */
  lemma FoldKeeps(patterns: seq<string>, found: seq<Result<seq<string>, C.CatalogError>>, x: string)
    requires |found| == |patterns| && patterns != [] && Fold(patterns, found).Ok?
    ensures Fold(patterns[..|patterns| - 1], found[..|patterns| - 1]).Ok?
    ensures var n := |patterns| - 1;
      || (x in Fold(patterns[..n], found[..n]).value && !Removes(patterns, found, n, x))
      || (!Excludes(patterns[n]) && Hit(found[n], x))
      ==> x in Fold(patterns, found).value
  {
    var n := |patterns| - 1;
    assert Fold(patterns[..n], found[..n]).Ok? && found[n].Ok?;
    var acc := Fold(patterns[..n], found[..n]).value;
    if (x in acc && !Removes(patterns, found, n, x)) || (!Excludes(patterns[n]) && Hit(found[n], x)) {
      ApplyKeeps(acc, patterns[n], found[n].value, x);
    }
  }

  /** A project some pattern selects is in the result. */
  lemma {:induction false} SelectedIsKept(patterns: seq<string>, found: seq<Result<seq<string>, C.CatalogError>>, k: nat, x: string)
    requires |found| == |patterns| && Fold(patterns, found).Ok?
    requires k < |patterns| && Selects(patterns, found, k, x)
    ensures x in Fold(patterns, found).value
    decreases |patterns|
  {
    var n := |patterns| - 1;
    FoldKeeps(patterns, found, x);
    if k < n {
      assert x in Fold(patterns[..n], found[..n]).value && !Removes(patterns, found, n, x) by {
        SelectsExtend(patterns, found, k, x);
        SelectedIsKept(patterns[..n], found[..n], k, x);
      }
    } else {
      assert !Excludes(patterns[n]) && Hit(found[n], x);
    }
  }

  /**
   * Order matters: a project is selected exactly when some including pattern finds it and no
   * excluding pattern after that one finds it.
   */
  lemma {:induction false} FoldMembers(patterns: seq<string>, found: seq<Result<seq<string>, C.CatalogError>>, x: string)
    requires |found| == |patterns| && Fold(patterns, found).Ok?
    ensures x in Fold(patterns, found).value <==> exists k :: 0 <= k < |patterns| && Selects(patterns, found, k, x)
    decreases |patterns|
  {
    forall k | 0 <= k < |patterns| && Selects(patterns, found, k, x) ensures x in Fold(patterns, found).value {
      SelectedIsKept(patterns, found, k, x);
    }
    if patterns != [] && x in Fold(patterns, found).value {
      var n := |patterns| - 1;
      var init, prior := patterns[..n], found[..n];
      var acc := Fold(init, prior).value;
      assert Fold(patterns, found).value == Apply(acc, patterns[n], found[n].value);
      if !Excludes(patterns[n]) && Hit(found[n], x) {
        assert Selects(patterns, found, n, x);
      } else {
        assert x in acc && !Removes(patterns, found, n, x);
        FoldMembers(init, prior, x);
        var k :| 0 <= k < n && Selects(init, prior, k, x);
        SelectsExtend(patterns, found, k, x);
        assert Selects(patterns, found, k, x);
      }
    }
  }

  // ---------------------------------------------------------------------------
  // The listings
  // ---------------------------------------------------------------------------

  /** The projects the given names find, unknown names dropped. */
  function KnownSeeds(c: C.BndCatalog, names: seq<string>): (r: set<nat>)
    reads c
    requires c.Valid()
    ensures r <= c.Vertices()
    ensures c.Seeds(names, true) == Ok(r)
  {
    c.SeedsFound(names, true);
    c.Seeds(names, true).value
  }

  /** The projects reachable from the projects with the given names, unknown names dropped. */
  function Reach(c: C.BndCatalog, names: seq<string>): (r: set<nat>)
    reads c
    requires c.Valid()
    ensures KnownSeeds(c, names) <= r <= c.Vertices()
  {
    Closure(c.edges, c.Vertices(), KnownSeeds(c, names))
  }

  /** The required folders of the named projects are the folders of the projects they reach. */
  lemma RequiredFolders(c: C.BndCatalog, names: seq<string>, x: string)
    requires c.Valid() && c.RequiredProjectPaths(names, true).Ok?
    ensures x in c.RequiredProjectPaths(names, true).value <==> exists p :: p in Reach(c, names) && c.projects[p].root == x
  {
    c.RequiredProjectsSorted(names, true);
    var order := c.RequiredProjects(names, true).value;
    var paths := c.RequiredProjectPaths(names, true).value;
    if x in paths {
      var k :| 0 <= k < |paths| && paths[k] == x;
      assert order[k] in order;
    }
    if p :| p in Reach(c, names) && c.projects[p].root == x {
      var k :| 0 <= k < |order| && order[k] == p;
      assert paths[k] == x;
    }
  }

  /** Whether `deps` lists a folder: always with `showAll`, otherwise only when Eclipse lacks its project. */
  function ShowsPath(known: seq<string>, showAll: bool): string -> bool
  {
    p => showAll || B.FileName(p) !in known
  }

  /** How `deps` prints a folder: by name with `printNames`, otherwise by path. */
  function Printed(p: string, printNames: bool): string
  {
    if printNames then B.FileName(p) else p
  }

  /**
   * The `deps` lines of some folders: Eclipse's projects dropped unless `showAll`, names rather
   * than paths when `printNames`, the rest printed in the order the folders come.
   */
  function Shown(paths: seq<string>, known: seq<string>, showAll: bool, printNames: bool): (r: seq<string>)
    ensures var pos := Kept(paths, ShowsPath(known, showAll));
      |r| == |pos| && forall k :: 0 <= k < |r| ==> r[k] == Printed(paths[pos[k]], printNames)
    ensures forall x :: x in r <==> exists p ::
      p in paths && ShowsPath(known, showAll)(p) && x == Printed(p, printNames)
  {
    var pos := Kept(paths, ShowsPath(known, showAll));
    var r := seq(|pos|, k requires 0 <= k < |pos| => Printed(paths[pos[k]], printNames));
    forall x | x in r ensures exists p :: p in paths && ShowsPath(known, showAll)(p) && x == Printed(p, printNames) {
      var k :| 0 <= k < |r| && r[k] == x;
      assert paths[pos[k]] in paths;
    }
    forall p | p in paths && ShowsPath(known, showAll)(p) ensures Printed(p, printNames) in r {
      var i :| 0 <= i < |paths| && paths[i] == p;
      var k :| 0 <= k < |pos| && pos[k] == i;
      assert r[k] == Printed(p, printNames);
    }
    r
  }

  /** `deps`: the required folders in dependency order, without Eclipse's projects unless `showAll`. */
  function DepsOf(c: C.BndCatalog, known: seq<string>, projectNames: seq<string>, showAll: bool, printNames: bool, eclipseOrdering: bool): (r: Result<seq<string>, C.CatalogError>)
    reads c
    requires c.Valid()
    ensures r.Ok? <==> c.RequiredProjectPaths(projectNames, false).Ok?
    ensures r.Err? ==> r.error == c.RequiredProjects(projectNames, false).error
    ensures r.Ok? ==> forall x :: x in r.value <==> exists p ::
      && p in c.RequiredProjectPaths(projectNames, false).value
      && ShowsPath(known, showAll)(p)
      && x == Printed(p, printNames)
    ensures r.Ok? && eclipseOrdering ==> SortedBy(r.value, Stringify)
    ensures r.Ok? ==> multiset(r.value) == multiset(Shown(c.RequiredProjectPaths(projectNames, false).value, known, showAll, printNames))
    ensures r.Ok? && !eclipseOrdering ==> r.value == Shown(c.RequiredProjectPaths(projectNames, false).value, known, showAll, printNames)
  {
    match c.RequiredProjectPaths(projectNames, false)
    case Err(e) => Err(e)
    case Ok(paths) =>
      var printed := Shown(paths, known, showAll, printNames);
      if eclipseOrdering then
        var sorted := SortBy(printed, Stringify);
        assert forall x :: x in sorted <==> x in multiset(sorted);
        assert forall x :: x in printed <==> x in multiset(printed);
        Ok(sorted)
      else Ok(printed)
  }

  /**
   * In the natural ordering `deps` prints the shown required projects in the required order, so
   * every project comes after each shown project it depends on.
   */
  lemma DepsInDependencyOrder(c: C.BndCatalog, known: seq<string>, projectNames: seq<string>, showAll: bool, printNames: bool)
    requires c.Valid()
    requires DepsOf(c, known, projectNames, showAll, printNames, false).Ok?
    ensures var order := c.RequiredProjects(projectNames, false).value;
      var deps := DepsOf(c, known, projectNames, showAll, printNames, false).value;
      var pos := Kept(c.RootsOf(order), ShowsPath(known, showAll));
      && |deps| == |pos|
      && (forall k :: 0 <= k < |deps| ==> pos[k] < |order| && deps[k] == Printed(c.projects[order[pos[k]]].root, printNames))
      && (forall k, l :: 0 <= k < |deps| && 0 <= l < |deps| && (order[pos[l]], order[pos[k]]) in c.edges ==> k < l)
  {
    c.RequiredProjectsSorted(projectNames, false);
    var order := c.RequiredProjects(projectNames, false).value;
    var s := Closure(c.edges, c.Vertices(), c.Seeds(projectNames, false).value);
    DepsBeforePicked(c.edges, s, order, Kept(c.RootsOf(order), ShowsPath(known, showAll)));
  }

  /** With `--show-all`, folder paths and the natural ordering, `deps` is the required order itself. */
  lemma DepsShowAll(c: C.BndCatalog, known: seq<string>, projectNames: seq<string>)
    requires c.Valid()
    ensures DepsOf(c, known, projectNames, true, false, false) == c.RequiredProjectPaths(projectNames, false)
  {
    var req := c.RequiredProjectPaths(projectNames, false);
    if req.Ok? {
      ShownAll(req.value, known);
    }
  }

  /** Showing every folder by its path lists the folders themselves. */
  lemma ShownAll(paths: seq<string>, known: seq<string>)
    ensures Shown(paths, known, true, false) == paths
  {
    KeptAll(paths, ShowsPath(known, true));
  }

  /** `gaps`: the folders the Eclipse projects need, directly or not, that Eclipse does not have. */
  function GapsOf(c: C.BndCatalog, known: seq<string>): (r: Result<seq<string>, C.CatalogError>)
    reads c
    requires c.Valid()
    ensures r.Err? ==> r.error.NotADag?
    ensures r.Ok? ==> forall x :: x in r.value <==>
      B.FileName(x) !in known && exists p :: p in Reach(c, known) && c.projects[p].root == x
    ensures r.Ok? <==> c.RequiredProjectPaths(known, true).Ok?
    ensures r.Ok? ==> var paths := c.RequiredProjectPaths(known, true).value;
      PicksAt(r.value, paths, Kept(paths, ShowsPath(known, false)))
  {
    c.SeedsFound(known, true);
    match c.RequiredProjectPaths(known, true)
    case Err(e) => Err(e)
    case Ok(paths) =>
      var gaps := Filter(paths, ShowsPath(known, false));
      FilterKept(paths, ShowsPath(known, false));
      assert forall p :: ShowsPath(known, false)(p) == (B.FileName(p) !in known);
      forall x ensures x in paths <==> exists p :: p in Reach(c, known) && c.projects[p].root == x {
        RequiredFolders(c, known, x);
      }
      Ok(gaps)
  }

  /** When the workspace has no dependency cycle, `gaps` always lists. */
  lemma GapsOfAcyclic(c: C.BndCatalog, known: seq<string>, rank: nat -> nat)
    requires c.Valid() && Ranked(c.edges, rank)
    ensures GapsOf(c, known).Ok?
  {
    c.SeedsFound(known, true);
    c.RequiredProjectsOfAcyclic(known, true, rank);
  }

  /** The projects of `s` that no project of `s` depends on: in-degree 0 in the subgraph on `s`. */
  function RootsIn(c: C.BndCatalog, s: set<nat>): set<nat>
    reads c
  {
    set p | p in s && forall q :: q in s ==> (q, p) !in c.edges
  }

  /**
   * Every root of the reach of the Eclipse projects is itself an Eclipse project: a project the
   * closure added has an edge into it from the closure. Conversely an Eclipse project is a root
   * exactly when no reached project depends on it.
   */
  lemma RootsAreKnown(c: C.BndCatalog, known: seq<string>, p: nat)
    requires c.Valid()
    ensures p in RootsIn(c, Reach(c, known)) ==> p in KnownSeeds(c, known)
    ensures p in KnownSeeds(c, known) ==>
      (p in RootsIn(c, Reach(c, known)) <==> forall q :: q in Reach(c, known) ==> (q, p) !in c.edges)
  {
    var seeds := KnownSeeds(c, known);
    var s := Reach(c, known);
    var t := s - (RootsIn(c, s) - seeds);
    forall e | e in c.edges && e.0 in t ensures e.1 in t {
      assert e.1 in s;
      assert e.1 !in RootsIn(c, s);
    }
    ClosureLeast(c.edges, c.Vertices(), seeds, t);
  }

  /** The folder names of the projects the workspace's path index holds, sorted and without repeats. */
  function AllNames(c: C.BndCatalog): (r: seq<string>)
    reads c
    ensures StrictlySorted(r)
    ensures forall x :: x in r <==> exists y :: y in c.AllProjects() && B.FileName(y) == x
  {
    var roots := c.AllProjects();
    var names := Map(roots, B.FileName);
    assert forall x :: x in names <==> exists y :: y in roots && B.FileName(y) == x by {
      forall x | x in names ensures exists y :: y in roots && B.FileName(y) == x {
        var k :| 0 <= k < |names| && names[k] == x;
        assert roots[k] in roots;
      }
      forall y | y in roots ensures B.FileName(y) in names {
        var k :| 0 <= k < |roots| && roots[k] == y;
        assert names[k] == B.FileName(y);
      }
    }
    SortDistinct(names)
  }

  /** `list` without patterns names every project that is still the last claimant of one of its keys. */
  lemma AllNamesListsLastClaimants(c: C.BndCatalog, i: nat)
    requires c.Valid() && i < |c.projects|
    requires exists k :: k in C.KeysOf(c.projects[i]) && forall j :: i < j < |c.projects| ==> k !in C.KeysOf(c.projects[j])
    ensures c.projects[i].name in AllNames(c)
  {
    c.AllProjectsListsLastClaimants(i);
    assert B.FileName(c.projects[i].root) == c.projects[i].name;
  }

  /** `uses`: the folder names of the projects that depend directly on a named project. */
  function UsersOf(c: C.BndCatalog, projectNames: seq<string>): (r: Result<seq<string>, C.CatalogError>)
    reads c
    requires c.Valid()
    ensures r.Err? <==> c.Seeds(projectNames, false).Err?
    ensures r.Ok? ==> forall x :: x in r.value <==>
      exists e :: e in c.edges && e.1 in c.Seeds(projectNames, false).value && c.projects[e.0].name == x
  {
    match c.DependentProjectPaths(projectNames)
    case Err(e) => Err(e)
    case Ok(paths) =>
      var names := Map(paths, B.FileName);
      var targets := c.Seeds(projectNames, false).value;
      forall x ensures x in names <==> exists e :: e in c.edges && e.1 in targets && c.projects[e.0].name == x {
        if x in names {
          var k :| 0 <= k < |names| && names[k] == x;
          assert paths[k] in paths;
        }
        if e :| e in c.edges && e.1 in targets && c.projects[e.0].name == x {
          var root := c.projects[e.0].root;
          assert root in paths;
          var k :| 0 <= k < |paths| && paths[k] == root;
          assert names[k] == x;
        }
      }
      Ok(names)
  }

  // ---------------------------------------------------------------------------
  // ProjectExplorer
  // ---------------------------------------------------------------------------

  /** The `px` command: its options, the projects Eclipse knows, and the lazily built catalog. */
  class ProjectExplorer {
    /** `--bnd-workspace`, as given on the command line. */
    const workspacePath: string
    /** The workspace's subfolders that hold a `bnd.bnd`, or `None` when the path is not a directory. */
    const workspace: Option<seq<C.ProjectDir>>
    /** The names of the projects Eclipse already has, in the iteration order of their set. */
    const known: seq<string>
    /** The glob matcher the catalog applies to patterns. */
    const glob: C.Glob
    /** The catalog's `hasProject`, which is not part of this model. */
    const hasProject: string -> bool
    /** The catalog's `getLeafProjects(projects, known)`, which is not part of this model. */
    const leafProjects: (seq<string>, seq<string>) -> seq<string>
    /** The catalog, once a query has built it. */
    var catalog: C.BndCatalog?

    ghost predicate Valid()
      reads this, catalog
    {
      catalog != null ==> workspace.Some? && catalog.projects == Map(workspace.value, C.LoadDir) && catalog.Valid()
    }

    /** The catalog is kept once built, and only a fresh one is ever built. */
    twostate predicate Memoised()
      reads this
    {
      && (old(catalog) != null ==> catalog == old(catalog))
      && (old(catalog) == null && catalog != null ==> fresh(catalog))
    }

    constructor (workspacePath: string, workspace: Option<seq<C.ProjectDir>>, known: seq<string>, glob: C.Glob,
                 hasProject: string -> bool, leafProjects: (seq<string>, seq<string>) -> seq<string>)
      ensures this.workspacePath == workspacePath && this.workspace == workspace && this.known == known
      ensures this.glob == glob && this.hasProject == hasProject && this.leafProjects == leafProjects
      ensures catalog == null && Valid()
    {
      this.workspacePath := workspacePath;
      this.workspace := workspace;
      this.known := known;
      this.glob := glob;
      this.hasProject := hasProject;
      this.leafProjects := leafProjects;
      catalog := null;
    }

    /**
     * `getBndCatalog`: the catalog built on the first call and returned unchanged afterwards; a
     * workspace path that is not a directory is an error.
     */
    method GetBndCatalog() returns (r: Result<C.BndCatalog, Failure>)
      requires Valid()
      modifies this
      ensures Valid() && Memoised()
      ensures catalog != null <==> workspace.Some?
      ensures catalog == null ==> r == Err(NoWorkspace(workspacePath))
      ensures catalog != null ==> r == Ok(catalog)
    {
      if catalog == null {
        if workspace.None? {
          return Err(NoWorkspace(workspacePath));
        }
        catalog := new C.BndCatalog(workspace.value);
      }
      return Ok(catalog);
    }

    /**
     * `getMatchingProjects`: applies the patterns in order to a sorted set of names. The catalog
     * is fetched for each pattern, so no pattern needs no catalog; a pattern that finds nothing
     * ends the command.
     */
    method GetMatchingProjects(patterns: seq<string>) returns (r: Result<seq<string>, Failure>)
      requires Valid()
      modifies this
      ensures Valid() && Memoised()
      ensures patterns == [] ==> r == Ok([]) && catalog == old(catalog)
      ensures patterns != [] ==> (catalog != null <==> workspace.Some?)
      ensures patterns != [] && catalog == null ==> r == Err(NoWorkspace(workspacePath))
      ensures patterns != [] && catalog != null ==> r == Lift(Matching(catalog, patterns, glob))
    {
      var selected: seq<string> := [];
      for i := 0 to |patterns|
        invariant Valid() && Memoised()
        invariant i == 0 ==> catalog == old(catalog) && selected == []
        invariant i > 0 ==> catalog != null && Fold(patterns[..i], Found(catalog, patterns, glob)[..i]) == Ok(selected)
      {
        var c := GetBndCatalog();
        if c.Err? {
          return Err(c.error);
        }
        var m := Matches(c.value, patterns[i], glob);
        MatchingStep(c.value, patterns, glob, i, selected);
        if m.Err? {
          return Err(Query(m.error));
        }
        selected := Apply(selected, patterns[i], m.value);
      }
      if patterns != [] {
        MatchingDone(catalog, patterns, glob);
      }
      return Ok(selected);
    }

    /** `deps`: the required projects of the named ones, filtered and ordered as the options say. */
    method Deps(showAll: bool, printNames: bool, eclipseOrdering: bool, projectNames: seq<string>) returns (r: Result<seq<string>, Failure>)
      requires Valid()
      modifies this
      ensures Valid() && Memoised()
      ensures catalog == null <==> r == Err(NoWorkspace(workspacePath))
      ensures catalog != null ==> r == Lift(DepsOf(catalog, known, projectNames, showAll, printNames, eclipseOrdering))
    {
      var c := GetBndCatalog();
      if c.Err? {
        return Err(c.error);
      }
      return Lift(DepsOf(c.value, known, projectNames, showAll, printNames, eclipseOrdering));
    }

    /** `gaps`: what the Eclipse projects need and Eclipse does not have. */
    method Gaps() returns (r: Result<seq<string>, Failure>)
      requires Valid()
      modifies this
      ensures Valid() && Memoised()
      ensures catalog == null <==> r == Err(NoWorkspace(workspacePath))
      ensures catalog != null ==> r == Lift(GapsOf(catalog, known))
    {
      var c := GetBndCatalog();
      if c.Err? {
        return Err(c.error);
      }
      return Lift(GapsOf(c.value, known));
    }

    /** `roots`: the names of the projects of the Eclipse projects' subgraph that nothing in it depends on. */
    method Roots() returns (r: Result<seq<string>, Failure>)
      requires Valid()
      modifies this
      ensures Valid() && Memoised()
      ensures catalog == null <==> r.Err?
      ensures catalog == null ==> r == Err(NoWorkspace(workspacePath))
      ensures catalog != null ==> r.Ok? && forall x :: x in r.value <==>
        exists p :: p in RootsIn(catalog, Reach(catalog, known)) && catalog.projects[p].name == x
    {
      var c := GetBndCatalog();
      if c.Err? {
        return Err(c.error);
      }
      c.value.SeedsFound(known, true);
      var graph := c.value.ProjectAndDependencySubgraph(known, true);
      var roots := RootsIn(c.value, graph.value);
      assert roots <= Reach(c.value, known);
      return Ok(NamesOf(c.value, roots));
    }

    /** `list`: every project name, sorted, or the names the patterns select. */
    method List(patterns: seq<string>) returns (r: Result<seq<string>, Failure>)
      requires Valid()
      modifies this
      ensures Valid() && Memoised()
      ensures catalog != null <==> workspace.Some?
      ensures catalog == null ==> r == Err(NoWorkspace(workspacePath))
      ensures catalog != null && patterns == [] ==> r == Ok(AllNames(catalog))
      ensures catalog != null && patterns != [] ==> r == Lift(Matching(catalog, patterns, glob))
    {
      if patterns == [] {
        var c := GetBndCatalog();
        if c.Err? {
          return Err(c.error);
        }
        return Ok(AllNames(c.value));
      }
      r := GetMatchingProjects(patterns);
    }

    /** `uses`: the names of the projects that depend directly on the named ones. */
    method Uses(projectNames: seq<string>) returns (r: Result<seq<string>, Failure>)
      requires Valid()
      modifies this
      ensures Valid() && Memoised()
      ensures catalog == null <==> r == Err(NoWorkspace(workspacePath))
      ensures catalog != null ==> r == Lift(UsersOf(catalog, projectNames))
    {
      var c := GetBndCatalog();
      if c.Err? {
        return Err(c.error);
      }
      return Lift(UsersOf(c.value, projectNames));
    }
  }
}
