/**
 * The workspace catalog: every folder of a bnd workspace that holds a `bnd.bnd` becomes a vertex
 * of a dependency graph. Projects are indexed by folder name and by a differing bundle symbolic
 * name (a later project overwrites an earlier one under the same key), and an edge `p -> q` is
 * added for each dependency entry of `p` that the index resolves to another project `q`.
 *
 * Vertices are identified by their position in the workspace listing: two projects are the same
 * vertex exactly when they have the same id.
 */
module BndCatalogs {
  import opened Wrappers
  import opened Seqs
  import opened JavaStrings
  import opened BndProjects
  import opened Digraphs

  /** The ways a catalog query fails. */
  datatype CatalogError =
    | NoMatch(pattern: string)
    | NoSuchName(name: string)
    | NotADag(emitted: seq<string>)

  /** The text of the error a failing query raises. */
  function Message(e: CatalogError): (r: string)
    ensures e.NoMatch? ==> r == "No project found matching pattern \"" + e.pattern + "\""
    ensures e.NoSuchName? ==> r == "No project found with name \"" + e.name + "\""
  {
    match e
    case NoMatch(pattern) => "No project found matching pattern \"" + pattern + "\""
    case NoSuchName(name) => "No project found with name \"" + name + "\""
    case NotADag(_) => "Graph is not a DAG"
  }

  /** The two lookup errors can be told apart by their text, and each text names its pattern or name. */
  lemma MessageIdentifies(e: CatalogError, f: CatalogError)
    requires !e.NotADag? && !f.NotADag?
    ensures Message(e) == Message(f) <==> e == f
  {
    var m, n := Message(e), Message(f);
    if m == n {
      assert m[17] == n[17];
      if e.NoMatch? {
        var pre := "No project found matching pattern \"";
        assert m[..|pre|] == pre && f.NoMatch?;
        assert e.pattern == m[|pre|..|m| - 1] == n[|pre|..|n| - 1] == f.pattern;
      } else {
        var pre := "No project found with name \"";
        assert m[..|pre|] == pre && f.NoSuchName?;
        assert e.name == m[|pre|..|m| - 1] == n[|pre|..|n| - 1] == f.name;
      }
    }
  }

  /** A glob matcher: `glob(pattern, key)` holds when the path `key` matches `pattern`. */
  type Glob = (string, string) -> bool

  /** A subdirectory that holds a `bnd.bnd`: its path and its descriptor files. */
  type ProjectDir = (string, Descriptor)

  function LoadDir(d: ProjectDir): (r: BndProject)
    ensures r.root == d.0 && r.name == FileName(d.0)
  {
    Load(d.0, d.1)
  }

  /** The keys a project is indexed under: its name, and its symbolic name when that differs. */
  function KeysOf(p: BndProject): (r: set<string>)
    ensures p.name in r
    ensures forall k :: k in r ==> k == p.name || (SymbolicNameDiffersFromName(p) && k == p.symbolicName.value)
    ensures SymbolicNameDiffersFromName(p) ==> p.symbolicName.value in r
  {
    {p.name} + (if SymbolicNameDiffersFromName(p) then {p.symbolicName.value} else {})
  }

  /** The name index built by putting each project's keys in listing order. */
  function NameIndex(projects: seq<BndProject>): map<string, nat>
  {
    if projects == [] then map[]
    else
      var p := projects[|projects| - 1];
      var m := NameIndex(projects[..|projects| - 1])[p.name := |projects| - 1];
      if SymbolicNameDiffersFromName(p) then m[p.symbolicName.value := |projects| - 1] else m
  }

  lemma NameIndexSnoc(projects: seq<BndProject>, p: BndProject)
    ensures NameIndex(projects + [p]) ==
      var m := NameIndex(projects)[p.name := |projects|];
      if SymbolicNameDiffersFromName(p) then m[p.symbolicName.value := |projects|] else m
  {
    assert (projects + [p])[..|projects|] == projects;
  }

  /**
   * Key `k` is in the index exactly when some project claims it, and it then maps to the last
   * project listed under it: a later project overwrites an earlier one that claims the same key.
   */
  lemma {:induction false} NameIndexLastWins(projects: seq<BndProject>, k: string)
    ensures k in NameIndex(projects) <==> exists i :: 0 <= i < |projects| && k in KeysOf(projects[i])
    ensures k in NameIndex(projects) ==>
      var i := NameIndex(projects)[k];
      && i < |projects| && k in KeysOf(projects[i])
      && forall j :: i < j < |projects| ==> k !in KeysOf(projects[j])
  {
    if projects != [] {
      var last := |projects| - 1;
      var init := projects[..last];
      NameIndexLastWins(init, k);
      assert forall j :: 0 <= j < last ==> init[j] == projects[j];
      if k !in KeysOf(projects[last]) {
        assert k in NameIndex(projects) <==> k in NameIndex(init);
        if k in NameIndex(init) {
          assert NameIndex(projects)[k] == NameIndex(init)[k];
        } else {
          assert forall j :: 0 <= j < last ==> k !in KeysOf(init[j]);
        }
      }
    }
  }

  /** The edges of project `i`: one to each other project that one of its dependency entries names. */
  function EdgesOf(idx: map<string, nat>, i: nat, deps: seq<string>): (r: set<Edge>)
    ensures forall e :: e in r ==> e.0 == i && e.1 != i
    ensures forall q :: (i, q) in r <==> q != i && exists d :: d in deps && d in idx && idx[d] == q
  {
    set d | d in deps && d in idx && idx[d] != i :: (i, idx[d])
  }

  /** One more dependency entry adds at most its own edge. */
  lemma EdgesOfNext(idx: map<string, nat>, i: nat, deps: seq<string>, j: nat)
    requires j < |deps|
    ensures EdgesOf(idx, i, deps[..j + 1])
         == EdgesOf(idx, i, deps[..j]) + (if deps[j] in idx && idx[deps[j]] != i then {(i, idx[deps[j]])} else {})
  {
    assert deps[..j + 1] == deps[..j] + [deps[j]];
  }

  /** The edges of the first `n` projects. */
  function EdgeSet(projects: seq<BndProject>, idx: map<string, nat>, n: nat): (r: set<Edge>)
    requires n <= |projects|
    ensures forall e :: e in r <==> e.0 < n && e in EdgesOf(idx, e.0, projects[e.0].dependencies)
  {
    if n == 0 then {} else EdgeSet(projects, idx, n - 1) + EdgesOf(idx, n - 1, projects[n - 1].dependencies)
  }

  /** Every edge joins two listed projects. */
  lemma EdgeSetWithin(projects: seq<BndProject>)
    ensures Within(EdgeSet(projects, NameIndex(projects), |projects|), Elems(Range(|projects|)))
  {
    var idx := NameIndex(projects);
    forall e | e in EdgeSet(projects, idx, |projects|) ensures e.0 < |projects| && e.1 < |projects| {
      assert e in EdgesOf(idx, e.0, projects[e.0].dependencies);
      var d :| d in projects[e.0].dependencies && d in idx && idx[d] == e.1;
      NameIndexLastWins(projects, d);
    }
  }

  class BndCatalog {
    /** The vertices, in the order the workspace listing produced them. */
    const projects: seq<BndProject>
    var nameIndex: map<string, nat>
    var pathIndex: map<string, nat>
    var edges: set<Edge>

    ghost predicate Valid()
      reads this
    {
      && (forall i :: 0 <= i < |projects| ==> projects[i].name == FileName(projects[i].root))
      && nameIndex == NameIndex(projects)
      && pathIndex == nameIndex
      && edges == EdgeSet(projects, nameIndex, |projects|)
      && Within(edges, Vertices())
    }

    /** The vertex ids. */
    function Vertices(): (r: set<nat>)
      ensures forall i: nat :: i in r <==> i < |projects|
    {
      Elems(Range(|projects|))
    }

    /** Each vertex's name, by id (the key of the topological order's tie-break). */
    function Names(): (r: seq<string>)
      ensures |r| == |projects|
      ensures forall i :: 0 <= i < |projects| ==> r[i] == projects[i].name
    {
      Map(projects, (p: BndProject) => p.name)
    }

    /** The folder paths of the given vertices, in the given order. */
    function RootsOf(ids: seq<nat>): (r: seq<string>)
      requires Named(Names(), ids)
      ensures |r| == |ids|
      ensures forall k :: 0 <= k < |ids| ==> r[k] == projects[ids[k]].root
    {
      seq(|ids|, k requires 0 <= k < |ids| => projects[ids[k]].root)
    }

    /** `nameIndex.get(name)`: the project indexed under `name`, if any. */
    function MaybeFind(name: string): (r: Option<nat>)
      reads this
      requires Valid()
      ensures r.Some? <==> exists i :: 0 <= i < |projects| && name in KeysOf(projects[i])
      ensures r.Some? ==> r.value < |projects| && name in KeysOf(projects[r.value])
      ensures r.Some? ==> forall j :: r.value < j < |projects| ==> name !in KeysOf(projects[j])
    {
      NameIndexLastWins(projects, name);
      if name in nameIndex then Some(nameIndex[name]) else None
    }

    /** `find(name)`: like `MaybeFind`, but an unknown name is an error. */
    function Find(name: string): (r: Result<nat, CatalogError>)
      reads this
      requires Valid()
      ensures r.Err? <==> forall i :: 0 <= i < |projects| ==> name !in KeysOf(projects[i])
      ensures r.Err? ==> r.error == NoSuchName(name)
      ensures r.Ok? ==> Some(r.value) == MaybeFind(name)
    {
      match MaybeFind(name)
      case None => Err(NoSuchName(name))
      case Some(p) => Ok(p)
    }

    /**
     * The named projects the closure starts from. Names are looked up in order; without
     * `ignoreMissing` the first unknown name is an error, with it unknown names are dropped.
     */
    function Seeds(projectNames: seq<string>, ignoreMissing: bool): (r: Result<set<nat>, CatalogError>)
      reads this
      requires Valid()
      ensures r.Ok? ==> r.value <= Vertices()
    {
      if projectNames == [] then Ok({})
      else
        var head := MaybeFind(projectNames[0]);
        if head.None? && !ignoreMissing then Err(NoSuchName(projectNames[0]))
        else
          match Seeds(projectNames[1..], ignoreMissing)
          case Err(e) => Err(e)
          case Ok(s) => Ok((if head.Some? then {head.value} else {}) + s)
    }

    /**
     * The seeds are the projects the names find; the lookup fails exactly when a name is unknown
     * and missing names are not ignored, and it then reports the first unknown name.
     */
    lemma {:induction false} SeedsFound(projectNames: seq<string>, ignoreMissing: bool)
      requires Valid()
      ensures var r := Seeds(projectNames, ignoreMissing);
        r.Ok? ==> forall p :: p in r.value <==> exists n :: n in projectNames && MaybeFind(n) == Some(p)
      ensures var r := Seeds(projectNames, ignoreMissing);
        r.Err? <==> !ignoreMissing && exists n :: n in projectNames && MaybeFind(n).None?
      ensures var r := Seeds(projectNames, ignoreMissing);
        r.Err? ==> && r.error.NoSuchName?
                   && var i := IndexOf(projectNames, r.error.name);
                   && i < |projectNames| && MaybeFind(r.error.name).None?
                   && forall j :: 0 <= j < i ==> MaybeFind(projectNames[j]).Some?
    {
      if projectNames != [] {
        var head := MaybeFind(projectNames[0]);
        var tail := projectNames[1..];
        SeedsFound(tail, ignoreMissing);
        assert forall n :: n in projectNames <==> n == projectNames[0] || n in tail;
        if !(head.None? && !ignoreMissing) {
          var rest := Seeds(tail, ignoreMissing);
          if rest.Err? {
            var name := rest.error.name;
            assert projectNames[0] != name;
            assert forall j :: 1 <= j < |projectNames| ==> projectNames[j] == tail[j - 1];
            assert IndexOf(projectNames, name) == 1 + IndexOf(tail, name);
          }
        }
      }
    }

    /**
     * `getProjectAndDependencySubgraph`: the vertex set of the subgraph of the named projects and
     * everything they depend on, directly or not. The loop adds the frontier to the results and
     * replaces it by its successors that are not results yet.
     */
    method ProjectAndDependencySubgraph(projectNames: seq<string>, ignoreMissing: bool) returns (r: Result<set<nat>, CatalogError>)
      requires Valid()
      ensures r.Err? <==> Seeds(projectNames, ignoreMissing).Err?
      ensures r.Err? ==> r.error == Seeds(projectNames, ignoreMissing).error
      ensures r.Ok? ==> r.value == Closure(edges, Vertices(), Seeds(projectNames, ignoreMissing).value)
    {
      var seeds := Seeds(projectNames, ignoreMissing);
      if seeds.Err? {
        return Err(seeds.error);
      }
      var projects := seeds.value;
      var results: set<nat> := {};
      while projects != {}
        invariant results <= Vertices() && projects <= Vertices() && results !! projects
        invariant Successors(edges, results) <= results + projects
        invariant ClosureFrom(edges, Vertices(), results, projects) == Closure(edges, Vertices(), seeds.value)
        decreases |Vertices() - results|
      {
        assert Vertices() - (results + projects) < Vertices() - results by {
          var x :| x in projects;
          assert x in Vertices() - results;
        }
        SuccessorsWithin(edges, Vertices(), projects);
        SuccessorsUnion(edges, results, projects);
        results := results + projects;
        projects := Successors(edges, projects) - results;
      }
      return Ok(results);
    }

    /**
     * `getRequiredProjectPaths`, as vertex ids: the closure of the named projects in topological
     * order of the reversed subgraph, dependencies first and, among ready projects, by name.
     */
    function RequiredProjects(projectNames: seq<string>, ignoreMissing: bool): (r: Result<seq<nat>, CatalogError>)
      reads this
      requires Valid()
      ensures r.Ok? ==> Named(Names(), r.value)
      ensures r.Err? && r.error.NotADag? ==> Seeds(projectNames, ignoreMissing).Ok?
    {
      match Seeds(projectNames, ignoreMissing)
      case Err(e) =>
        SeedsFound(projectNames, ignoreMissing);
        Err(e)
      case Ok(seeds) =>
        var s := Closure(edges, Vertices(), seeds);
        TopologicalOrderNamed(edges, Names(), s);
        match TopologicalOrder(edges, Names(), s)
        case Ok(order) => Ok(order)
        case Err(prefix) => Err(NotADag(RootsOf(prefix)))
    }

    /** `getRequiredProjectPaths`: the folders of `RequiredProjects`, in the same order. */
    function RequiredProjectPaths(projectNames: seq<string>, ignoreMissing: bool): (r: Result<seq<string>, CatalogError>)
      reads this
      requires Valid()
      ensures r.Ok? <==> RequiredProjects(projectNames, ignoreMissing).Ok?
      ensures r.Ok? ==> r.value == RootsOf(RequiredProjects(projectNames, ignoreMissing).value)
      ensures r.Err? ==> r.error == RequiredProjects(projectNames, ignoreMissing).error
    {
      match RequiredProjects(projectNames, ignoreMissing)
      case Ok(order) => Ok(RootsOf(order))
      case Err(e) => Err(e)
    }

    /**
     * The required projects are each project of the closure once, every project after all the
     * projects of the closure it depends on, and each the first by name of those ready at its turn.
     */
    lemma RequiredProjectsSorted(projectNames: seq<string>, ignoreMissing: bool)
      requires Valid()
      requires RequiredProjects(projectNames, ignoreMissing).Ok?
      ensures Seeds(projectNames, ignoreMissing).Ok?
      ensures
        var order := RequiredProjects(projectNames, ignoreMissing).value;
        var s := Closure(edges, Vertices(), Seeds(projectNames, ignoreMissing).value);
        && Elems(order) == s && Distinct(order)
        && DepsBefore(edges, s, order) && Greedy(edges, Names(), s, order)
    {
      var s := Closure(edges, Vertices(), Seeds(projectNames, ignoreMissing).value);
      TopologicalOrderIsSorted(edges, Names(), s);
    }

    /** When the graph has no cycle, the required projects of known names are always listed. */
    lemma RequiredProjectsOfAcyclic(projectNames: seq<string>, ignoreMissing: bool, rank: nat -> nat)
      requires Valid() && Ranked(edges, rank)
      requires Seeds(projectNames, ignoreMissing).Ok?
      ensures RequiredProjects(projectNames, ignoreMissing).Ok?
    {
      var s := Closure(edges, Vertices(), Seeds(projectNames, ignoreMissing).value);
      TopologicalOrderOfAcyclic(edges, Names(), s, rank);
    }

    /**
     * `getDependentProjectPaths`: the folders of the projects with an edge into a named project,
     * without repeats (listed in ascending order, where the stream's order is that of a hash set).
     */
    function DependentProjectPaths(projectNames: seq<string>): (r: Result<seq<string>, CatalogError>)
      reads this
      requires Valid()
      ensures r.Err? <==> Seeds(projectNames, false).Err?
      ensures r.Err? ==> r.error == Seeds(projectNames, false).error
      ensures r.Ok? ==> StrictlySorted(r.value)
      ensures r.Ok? ==> forall x :: x in r.value <==>
        exists e :: e in edges && e.1 in Seeds(projectNames, false).value && projects[e.0].root == x
    {
      match Seeds(projectNames, false)
      case Err(e) => Err(e)
      case Ok(targets) =>
        var users := set e | e in edges && e.1 in targets :: e.0;
        var r := SortedRoots(users);
        assert forall x :: x in r <==> exists e :: e in edges && e.1 in targets && projects[e.0].root == x by {
          forall x | x in r ensures exists e :: e in edges && e.1 in targets && projects[e.0].root == x {
            var i :| i in users && i < |projects| && projects[i].root == x;
            var e :| e in edges && e.1 in targets && e.0 == i;
          }
          forall e | e in edges && e.1 in targets ensures projects[e.0].root in r {
            assert e.0 in users;
          }
        }
        Ok(r)
    }

    /** The folders of the given vertices, sorted and without repeats (`map(root).sorted().distinct()`). */
    function SortedRoots(ids: set<nat>): (r: seq<string>)
      ensures StrictlySorted(r)
      ensures forall x :: x in r <==> exists i :: i in ids && i < |projects| && projects[i].root == x
    {
      var listed := Filter(Range(|projects|), i => i in ids);
      assert forall k :: 0 <= k < |listed| ==> listed[k] in listed;
      var roots := RootsOf(listed);
      forall x | x in roots ensures exists i :: i in ids && i < |projects| && projects[i].root == x {
        var k :| 0 <= k < |roots| && roots[k] == x;
        assert listed[k] in listed;
      }
      forall i | i in ids && i < |projects| ensures projects[i].root in roots {
        assert i in listed;
        var k :| 0 <= k < |listed| && listed[k] == i;
        assert roots[k] == projects[i].root;
      }
      SortDistinct(roots)
    }

    /** `allProjects`: the folders of the projects the path index holds, sorted and without repeats. */
    function AllProjects(): (r: seq<string>)
      reads this
      ensures StrictlySorted(r)
      ensures forall x :: x in r <==> exists k :: k in pathIndex && pathIndex[k] < |projects| && projects[pathIndex[k]].root == x
    {
      var ids := pathIndex.Values;
      var r := SortedRoots(ids);
      assert forall i :: i in ids <==> exists k :: k in pathIndex && pathIndex[k] == i;
      r
    }

    /**
     * A project is listed by `allProjects` exactly when it is still the last claimant of one of its
     * keys: a project whose name and symbolic name are all claimed by later projects is not listed.
     */
    lemma AllProjectsListsLastClaimants(i: nat)
      requires Valid() && i < |projects|
      ensures (exists k :: k in KeysOf(projects[i]) && forall j :: i < j < |projects| ==> k !in KeysOf(projects[j]))
        ==> projects[i].root in AllProjects()
    {
      if k :| k in KeysOf(projects[i]) && forall j :: i < j < |projects| ==> k !in KeysOf(projects[j]) {
        NameIndexLastWins(projects, k);
        assert k in pathIndex;
        assert pathIndex[k] == i;
      }
    }

    /**
     * Conversely, when no two projects share a folder, a listed project is the last claimant of
     * one of its keys: a project whose keys are all claimed by later projects is not listed.
     */
    lemma AllProjectsOnlyLastClaimants(i: nat)
      requires Valid() && i < |projects|
      requires forall a, b :: 0 <= a < b < |projects| ==> projects[a].root != projects[b].root
      ensures projects[i].root in AllProjects()
        ==> exists k :: k in KeysOf(projects[i]) && forall j :: i < j < |projects| ==> k !in KeysOf(projects[j])
    {
      if projects[i].root in AllProjects() {
        var k :| k in pathIndex && pathIndex[k] < |projects| && projects[pathIndex[k]].root == projects[i].root;
        assert pathIndex[k] == i;
        NameIndexLastWins(projects, k);
      }
    }

    /** `findProjects(pattern)`: the projects under an index key the glob accepts; none is an error. */
    function FindProjects(pattern: string, glob: Glob): (r: Result<set<nat>, CatalogError>)
      reads this
      requires Valid()
      ensures r.Err? <==> forall k :: k in pathIndex ==> !glob(pattern, k)
      ensures r.Err? ==> r.error == NoMatch(pattern)
      ensures r.Ok? ==> forall p :: p in r.value <==> exists k :: k in pathIndex && glob(pattern, k) && pathIndex[k] == p
    {
      var s := set k | k in pathIndex && glob(pattern, k) :: pathIndex[k];
      assert forall k :: k in pathIndex && glob(pattern, k) ==> pathIndex[k] in s;
      if s == {} then Err(NoMatch(pattern)) else Ok(s)
    }

    /** The union of the matches of every pattern, or the error of the first pattern that matches nothing. */
    function MatchAll(patterns: seq<string>, glob: Glob): (r: Result<set<nat>, CatalogError>)
      reads this
      requires Valid()
      ensures r.Ok? <==> forall k :: 0 <= k < |patterns| ==> FindProjects(patterns[k], glob).Ok?
      ensures r.Ok? ==> forall p :: p in r.value <==> exists k :: 0 <= k < |patterns| && p in FindProjects(patterns[k], glob).value
      ensures r.Err? ==> exists k :: FirstFailure(patterns, glob, r.error, k)
    {
      if patterns == [] then Ok({})
      else
        match FindProjects(patterns[0], glob)
        case Err(e) => assert FirstFailure(patterns, glob, e, 0); Err(e)
        case Ok(s) =>
          var rest := MatchAll(patterns[1..], glob);
          if rest.Err? then FirstFailureShifts(patterns, glob, rest.error); rest
          else MatchesShift(patterns, glob, s, rest.value); Ok(s + rest.value)
    }

    /** The matches of `patterns` are those of its first pattern and those of the rest. */
    lemma MatchesShift(patterns: seq<string>, glob: Glob, s: set<nat>, rest: set<nat>)
      requires Valid() && |patterns| > 0 && FindProjects(patterns[0], glob) == Ok(s)
      requires forall k :: 0 <= k < |patterns[1..]| ==> FindProjects(patterns[1..][k], glob).Ok?
      requires forall p :: p in rest <==> exists k :: 0 <= k < |patterns[1..]| && p in FindProjects(patterns[1..][k], glob).value
      ensures forall k :: 0 <= k < |patterns| ==> FindProjects(patterns[k], glob).Ok?
      ensures forall p :: p in s + rest <==> exists k :: 0 <= k < |patterns| && p in FindProjects(patterns[k], glob).value
    {
      forall k | 1 <= k < |patterns|
        ensures FindProjects(patterns[k], glob).Ok?
      {
        assert patterns[k] == patterns[1..][k - 1];
      }
      forall p | p in s + rest
        ensures exists k :: 0 <= k < |patterns| && p in FindProjects(patterns[k], glob).value
      {
        if p !in s {
          var k :| 0 <= k < |patterns[1..]| && p in FindProjects(patterns[1..][k], glob).value;
          assert patterns[1..][k] == patterns[k + 1];
        }
      }
      forall p | exists k :: 0 <= k < |patterns| && p in FindProjects(patterns[k], glob).value
        ensures p in s + rest
      {
        var k :| 0 <= k < |patterns| && p in FindProjects(patterns[k], glob).value;
        if k > 0 {
          assert patterns[k] == patterns[1..][k - 1];
        }
      }
    }

    /** A first failing pattern of `patterns[1..]` is, one place on, the first failing pattern of `patterns`. */
    lemma FirstFailureShifts(patterns: seq<string>, glob: Glob, e: CatalogError)
      requires Valid() && |patterns| > 0 && FindProjects(patterns[0], glob).Ok?
      requires exists k :: FirstFailure(patterns[1..], glob, e, k)
      ensures exists k :: FirstFailure(patterns, glob, e, k)
    {
      var k :| FirstFailure(patterns[1..], glob, e, k);
      assert FirstFailure(patterns, glob, e, k + 1);
    }

    /** Pattern `k` is the first of `patterns` that matches nothing, and `e` is its error. */
    ghost predicate FirstFailure(patterns: seq<string>, glob: Glob, e: CatalogError, k: int)
      reads this
      requires Valid()
    {
      && 0 <= k < |patterns| && e == NoMatch(patterns[k]) && FindProjects(patterns[k], glob).Err?
      && forall j :: 0 <= j < k ==> FindProjects(patterns[j], glob).Ok?
    }

    /** `findProjects(patterns)`: the folders of every match, sorted and without repeats. */
    function FindProjectPaths(patterns: seq<string>, glob: Glob): (r: Result<seq<string>, CatalogError>)
      reads this
      requires Valid()
      ensures r.Ok? <==> MatchAll(patterns, glob).Ok?
      ensures r.Ok? ==> StrictlySorted(r.value)
      ensures r.Ok? ==> forall x :: x in r.value <==> exists p :: p in MatchAll(patterns, glob).value && p < |projects| && projects[p].root == x
      ensures r.Err? ==> r.error == MatchAll(patterns, glob).error
    {
      match MatchAll(patterns, glob)
      case Err(e) => Err(e)
      case Ok(ids) => Ok(SortedRoots(ids))
    }

    /** Loads every listed project, indexes the projects by name and path, then adds the edges. */
    constructor (dirs: seq<ProjectDir>)
      ensures projects == Map(dirs, LoadDir)
      ensures Valid()
    {
      projects := Map(dirs, LoadDir);
      new;
      IndexByName();
      IndexByPath();
      AddEdges();
      EdgeSetWithin(projects);
    }

    /**
     * The index by folder name of the first `n` projects: its keys are exactly their names (their
     * folder names), each key under a project of that name.
     */
    ghost predicate FolderIndex(projects: seq<BndProject>, index: map<string, nat>, n: nat)
      requires n <= |projects|
    {
      && index.Keys == (set j | 0 <= j < n :: projects[j].name)
      && forall k :: k in index ==> index[k] < n && projects[index[k]].name == k
    }

    lemma FolderIndexStep(projects: seq<BndProject>, index: map<string, nat>, n: nat)
      requires n < |projects| && FolderIndex(projects, index, n)
      ensures FolderIndex(projects, index[projects[n].name := n], n + 1)
    {
      var next := index[projects[n].name := n];
      assert next.Keys == index.Keys + {projects[n].name};
      assert (set j | 0 <= j < n + 1 :: projects[j].name) == (set j | 0 <= j < n :: projects[j].name) + {projects[n].name};
    }

    /** Puts each project under its name and its differing symbolic name, and under its folder name by path. */
    method IndexByName()
      requires forall i :: 0 <= i < |projects| ==> projects[i].name == FileName(projects[i].root)
      modifies this
      ensures nameIndex == NameIndex(projects)
      ensures pathIndex.Keys <= nameIndex.Keys
      ensures FolderIndex(projects, pathIndex, |projects|)
      ensures edges == old(edges)
    {
      nameIndex := map[];
      pathIndex := map[];
      var i := 0;
      while i < |projects|
        invariant 0 <= i <= |projects|
        invariant nameIndex == NameIndex(projects[..i])
        invariant pathIndex.Keys <= nameIndex.Keys
        invariant FolderIndex(projects, pathIndex, i)
        invariant edges == old(edges)
      {
        var p := projects[i];
        assert projects[..i + 1] == projects[..i] + [p];
        NameIndexSnoc(projects[..i], p);
        var fileName := FileName(p.root);
        assert fileName == p.name;
        nameIndex := nameIndex[p.name := i];
        FolderIndexStep(projects, pathIndex, i);
        pathIndex := pathIndex[fileName := i];
        if SymbolicNameDiffersFromName(p) {
          nameIndex := nameIndex[p.symbolicName.value := i];
        }
        i := i + 1;
      }
      assert projects[..|projects|] == projects;
    }

    /** Puts every name index entry into the path index, under the name read as a path. */
    method IndexByPath()
      requires pathIndex.Keys <= nameIndex.Keys
      modifies this
      ensures pathIndex == nameIndex
      ensures nameIndex == old(nameIndex) && edges == old(edges)
    {
      var todo := nameIndex.Keys;
      while todo != {}
        invariant todo <= nameIndex.Keys
        invariant pathIndex.Keys <= nameIndex.Keys
        invariant forall k :: k in nameIndex && k !in todo ==> k in pathIndex && pathIndex[k] == nameIndex[k]
        invariant nameIndex == old(nameIndex) && edges == old(edges)
        decreases todo
      {
        var k :| k in todo;
        pathIndex := pathIndex[k := nameIndex[k]];
        todo := todo - {k};
      }
    }

    /** Adds an edge from each project to every other project one of its dependency entries names. */
    method AddEdges()
      modifies this
      ensures edges == EdgeSet(projects, nameIndex, |projects|)
      ensures nameIndex == old(nameIndex) && pathIndex == old(pathIndex)
    {
      edges := {};
      var i := 0;
      while i < |projects|
        invariant i <= |projects|
        invariant edges == EdgeSet(projects, nameIndex, i)
        invariant nameIndex == old(nameIndex) && pathIndex == old(pathIndex)
      {
        var deps := projects[i].dependencies;
        var j := 0;
        while j < |deps|
          invariant j <= |deps|
          invariant edges == EdgeSet(projects, nameIndex, i) + EdgesOf(nameIndex, i, deps[..j])
          invariant nameIndex == old(nameIndex) && pathIndex == old(pathIndex)
        {
          var d := deps[j];
          EdgesOfNext(nameIndex, i, deps, j);
          if d in nameIndex && nameIndex[d] != i {
            edges := edges + {(i, nameIndex[d])};
          }
          j := j + 1;
        }
        assert deps[..j] == deps;
        i := i + 1;
      }
    }
  }
}
