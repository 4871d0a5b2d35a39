/**
 * The `bnddeps` catalog: projects are created lazily by name through a pre-canonical map
 * (`preCanon`), cooked once (their `-buildpath` then `-testpath` entries resolved to real projects)
 * and then remembered in a canonical map (`canon`). Project objects are ids into the catalog's
 * `projects` arena; the object a map entry refers to is the id it stores.
 */
module BndDepsCatalog {
  import opened Wrappers
  import opened Seqs
  import opened JavaStrings
  import B = BndProjects
  import PostOrder

  /**
   * The workspace folder: for a name, the descriptor files of `name/bnd.bnd` (and of
   * `name/bnd.overrides`) when `name/bnd.bnd` exists, `None` otherwise.
   */
  type Workspace = string -> Option<B.Descriptor>

  /**
   * A project as constructed: its folder name, whether the folder has a `bnd.bnd`, and the
   * descriptor properties it read (none for a placeholder).
   */
  datatype Project = Project(name: string, isRealProject: bool, bndProps: B.Properties)
  {
    /** The raw `Bundle-SymbolicName` header of a real project (absent when missing); a placeholder's is its name. */
    function BundleSymbolicName(): (r: Option<string>)
      ensures !isRealProject ==> r == Some(name)
      ensures isRealProject ==> (r.Some? <==> B.BundleSymbolicName in bndProps)
      ensures isRealProject && r.Some? ==> r.value == bndProps[B.BundleSymbolicName]
    {
      if !isRealProject then Some(name)
      else if B.BundleSymbolicName in bndProps then Some(bndProps[B.BundleSymbolicName])
      else None
    }

    /** The `-buildpath` entries, each cut at its first `;`. */
    function BuildPath(): seq<string>
    {
      B.PathProp(bndProps, B.BuildPath)
    }

    /** The `-testpath` entries, each cut at its first `;`. */
    function TestPath(): seq<string>
    {
      B.PathProp(bndProps, B.TestPath)
    }
  }

  /**
   * `new Project(name)`: `None` when the name cannot be resolved against the workspace (it holds a
   * NUL character). A folder with `bnd.bnd` reads the descriptor, `bnd.overrides` layered on top;
   * any other name is a placeholder.
   */
  function NewProject(ws: Workspace, name: string): (r: Option<Project>)
    ensures r.None? <==> '\0' in name
    ensures r.Some? ==> r.value.name == name && (r.value.isRealProject <==> ws(name).Some?)
    ensures r.Some? && r.value.isRealProject ==> r.value.bndProps == B.Layered(ws(name).value)
  {
    if '\0' in name then None
    else match ws(name)
      case None => Some(Project(name, false, map[]))
      case Some(d) => Some(Project(name, true, B.Layered(d)))
  }

  /** A present, non-empty symbolic name that is not the folder name. */
  predicate SymbolicNameDiffersFromName(p: Project)
  {
    var bsn := p.BundleSymbolicName();
    bsn.Some? && bsn.value != [] && bsn.value != p.name
  }

  /** The keys the catalog's constructor stores a project under. */
  predicate Claims(p: Project, key: string)
  {
    p.name == key || (SymbolicNameDiffersFromName(p) && p.BundleSymbolicName().value == key)
  }

  /** The constructor's `preCanon`: each project, in listing order, under its name and then its differing symbolic name. */
  function Registered(projects: seq<Project>): map<string, nat>
  {
    if projects == [] then map[]
    else
      var i := |projects| - 1;
      var p := projects[i];
      var m := Registered(projects[..i])[p.name := i];
      if SymbolicNameDiffersFromName(p) then m[p.BundleSymbolicName().value := i] else m
  }

  /** Registering one more project: its name, then its differing symbolic name, map to its id. */
  lemma RegisteredSnoc(projects: seq<Project>, p: Project)
    ensures var m := Registered(projects)[p.name := |projects|];
      Registered(projects + [p]) == if SymbolicNameDiffersFromName(p) then m[p.BundleSymbolicName().value := |projects|] else m
  {
    assert (projects + [p])[..|projects|] == projects;
  }

  /**
   * A key is registered exactly when some project claims it, and then it names the last project
   * that claims it: a later folder's symbolic name replaces an earlier folder's entry.
   */
  lemma {:induction false} RegisteredLastWins(projects: seq<Project>, key: string)
    ensures key in Registered(projects) <==> exists i :: 0 <= i < |projects| && Claims(projects[i], key)
    ensures key in Registered(projects) ==>
      var i := Registered(projects)[key];
      && i < |projects| && Claims(projects[i], key)
      && forall j :: i < j < |projects| ==> !Claims(projects[j], key)
  {
    if projects != [] {
      var n := |projects| - 1;
      RegisteredLastWins(projects[..n], key);
      if !Claims(projects[n], key) && key in Registered(projects[..n]) {
        var i := Registered(projects[..n])[key];
        assert projects[..n][i] == projects[i];
      }
      if key !in Registered(projects) {
        forall i | 0 <= i < |projects| ensures !Claims(projects[i], key) {
          if i < n {
            assert projects[..n][i] == projects[i];
          }
        }
      }
    }
  }

  /** The values of the constructor's `preCanon` are ids of listed projects. */
  lemma {:induction false} RegisteredInRange(projects: seq<Project>)
    ensures forall k :: k in Registered(projects) ==> Registered(projects)[k] < |projects|
    ensures forall i :: 0 <= i < |projects| ==> projects[i].name in Registered(projects)
  {
    if projects != [] {
      var n := |projects| - 1;
      RegisteredInRange(projects[..n]);
      forall i | 0 <= i < n ensures projects[i].name in Registered(projects) {
        assert projects[..n][i] == projects[i];
      }
    }
  }

  /** The constructor's registration loop over the created projects, in order. */
  method RegisterAll(projects: seq<Project>) returns (index: map<string, nat>)
    ensures index == Registered(projects)
  {
    index := map[];
    var k := 0;
    while k < |projects|
      invariant 0 <= k <= |projects|
      invariant index == Registered(projects[..k])
    {
      var p := projects[k];
      RegisteredSnoc(projects[..k], p);
      assert projects[..k + 1] == projects[..k] + [p];
      index := index[p.name := k];
      if SymbolicNameDiffersFromName(p) {
        index := index[p.BundleSymbolicName().value := k];
      }
      k := k + 1;
    }
    assert projects[..k] == projects;
  }

  /** `new Project(name)` for each folder name, in order. */
  function Created(ws: Workspace, names: seq<string>): (r: seq<Project>)
    requires forall k :: 0 <= k < |names| ==> '\0' !in names[k]
    ensures |r| == |names|
    ensures forall i :: 0 <= i < |r| ==> NewProject(ws, names[i]) == Some(r[i])
  {
    seq(|names|, i requires 0 <= i < |names| => NewProject(ws, names[i]).value)
  }

  /** The id a stripped path entry resolves to in `addDeps`: a known name of a real project, or nothing. */
  function Lookup(index: map<string, nat>, projects: seq<Project>, name: string): (r: seq<nat>)
    ensures |r| <= 1
    ensures r != [] <==> name in index && index[name] < |projects| && projects[index[name]].isRealProject
    ensures r != [] ==> r[0] == index[name]
  {
    if name in index && index[name] < |projects| && projects[index[name]].isRealProject then [index[name]] else []
  }

  /** The ids a list of stripped path entries resolves to, in order. */
  function Resolve(index: map<string, nat>, projects: seq<Project>, names: seq<string>): (r: seq<nat>)
    ensures |r| <= |names|
    ensures forall k :: 0 <= k < |r| ==> r[k] < |projects| && projects[r[k]].isRealProject
  {
    if names == [] then []
    else Resolve(index, projects, names[..|names| - 1]) + Lookup(index, projects, names[|names| - 1])
  }

  /** Resolving two lists one after the other is resolving their concatenation. */
  lemma {:induction false} ResolveAppend(index: map<string, nat>, projects: seq<Project>, a: seq<string>, b: seq<string>)
    ensures Resolve(index, projects, a + b) == Resolve(index, projects, a) + Resolve(index, projects, b)
    decreases |b|
  {
    if b == [] {
      assert a + b == a;
    } else {
      var n := |b| - 1;
      assert (a + b)[..|a + b| - 1] == a + b[..n];
      ResolveAppend(index, projects, a, b[..n]);
    }
  }

  /** Resolving one more entry of `names` appends its lookup. */
  lemma ResolveNext(index: map<string, nat>, projects: seq<Project>, names: seq<string>, k: nat)
    requires k < |names|
    ensures Resolve(index, projects, names[..k + 1]) == Resolve(index, projects, names[..k]) + Lookup(index, projects, names[k])
  {
    assert names[..k + 1][..k] == names[..k];
  }

  /** A name `addDeps` has looked up: it is now in the index, or it could not be a project at all. */
  predicate Settled(index: map<string, nat>, names: seq<string>)
  {
    forall k :: 0 <= k < |names| ==> names[k] in index || '\0' in names[k]
  }

  /** Project `i` of `a`, when there is one, is still project `i` of `b`. */
  predicate ProjectKept(a: seq<Project>, b: seq<Project>, i: nat)
  {
    i < |a| ==> i < |b| && b[i] == a[i]
  }

  /** `a` is a prefix of `b`. */
  ghost predicate Prefix(a: seq<Project>, b: seq<Project>)
  {
    |a| <= |b| && forall i: nat {:trigger ProjectKept(a, b, i)} :: ProjectKept(a, b, i)
  }

  /** Key `k` keeps its entry, and is only added when it holds no NUL. */
  predicate KeyKept(a: map<string, nat>, b: map<string, nat>, k: string)
  {
    && (k in a ==> k in b && b[k] == a[k])
    && (k in b && k !in a ==> '\0' !in k)
  }

  /** The index only gains entries, and only under names without a NUL. */
  ghost predicate IndexGrows(a: map<string, nat>, b: map<string, nat>)
  {
    forall k {:trigger KeyKept(a, b, k)} :: KeyKept(a, b, k)
  }

  /** Key `k`, if present, names one of the first `count` projects. */
  predicate IndexedAt(index: map<string, nat>, count: nat, k: string)
  {
    k in index ==> index[k] < count
  }

  /** Every entry of the index names one of the first `count` projects. */
  ghost predicate IndexInRange(index: map<string, nat>, count: nat)
  {
    forall k {:trigger IndexedAt(index, count, k)} :: IndexedAt(index, count, k)
  }

  /**
   * Resolution is stable while the index only grows: names it knew keep their id, and names it
   * did not know and could not hold are not added.
   */
  lemma {:induction false} ResolveStable(index: map<string, nat>, projects: seq<Project>,
                                         index': map<string, nat>, projects': seq<Project>, names: seq<string>)
    requires Prefix(projects, projects') && IndexGrows(index, index')
    requires IndexInRange(index, |projects|)
    requires Settled(index, names)
    ensures Resolve(index, projects, names) == Resolve(index', projects', names)
  {
    if names != [] {
      var n := |names| - 1;
      assert Settled(index, names[..n]) by {
        forall j | 0 <= j < n ensures names[..n][j] in index || '\0' in names[..n][j] {
          assert names[..n][j] == names[j];
        }
      }
      ResolveStable(index, projects, index', projects', names[..n]);
      assert KeyKept(index, index', names[n]);
      if names[n] in index {
        assert IndexedAt(index, |projects|, names[n]);
        assert ProjectKept(projects, projects', index[names[n]]);
      }
    }
  }

  /** `Settled` is kept as the index grows, and extended by one more looked-up name. */
  lemma SettledNext(a: map<string, nat>, b: map<string, nat>, names: seq<string>, k: nat)
    requires k < |names| && Settled(a, names[..k]) && IndexGrows(a, b)
    requires names[k] in b || '\0' in names[k]
    ensures Settled(b, names[..k + 1])
  {
    var next := names[..k + 1];
    forall j | 0 <= j < k + 1 ensures next[j] in b || '\0' in next[j] {
      if j < k {
        assert next[j] == names[..k][j];
        assert KeyKept(a, b, next[j]);
      }
    }
  }

  /** Sets only shrink in size when their elements are taken away. */
  lemma {:induction false} CardMono<T>(a: set<T>, b: set<T>)
    requires a <= b
    ensures |a| <= |b|
    decreases |a|
  {
    if a != {} {
      var x :| x in a;
      CardMono(a - {x}, b - {x});
    }
  }

  /** The dependency-first listing from `p`, with known projects hidden unless `showAll`. */
  function Visible(names: seq<string>, knownProjects: set<string>, showAll: bool, ids: seq<nat>): (r: seq<nat>)
    ensures forall x :: x in r <==> x in ids && (showAll || (x < |names| && names[x] !in knownProjects))
  {
    Filter(ids, (i: nat) => showAll || (i < |names| && names[i] !in knownProjects))
  }

  /** The catalog's mutable state: the projects constructed so far (an id is an index), their dependency lists, and `preCanon`. */
  datatype Arena = Arena(projects: seq<Project>, dependencies: seq<Option<seq<nat>>>, preCanon: map<string, nat>)

  /** Every id in a dependency list is a real project that has itself been cooked. */
  predicate Listed(a: Arena, ids: seq<nat>)
  {
    forall k :: 0 <= k < |ids| ==>
      ids[k] < |a.projects| && ids[k] < |a.dependencies| && a.projects[ids[k]].isRealProject && a.dependencies[ids[k]].Some?
  }

  /** Projects `i` and `j`, `i` listed first, have different names. */
  predicate Apart(projects: seq<Project>, i: nat, j: nat)
  {
    i < j < |projects| ==> projects[i].name != projects[j].name
  }

  /**
   * Project `i` of `a`: known to `preCanon` by its name, named in `universe` when real, holding
   * `[]` from the start when a placeholder, and holding only cooked real projects once cooked.
   */
  predicate Entry(universe: set<string>, a: Arena, i: nat)
  {
    i < |a.projects| && i < |a.dependencies| ==>
      && a.projects[i].name in a.preCanon
      && (a.projects[i].isRealProject ==> a.projects[i].name in universe)
      && (!a.projects[i].isRealProject ==> a.dependencies[i] == Some([]))
      && (a.dependencies[i].Some? ==> Listed(a, a.dependencies[i].value))
  }

  /** The arena's invariant: `preCanon` names projects, project names are distinct, and every project is a good `Entry`. */
  ghost predicate WellFormed(universe: set<string>, a: Arena)
  {
    && |a.dependencies| == |a.projects|
    && IndexInRange(a.preCanon, |a.projects|)
    && (forall i: nat, j: nat {:trigger Apart(a.projects, i, j)} :: Apart(a.projects, i, j))
    && (forall i: nat {:trigger Entry(universe, a, i)} :: Entry(universe, a, i))
  }

  /** The names of the real projects cooked so far. */
  function CookedNames(a: Arena): set<string>
  {
    set i | 0 <= i < |a.projects| && i < |a.dependencies| && a.projects[i].isRealProject && a.dependencies[i].Some? :: a.projects[i].name
  }

  /** A list that `a` holds for project `i` is still `b`'s list for it. */
  predicate DepsKept(a: seq<Option<seq<nat>>>, b: seq<Option<seq<nat>>>, i: nat)
  {
    i < |a| && a[i].Some? ==> i < |b| && b[i] == a[i]
  }

  /**
   * What any step may do to the arena: add projects, keep every list that `a` has cooked, keep
   * every `preCanon` entry, and add entries only under names without a NUL.
   */
  ghost predicate Grows(a: Arena, b: Arena)
  {
    && Prefix(a.projects, b.projects)
    && (forall i: nat {:trigger DepsKept(a.dependencies, b.dependencies, i)} :: DepsKept(a.dependencies, b.dependencies, i))
    && IndexGrows(a.preCanon, b.preCanon)
  }

  /** `a` with project `p`'s list replaced by `deps`. */
  function WithDeps(a: Arena, p: nat, deps: Option<seq<nat>>): (r: Arena)
    requires p < |a.dependencies|
    ensures r.projects == a.projects && r.preCanon == a.preCanon && r.dependencies == a.dependencies[p := deps]
  {
    a.(dependencies := a.dependencies[p := deps])
  }

  lemma GrowsRefl(a: Arena)
    ensures Grows(a, a)
  {
    forall i: nat ensures ProjectKept(a.projects, a.projects, i) && DepsKept(a.dependencies, a.dependencies, i) {
    }
    forall k ensures KeyKept(a.preCanon, a.preCanon, k) {
    }
  }

  lemma GrowsTrans(a: Arena, b: Arena, c: Arena)
    requires Grows(a, b) && Grows(b, c)
    ensures Grows(a, c)
  {
    forall i: nat ensures ProjectKept(a.projects, c.projects, i) && DepsKept(a.dependencies, c.dependencies, i) {
      assert ProjectKept(a.projects, b.projects, i) && ProjectKept(b.projects, c.projects, i);
      assert DepsKept(a.dependencies, b.dependencies, i) && DepsKept(b.dependencies, c.dependencies, i);
    }
    forall k ensures KeyKept(a.preCanon, c.preCanon, k) {
      assert KeyKept(a.preCanon, b.preCanon, k) && KeyKept(b.preCanon, c.preCanon, k);
    }
  }

  /** Changing a list that `a` had not cooked keeps `Grows(a, _)`. */
  lemma GrowsUpdate(a: Arena, b: Arena, p: nat, deps: Option<seq<nat>>)
    requires Grows(a, b) && p < |b.dependencies|
    requires p < |a.dependencies| ==> a.dependencies[p].None?
    ensures Grows(a, WithDeps(b, p, deps))
  {
    var c := WithDeps(b, p, deps);
    forall i: nat ensures DepsKept(a.dependencies, c.dependencies, i) {
      assert DepsKept(a.dependencies, b.dependencies, i);
    }
  }

  /** Forgetting one of `a`'s lists keeps `Grows(_, b)`. */
  lemma GrowsForget(a: Arena, b: Arena, p: nat)
    requires Grows(a, b) && p < |a.dependencies|
    ensures Grows(WithDeps(a, p, None), b)
  {
    var c := WithDeps(a, p, None);
    forall i: nat ensures DepsKept(c.dependencies, b.dependencies, i) {
      assert DepsKept(a.dependencies, b.dependencies, i);
    }
  }

  lemma {:induction false} CookedMono(a: Arena, b: Arena)
    requires |a.dependencies| == |a.projects| && Grows(a, b)
    ensures CookedNames(a) <= CookedNames(b)
  {
    forall x | x in CookedNames(a) ensures x in CookedNames(b) {
      var i :| 0 <= i < |a.projects| && i < |a.dependencies| && a.projects[i].isRealProject && a.dependencies[i].Some? && a.projects[i].name == x;
      assert ProjectKept(a.projects, b.projects, i) && DepsKept(a.dependencies, b.dependencies, i);
    }
  }

  /** A list of cooked real projects stays one as the arena grows. */
  lemma ListedGrows(a: Arena, b: Arena, ids: seq<nat>)
    requires Listed(a, ids) && Grows(a, b)
    ensures Listed(b, ids)
  {
    forall k | 0 <= k < |ids| ensures ids[k] < |b.projects| && ids[k] < |b.dependencies| && b.projects[ids[k]].isRealProject && b.dependencies[ids[k]].Some? {
      assert ProjectKept(a.projects, b.projects, ids[k]) && DepsKept(a.dependencies, b.dependencies, ids[k]);
    }
  }

  /** The constructor's arena: one uncooked real project per folder, indexed by `Registered`. */
  lemma {:induction false} InitialWellFormed(universe: set<string>, ws: Workspace, folders: seq<string>,
                                             projects: seq<Project>, deps: seq<Option<seq<nat>>>)
    requires forall n :: ws(n).Some? ==> n in universe
    requires Distinct(folders) && forall k :: 0 <= k < |folders| ==> ws(folders[k]).Some?
    requires forall k :: 0 <= k < |folders| ==> '\0' !in folders[k]
    requires projects == Created(ws, folders)
    requires |deps| == |projects| && forall i :: 0 <= i < |deps| ==> deps[i].None?
    ensures WellFormed(universe, Arena(projects, deps, Registered(projects)))
  {
    var a := Arena(projects, deps, Registered(projects));
    RegisteredInRange(projects);
    forall k ensures IndexedAt(a.preCanon, |projects|, k) {
    }
    forall i | 0 <= i < |projects| ensures projects[i].name == folders[i] && projects[i].isRealProject {
      assert NewProject(ws, folders[i]) == Some(projects[i]);
    }
    forall i: nat, j: nat ensures Apart(projects, i, j) {
    }
    forall i: nat ensures Entry(universe, a, i) {
    }
  }

  /** Storing a new project under its own name, uncooked when it is real. */
  lemma {:induction false} AddProject(universe: set<string>, a: Arena, p: Project)
    requires WellFormed(universe, a) && p.name !in a.preCanon && '\0' !in p.name
    requires p.isRealProject ==> p.name in universe
    ensures var b := Arena(a.projects + [p], a.dependencies + [if p.isRealProject then None else Some([])],
                           a.preCanon[p.name := |a.projects|]);
      WellFormed(universe, b) && Grows(a, b) && CookedNames(b) == CookedNames(a)
  {
    var b := Arena(a.projects + [p], a.dependencies + [if p.isRealProject then None else Some([])],
                   a.preCanon[p.name := |a.projects|]);
    forall i: nat ensures ProjectKept(a.projects, b.projects, i) && DepsKept(a.dependencies, b.dependencies, i) {
    }
    forall k ensures KeyKept(a.preCanon, b.preCanon, k) && IndexedAt(b.preCanon, |b.projects|, k) {
      assert IndexedAt(a.preCanon, |a.projects|, k);
    }
    assert Grows(a, b);
    forall i: nat, j: nat ensures Apart(b.projects, i, j) {
      if j < |a.projects| {
        assert Apart(a.projects, i, j);
      } else if i < j < |b.projects| {
        assert Entry(universe, a, i);
      }
    }
    forall i: nat ensures Entry(universe, b, i) {
      if i < |a.projects| {
        assert Entry(universe, a, i);
        if a.dependencies[i].Some? {
          ListedGrows(a, b, a.dependencies[i].value);
        }
      }
    }
    assert forall i :: 0 <= i < |a.projects| ==> b.projects[i] == a.projects[i] && b.dependencies[i] == a.dependencies[i];
  }

  /** Giving an uncooked project its empty list keeps the invariant. */
  lemma {:induction false} MarkCooked(universe: set<string>, a: Arena, p: nat)
    requires WellFormed(universe, a) && p < |a.projects| && a.dependencies[p].None?
    ensures a.projects[p].isRealProject && a.projects[p].name in universe
    ensures WellFormed(universe, WithDeps(a, p, Some([]))) && Grows(a, WithDeps(a, p, Some([])))
  {
    var b := WithDeps(a, p, Some([]));
    assert Entry(universe, a, p);
    GrowsRefl(a);
    GrowsUpdate(a, a, p, Some([]));
    forall i: nat, j: nat ensures Apart(b.projects, i, j) {
      assert Apart(a.projects, i, j);
    }
    forall i: nat ensures Entry(universe, b, i) {
      assert Entry(universe, a, i);
      if i != p && i < |a.projects| && a.dependencies[i].Some? {
        ListedGrows(a, b, a.dependencies[i].value);
      }
    }
  }

  /** Cooking an uncooked real project named in `universe` leaves one name fewer to cook. */
  lemma {:induction false} MarkCookedNames(universe: set<string>, a: Arena, p: nat)
    requires WellFormed(universe, a) && p < |a.projects| && a.dependencies[p].None?
    requires a.projects[p].isRealProject && a.projects[p].name in universe
    ensures |universe - CookedNames(WithDeps(a, p, Some([])))| < |universe - CookedNames(a)|
  {
    var b := WithDeps(a, p, Some([]));
    var name := a.projects[p].name;
    forall i | 0 <= i < |a.projects| && a.projects[i].name == name ensures i == p {
      assert Apart(a.projects, i, p) && Apart(a.projects, p, i);
    }
    assert name !in CookedNames(a);
    assert CookedNames(b) == CookedNames(a) + {name};
    assert universe - CookedNames(b) == (universe - CookedNames(a)) - {name};
  }

  /** Appending a cooked real project to a real project's cooked list keeps the invariant. */
  lemma {:induction false} AppendDep(universe: set<string>, a: Arena, p: nat, c: nat)
    requires WellFormed(universe, a) && p < |a.projects| && a.projects[p].isRealProject && a.dependencies[p].Some?
    requires c < |a.projects| && a.projects[c].isRealProject && a.dependencies[c].Some?
    ensures WellFormed(universe, WithDeps(a, p, Some(a.dependencies[p].value + [c])))
  {
    var b := WithDeps(a, p, Some(a.dependencies[p].value + [c]));
    forall i: nat, j: nat ensures Apart(b.projects, i, j) {
      assert Apart(a.projects, i, j);
    }
    forall i: nat ensures Entry(universe, b, i) {
      assert Entry(universe, a, i);
      if i < |a.projects| && b.dependencies[i].Some? {
        var ids := b.dependencies[i].value;
        forall k | 0 <= k < |ids| ensures ids[k] < |b.projects| && ids[k] < |b.dependencies| && b.projects[ids[k]].isRealProject && b.dependencies[ids[k]].Some? {
          if i != p || k < |ids| - 1 {
            assert Listed(a, a.dependencies[i].value);
          }
        }
      }
    }
  }

  /** Replacing one cooked list by another cooks no other name. */
  lemma {:induction false} AppendDepNames(a: Arena, p: nat, deps: seq<nat>)
    requires |a.dependencies| == |a.projects| && p < |a.projects| && a.dependencies[p].Some?
    ensures CookedNames(WithDeps(a, p, Some(deps))) == CookedNames(a)
  {
    var b := WithDeps(a, p, Some(deps));
    forall x ensures x in CookedNames(b) <==> x in CookedNames(a) {
      if x in CookedNames(a) {
        var i :| 0 <= i < |a.projects| && a.projects[i].isRealProject && a.dependencies[i].Some? && a.projects[i].name == x;
        assert b.dependencies[i].Some?;
      }
      if x in CookedNames(b) {
        var i :| 0 <= i < |b.projects| && b.projects[i].isRealProject && b.dependencies[i].Some? && b.projects[i].name == x;
        assert a.dependencies[i].Some?;
      }
    }
  }

  /**
   * The end of one `addDeps` entry: after cooking `c` the arena `s2` has grown from `s1`, and
   * appending `c` to `p`'s list keeps the invariant, cooks no other name and keeps `p`.
   */
  lemma AttachDone(universe: set<string>, s1: Arena, s2: Arena, p: nat, c: nat)
    requires |s1.dependencies| == |s1.projects| && p < |s1.projects| && s1.projects[p].isRealProject && s1.dependencies[p].Some?
    requires WellFormed(universe, s2) && Grows(s1, s2)
    requires c < |s1.projects| && s1.projects[c].isRealProject && c < |s2.dependencies| && s2.dependencies[c].Some?
    ensures p < |s2.dependencies| && s2.dependencies[p] == s1.dependencies[p] && s2.projects[p] == s1.projects[p]
    ensures var s3 := WithDeps(s2, p, Some(s2.dependencies[p].value + [c]));
      && WellFormed(universe, s3) && Grows(WithDeps(s1, p, None), s3)
      && CookedNames(s1) <= CookedNames(s3)
  {
    CookedMono(s1, s2);
    assert ProjectKept(s1.projects, s2.projects, p) && DepsKept(s1.dependencies, s2.dependencies, p);
    assert ProjectKept(s1.projects, s2.projects, c);
    AppendDep(universe, s2, p, c);
    AppendDepNames(s2, p, s2.dependencies[p].value + [c]);
    GrowsForget(s1, s2, p);
    GrowsUpdate(WithDeps(s1, p, None), s2, p, Some(s2.dependencies[p].value + [c]));
  }

  /** Every remembered canonical project is a cooked project of the arena. */
  predicate Remembers(canon: map<string, nat>, a: Arena)
  {
    forall k :: k in canon ==> canon[k] < |a.projects| && canon[k] < |a.dependencies| && a.dependencies[canon[k]].Some?
  }

  lemma RemembersGrows(canon: map<string, nat>, a: Arena, b: Arena)
    requires Remembers(canon, a) && Grows(a, b)
    ensures Remembers(canon, b)
  {
    forall k | k in canon ensures canon[k] < |b.projects| && canon[k] < |b.dependencies| && b.dependencies[canon[k]].Some? {
      assert ProjectKept(a.projects, b.projects, canon[k]) && DepsKept(a.dependencies, b.dependencies, canon[k]);
    }
  }

  /** Remembering one more cooked project. */
  lemma RemembersAdd(canon: map<string, nat>, a: Arena, name: string, c: nat)
    requires Remembers(canon, a) && c < |a.projects| && c < |a.dependencies| && a.dependencies[c].Some?
    ensures Remembers(canon[name := c], a)
  {
  }

  /** Every remembered project stays cooked while one cooked list is replaced and the arena grows. */
  lemma RemembersStep(canon: map<string, nat>, a: Arena, b: Arena, p: nat)
    requires Remembers(canon, a) && p < |a.dependencies| && Grows(WithDeps(a, p, None), b)
    requires p < |b.dependencies| && b.dependencies[p].Some?
    ensures Remembers(canon, b)
  {
    var w := WithDeps(a, p, None);
    forall k | k in canon ensures canon[k] < |b.projects| && canon[k] < |b.dependencies| && b.dependencies[canon[k]].Some? {
      assert DepsKept(w.dependencies, b.dependencies, canon[k]);
    }
  }

  /**
   * One step of `addDeps`: the list resolved so far stays resolved the same way while the
   * index grows, and gains the lookup of the next entry.
   */
  lemma AddDepsStep(universe: set<string>, start: Arena, s0: Arena, s1: Arena, p: nat, base: seq<nat>, names: seq<string>, k: nat)
    requires WellFormed(universe, s0) && k < |names| && p < |s0.dependencies|
    requires p < |start.dependencies| ==> start.dependencies[p].None?
    requires Grows(start, s0) && Grows(WithDeps(s0, p, None), s1)
    requires s0.dependencies[p] == Some(base + Resolve(s0.preCanon, s0.projects, names[..k]))
    requires Settled(s0.preCanon, names[..k])
    requires p < |s1.dependencies| && s1.dependencies[p] == Some(s0.dependencies[p].value + Lookup(s1.preCanon, s1.projects, names[k]))
    requires names[k] in s1.preCanon || '\0' in names[k]
    ensures Grows(start, s1)
    ensures s1.dependencies[p] == Some(base + Resolve(s1.preCanon, s1.projects, names[..k + 1]))
    ensures Settled(s1.preCanon, names[..k + 1])
  {
    GrowsUpdate(start, s0, p, None);
    GrowsTrans(start, WithDeps(s0, p, None), s1);
    ResolveStable(s0.preCanon, s0.projects, s1.preCanon, s1.projects, names[..k]);
    ResolveNext(s1.preCanon, s1.projects, names, k);
    SettledNext(s0.preCanon, s1.preCanon, names, k);
    var before := Resolve(s1.preCanon, s1.projects, names[..k]);
    assert base + before + Lookup(s1.preCanon, s1.projects, names[k])
        == base + (before + Lookup(s1.preCanon, s1.projects, names[k]));
  }

  /**
   * The end of `cook`: the `-buildpath` entries, resolved while the `-testpath` entries were
   * added, still resolve the same way, so the list is the resolution of both in order.
   */
  lemma CookDone(universe: set<string>, s0: Arena, sm: Arena, s1: Arena, s2: Arena, p: nat, build: seq<string>, test: seq<string>)
    requires WellFormed(universe, s1) && p < |s0.dependencies| && p < |s0.projects| && s0.dependencies[p].None?
    requires sm == WithDeps(s0, p, Some([])) && Grows(WithDeps(sm, p, None), s1) && p < |s1.dependencies|
    requires s1.dependencies[p] == Some([] + Resolve(s1.preCanon, s1.projects, build)) && Settled(s1.preCanon, build)
    requires Grows(WithDeps(s1, p, None), s2) && p < |s2.dependencies|
    requires s2.dependencies[p] == Some(s1.dependencies[p].value + Resolve(s2.preCanon, s2.projects, test))
    ensures Grows(s0, s2) && p < |s2.projects| && s2.projects[p] == s0.projects[p]
    ensures s2.dependencies[p] == Some(Resolve(s2.preCanon, s2.projects, build + test))
  {
    assert WithDeps(sm, p, None) == s0;
    assert [] + Resolve(s1.preCanon, s1.projects, build) == Resolve(s1.preCanon, s1.projects, build);
    GrowsUpdate(s0, s1, p, None);
    GrowsTrans(s0, WithDeps(s1, p, None), s2);
    assert ProjectKept(s0.projects, s2.projects, p);
    ResolveStable(s1.preCanon, s1.projects, s2.preCanon, s2.projects, build);
    ResolveAppend(s2.preCanon, s2.projects, build, test);
  }

  /** The dependency lists as an adjacency, a placeholder for any project not yet cooked. */
  function Lists(deps: seq<Option<seq<nat>>>): (r: PostOrder.Adjacency)
    ensures |r| == |deps|
    ensures forall i :: 0 <= i < |r| ==> r[i] == if deps[i].Some? then deps[i].value else []
  {
    seq(|deps|, i requires 0 <= i < |deps| => if deps[i].Some? then deps[i].value else [])
  }

  /** Cooked lists only name projects, so the adjacency of a well-formed arena is closed. */
  lemma ListsClosed(universe: set<string>, a: Arena)
    requires WellFormed(universe, a)
    ensures PostOrder.Closed(Lists(a.dependencies))
  {
    var adj := Lists(a.dependencies);
    forall i, k | 0 <= i < |adj| && 0 <= k < |adj[i]| ensures adj[i][k] < |adj| {
      assert Entry(universe, a, i);
    }
  }

  /** The empty arena, before any project is constructed. */
  lemma EmptyWellFormed(universe: set<string>)
    ensures WellFormed(universe, Arena([], [], map[]))
  {
    var a := Arena([], [], map[]);
    forall k ensures IndexedAt(a.preCanon, 0, k) {
    }
    forall i: nat, j: nat ensures Apart(a.projects, i, j) {
    }
    forall i: nat ensures Entry(universe, a, i) {
    }
  }

  class Catalog {
    /** The folder path of the bnd workspace, and what each of its folders holds. */
    const workspace: string
    const ws: Workspace
    const knownProjects: set<string>
    var showAll: bool
    /** Every project constructed so far; an id is an index. */
    var projects: seq<Project>
    /** Per project: `None` until cooked (`dependencies == null`), then its resolved dependencies. */
    var dependencies: seq<Option<seq<nat>>>
    var preCanon: map<string, nat>
    var canon: map<string, nat>
    /** The names the workspace holds a descriptor for; bounds how many projects can ever be cooked. */
    ghost const universe: set<string>

    ghost function State(): Arena
      reads this
    {
      Arena(projects, dependencies, preCanon)
    }

    ghost predicate Valid()
      reads this
    {
      && WellFormed(universe, State())
      && (forall n :: ws(n).Some? ==> n in universe)
      && Remembers(canon, State())
    }

    /** `Catalog(bndWorkspace, knownProjects)`: every listed folder with a `bnd.bnd`, indexed by name and symbolic name. */
    constructor (workspace: string, ws: Workspace, knownProjects: set<string>, listing: seq<string>, ghost universe: set<string>)
      requires forall n :: ws(n).Some? ==> n in universe
      requires Distinct(listing)
      requires forall k :: 0 <= k < |listing| ==> '\0' !in listing[k]
      ensures Valid()
      ensures var folders := Filter(listing, n => ws(n).Some?);
        && |projects| == |folders|
        && (forall i :: 0 <= i < |projects| ==> NewProject(ws, folders[i]) == Some(projects[i]))
      ensures preCanon == Registered(projects)
      ensures forall i :: 0 <= i < |projects| ==> dependencies[i].None?
      ensures canon == map[] && !showAll
    {
      this.workspace := workspace;
      this.ws := ws;
      this.knownProjects := knownProjects;
      this.universe := universe;
      showAll := false;
      var folders := Filter(listing, n => ws(n).Some?);
      FilterDistinct(listing, n => ws(n).Some?);
      assert forall i :: 0 <= i < |folders| ==> ws(folders[i]).Some? && '\0' !in folders[i] by {
        forall i | 0 <= i < |folders| ensures ws(folders[i]).Some? && '\0' !in folders[i] {
          assert folders[i] in folders;
        }
      }
      var created := Created(ws, folders);
      var index := RegisterAll(created);
      projects := created;
      dependencies := seq(|folders|, _ => None);
      preCanon := index;
      canon := map[];
      new;
      InitialWellFormed(universe, ws, folders, projects, dependencies);
    }

    /** `showAllProjects`. */
    method ShowAllProjects(showAll: bool)
      modifies this
      ensures this.showAll == showAll
      ensures projects == old(projects) && dependencies == old(dependencies)
      ensures preCanon == old(preCanon) && canon == old(canon)
    {
      this.showAll := showAll;
    }

    /**
     * `getRaw`: the project stored under `name`, or a new one stored under it; `None` (a null after
     * the construction failure is caught) when the name holds a NUL.
     */
    method GetRaw(name: string) returns (r: Option<nat>)
      requires Valid()
      modifies this
      ensures Valid()
      ensures name in old(preCanon) ==> r == Some(old(preCanon)[name]) && State() == old(State())
      ensures name !in old(preCanon) && '\0' in name ==> r.None? && State() == old(State())
      ensures name !in old(preCanon) && '\0' !in name ==>
        var p := NewProject(ws, name).value;
        && r == Some(|old(projects)|)
        && projects == old(projects) + [p]
        && dependencies == old(dependencies) + [if p.isRealProject then None else Some([])]
        && preCanon == old(preCanon)[name := |old(projects)|]
      ensures r.Some? ==> r.value < |projects| && name in preCanon && preCanon[name] == r.value
      ensures Grows(old(State()), State()) && CookedNames(State()) == CookedNames(old(State()))
      ensures canon == old(canon) && showAll == old(showAll)
    {
      if name in preCanon {
        GrowsRefl(State());
        assert IndexedAt(preCanon, |projects|, name);
        return Some(preCanon[name]);
      }
      var made := NewProject(ws, name);
      if made.None? {
        GrowsRefl(State());
        return None;
      }
      var p := made.value;
      ghost var s0 := State();
      AddProject(universe, s0, p);
      projects := projects + [p];
      dependencies := dependencies + [if p.isRealProject then None else Some([])];
      preCanon := preCanon[name := |projects| - 1];
      RemembersGrows(canon, s0, State());
      return Some(|projects| - 1);
    }

    /**
     * `cook`: a project that already has a dependency list is returned unchanged; otherwise it is
     * given an empty list first, then the `-buildpath` entries and the `-testpath` entries are
     * resolved and appended.
     */
    method Cook(p: nat) returns (r: nat)
      requires Valid() && p < |projects|
      modifies this
      ensures Valid() && r == p && p < |projects| && dependencies[p].Some?
      ensures old(dependencies[p]).Some? ==> State() == old(State())
      ensures old(dependencies[p]).None? ==>
        dependencies[p] == Some(Resolve(preCanon, projects,
          Map(projects[p].BuildPath(), StripParams) + Map(projects[p].TestPath(), StripParams)))
      ensures Grows(old(State()), State())
      ensures canon == old(canon) && showAll == old(showAll)
      decreases |universe - CookedNames(State())|, if dependencies[p].None? then 1 else 0
    {
      if dependencies[p].Some? {
        GrowsRefl(State());
        return p;
      }
      ghost var s0 := State();
      MarkCooked(universe, s0, p);
      MarkCookedNames(universe, s0, p);
      dependencies := dependencies[p := Some([])];
      RemembersGrows(canon, s0, State());
      ghost var sm := State();
      var me := projects[p];
      AddDeps(p, me.BuildPath());
      ghost var s1 := State();
      CardMono(universe - CookedNames(s1), universe - CookedNames(sm));
      AddDeps(p, me.TestPath());
      CookDone(universe, s0, sm, s1, State(), p, Map(me.BuildPath(), StripParams), Map(me.TestPath(), StripParams));
      return p;
    }

    /** `addDeps`: every entry, in order, handled by `AddDep`. */
    method AddDeps(p: nat, path: seq<string>)
      requires Valid() && p < |projects| && projects[p].isRealProject && dependencies[p].Some?
      modifies this
      ensures Valid() && p < |projects| && projects[p].isRealProject && dependencies[p].Some?
      ensures dependencies[p].value == old(dependencies[p].value) + Resolve(preCanon, projects, Map(path, StripParams))
      ensures Settled(preCanon, Map(path, StripParams))
      ensures Grows(WithDeps(old(State()), p, None), State())
      ensures CookedNames(old(State())) <= CookedNames(State())
      ensures canon == old(canon) && showAll == old(showAll)
      decreases |universe - CookedNames(State())|, 4
    {
      var names := Map(path, StripParams);
      ghost var start := WithDeps(State(), p, None);
      var k := 0;
      while k < |names|
        invariant 0 <= k <= |names|
        invariant Valid() && p < |projects| && projects[p].isRealProject && dependencies[p].Some?
        invariant dependencies[p].value == old(dependencies[p].value) + Resolve(preCanon, projects, names[..k])
        invariant Settled(preCanon, names[..k])
        invariant Grows(start, State())
        invariant CookedNames(old(State())) <= CookedNames(State())
        invariant canon == old(canon) && showAll == old(showAll)
      {
        ghost var s0 := State();
        CardMono(universe - CookedNames(s0), universe - CookedNames(old(State())));
        AddDep(p, names[k]);
        AddDepsStep(universe, start, s0, State(), p, old(dependencies[p].value), names, k);
        k := k + 1;
      }
      assert names[..k] == names;
    }

    /**
     * One entry of `addDeps`, already stripped: looked up with `getRaw`, dropped when null or not a
     * real project, otherwise cooked and appended.
     */
    method AddDep(p: nat, name: string)
      requires Valid() && p < |projects| && projects[p].isRealProject && dependencies[p].Some?
      modifies this
      ensures Valid() && p < |projects| && projects[p].isRealProject && dependencies[p].Some?
      ensures dependencies[p].value == old(dependencies[p].value) + Lookup(preCanon, projects, name)
      ensures name in preCanon || '\0' in name
      ensures Grows(WithDeps(old(State()), p, None), State())
      ensures CookedNames(old(State())) <= CookedNames(State())
      ensures canon == old(canon) && showAll == old(showAll)
      decreases |universe - CookedNames(State())|, 3
    {
      ghost var s0 := State();
      var q := GetRaw(name);
      ghost var s1 := State();
      if q.Some? && projects[q.value].isRealProject {
        assert ProjectKept(s0.projects, s1.projects, p) && DepsKept(s0.dependencies, s1.dependencies, p);
        CardMono(universe - CookedNames(s1), universe - CookedNames(s0));
        Attach(p, q.value);
        GrowsForget(s0, s1, p);
        GrowsTrans(WithDeps(s0, p, None), WithDeps(s1, p, None), State());
        assert ProjectKept(s1.projects, projects, q.value) && KeyKept(s1.preCanon, preCanon, name);
      } else {
        GrowsForget(s0, s1, p);
        assert ProjectKept(s0.projects, s1.projects, p) && DepsKept(s0.dependencies, s1.dependencies, p);
      }
    }

    /** The `cook(project)` and `add` of one `addDeps` entry that names a real project `q`. */
    method Attach(p: nat, q: nat)
      requires Valid() && p < |projects| && projects[p].isRealProject && dependencies[p].Some?
      requires q < |projects| && projects[q].isRealProject
      modifies this
      ensures Valid() && p < |projects| && projects[p].isRealProject && dependencies[p].Some?
      ensures dependencies[p].value == old(dependencies[p].value) + [q]
      ensures Grows(WithDeps(old(State()), p, None), State())
      ensures CookedNames(old(State())) <= CookedNames(State())
      ensures canon == old(canon) && showAll == old(showAll)
      decreases |universe - CookedNames(State())|, 2
    {
      ghost var s1 := State();
      var c := Cook(q);
      ghost var s2 := State();
      AttachDone(universe, s1, s2, p, c);
      dependencies := dependencies[p := Some(dependencies[p].value + [c])];
      RemembersStep(canon, s1, State(), p);
    }

    /**
     * `getCanonical`: the project remembered for `name`, or else the raw project cooked and
     * remembered. `None` is the `NullPointerException` raised when `getRaw` yields null.
     */
    method GetCanonical(name: string) returns (r: Option<nat>)
      requires Valid()
      modifies this
      ensures Valid()
      ensures name in old(canon) ==> r == Some(old(canon)[name]) && State() == old(State()) && canon == old(canon)
      ensures r.None? <==> name !in old(canon) && name !in old(preCanon) && '\0' in name
      ensures r.Some? ==> name in canon && canon[name] == r.value && r.value < |projects| && dependencies[r.value].Some?
      ensures r.Some? && name !in old(canon) ==> name in preCanon && preCanon[name] == r.value
      ensures canon == if r.Some? then old(canon)[name := r.value] else old(canon)
      ensures Grows(old(State()), State())
      ensures showAll == old(showAll)
    {
      if name in canon {
        GrowsRefl(State());
        return Some(canon[name]);
      }
      ghost var s0 := State();
      var raw := GetRaw(name);
      if raw.None? {
        return None;
      }
      ghost var s1 := State();
      var c := Cook(raw.value);
      GrowsTrans(s0, s1, State());
      assert KeyKept(s1.preCanon, preCanon, name);
      RemembersAdd(canon, State(), name, c);
      canon := canon[name := c];
      return Some(c);
    }

    /** `Lists` of the catalog's own dependency lists. */
    function Adjacency(): (r: PostOrder.Adjacency)
      reads this
      requires |dependencies| == |projects|
      ensures |r| == |projects|
      ensures forall i :: 0 <= i < |r| && dependencies[i].Some? ==> r[i] == dependencies[i].value
    {
      Lists(dependencies)
    }

    function Names(): (r: seq<string>)
      reads this
      ensures |r| == |projects| && forall i :: 0 <= i < |r| ==> r[i] == projects[i].name
    {
      var ps := projects;
      seq(|ps|, i requires 0 <= i < |ps| => ps[i].name)
    }

    /** `bndWorkspace.resolve(name)`: a folder of the workspace, whose file name is `name` again. */
    function Root(name: string): (r: string)
      ensures r == workspace + "/" + name
      ensures '/' !in name ==> B.FileName(r) == name
    {
      var r := workspace + "/" + name;
      if '/' in name then r
      else
        B.FileNameOfChild(workspace, name);
        r
    }

    /** `displayName`: an unknown project with its folder, a known one in brackets. */
    function DisplayName(name: string): (r: string)
      ensures name in knownProjects ==> r == " [" + name + "]"
      ensures name !in knownProjects ==> r == "  " + name + " \t->\t" + Root(name)
    {
      if name !in knownProjects then "  " + name + " \t->\t" + Root(name) else " [" + name + "]"
    }

    /**
     * A display line can be read back: a bracket in second place marks a known project, whose name
     * is what the brackets enclose; an unknown project's line ends with its folder, so its file name
     * is the project's name.
     */
    lemma DisplayNameDecodes(name: string)
      ensures var d := DisplayName(name);
        && |d| >= 3 && (d[1] == '[' <==> name in knownProjects)
        && (name in knownProjects ==> d[2..|d| - 1] == name)
        && (name !in knownProjects && '/' !in name ==> B.FileName(d) == name)
    {
      var d := DisplayName(name);
      if name !in knownProjects && '/' !in name {
        assert d == ("  " + name + " \t->\t" + workspace) + "/" + name;
        B.FileNameOfChild("  " + name + " \t->\t" + workspace, name);
      }
    }

    function DisplayNames(ids: seq<nat>): (r: seq<string>)
      reads this
      requires forall x :: x in ids ==> x < |projects|
      ensures |r| == |ids| && forall k :: 0 <= k < |ids| ==> ids[k] in ids && r[k] == DisplayName(projects[ids[k]].name)
    {
      var ps := projects;
      assert forall k :: 0 <= k < |ids| ==> ids[k] in ids;
      seq(|ids|, k requires 0 <= k < |ids| && ids[k] < |ps| => DisplayName(ps[ids[k]].name))
    }

    /** Cooked lists only name projects, so the adjacency is closed. */
    lemma AdjacencyClosed()
      requires Valid()
      ensures PostOrder.Closed(Adjacency())
    {
      ListsClosed(universe, State());
    }

    /**
     * `printInTopologicalOrder`: the lines printed for a cooked project, its visible transitive
     * dependencies each once and before their dependents, itself last. A placeholder fails with
     * `IllegalStateException`. The walk only ends when the dependencies have no cycle (`rank`).
     */
    method PrintInTopologicalOrder(p: nat, ghost rank: nat -> nat) returns (r: Result<seq<string>, string>)
      requires Valid() && p < |projects| && dependencies[p].Some?
      requires PostOrder.Ranked(Adjacency(), rank)
      ensures !projects[p].isRealProject <==> r.Err?
      ensures r.Err? ==> r.error == "Project directory does not exist: " + Root(projects[p].name)
      ensures r.Ok? ==> PostOrder.Closed(Adjacency())
      ensures r.Ok? && PostOrder.Closed(Adjacency()) ==>
        var listing := PostOrder.Visit(Adjacency(), rank, p, []);
        && Distinct(listing) && PostOrder.DepsFirst(Adjacency(), listing)
        && Elems(listing) == PostOrder.Reach(Adjacency(), rank, p) && listing[|listing| - 1] == p
        && PostOrder.InRange(Adjacency(), listing)
        && r.value == DisplayNames(Visible(Names(), knownProjects, showAll, listing))
    {
      if !projects[p].isRealProject {
        return Err("Project directory does not exist: " + Root(projects[p].name));
      }
      AdjacencyClosed();
      var deps := Adjacency();
      var list := new PostOrder.LinkedSet();
      PostOrder.Dfs0(deps, rank, p, list);
      PostOrder.ListingFromStart(deps, rank, p);
      var shown := Visible(Names(), knownProjects, showAll, list.elems);
      return Ok(DisplayNames(shown));
    }
  }
}
