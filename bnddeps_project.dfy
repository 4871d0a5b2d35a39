/**
 * The `bnddeps` project registry: the static state of the older resolver's `Project` class.
 * Projects are created lazily by name (`preCanon`, empty at start), read only their `bnd.bnd`,
 * are cooked once (their `-buildpath` then `-testpath` entries resolved to real projects) and are
 * remembered once cooked (`canon`). It shares the arena of the `bnddeps` catalog: project objects
 * are ids, and the same invariant and growth lemmas apply. Unlike the catalog, a name holding a
 * NUL character is not caught: `Path.resolve` throws and the exception ends the whole resolution,
 * which the model returns as the offending name.
 */
module BndDepsProject {
  import opened Wrappers
  import opened Seqs
  import opened JavaStrings
  import B = BndProjects
  import PostOrder
  import C = BndDepsCatalog

  /** The project root: for a name, the properties of `name/bnd.bnd` when that file exists. */
  type Folders = string -> Option<B.Properties>

  /** `new Project(name)`: a real project reads `bnd.bnd`; resolving a name with a NUL fails with that name. */
  function NewProject(ws: Folders, name: string): (r: Result<C.Project, string>)
    ensures r.Err? <==> '\0' in name
    ensures r.Err? ==> r.error == name
    ensures r.Ok? ==> r.value.name == name && (r.value.isRealProject <==> ws(name).Some?)
    ensures r.Ok? && r.value.isRealProject ==> r.value.bndProps == ws(name).value
  {
    if '\0' in name then Err(name)
    else match ws(name)
      case None => Ok(C.Project(name, false, map[]))
      case Some(props) => Ok(C.Project(name, true, props))
  }

  /** A cook that was cut short by a failure after the empty list was assigned still only grew the arena. */
  lemma CookFailed(s0: C.Arena, sm: C.Arena, s1: C.Arena, p: nat)
    requires p < |s0.dependencies| && s0.dependencies[p].None?
    requires sm == C.WithDeps(s0, p, Some([])) && C.Grows(C.WithDeps(sm, p, None), s1)
    ensures C.Grows(s0, s1)
  {
    assert C.WithDeps(sm, p, None) == s0;
  }

  /** A cook cut short while the `-testpath` entries were added still only grew the arena. */
  lemma CookFailedLate(s0: C.Arena, sm: C.Arena, s1: C.Arena, s2: C.Arena, p: nat)
    requires p < |s0.dependencies| && s0.dependencies[p].None?
    requires sm == C.WithDeps(s0, p, Some([])) && C.Grows(C.WithDeps(sm, p, None), s1)
    requires p < |s1.dependencies| && C.Grows(C.WithDeps(s1, p, None), s2)
    ensures C.Grows(s0, s2)
  {
    assert C.WithDeps(sm, p, None) == s0;
    C.GrowsUpdate(s0, s1, p, None);
    C.GrowsTrans(s0, C.WithDeps(s1, p, None), s2);
  }

  /** When cooking a dependency fails, the dependent keeps its list and the arena has only grown. */
  lemma AttachFailed(s1: C.Arena, s2: C.Arena, p: nat)
    requires |s1.dependencies| == |s1.projects| && p < |s1.projects| && s1.dependencies[p].Some?
    requires C.Grows(s1, s2)
    ensures p < |s2.dependencies| && p < |s2.projects|
    ensures s2.dependencies[p] == s1.dependencies[p] && s2.projects[p] == s1.projects[p]
    ensures C.Grows(C.WithDeps(s1, p, None), s2) && C.CookedNames(s1) <= C.CookedNames(s2)
  {
    assert C.ProjectKept(s1.projects, s2.projects, p) && C.DepsKept(s1.dependencies, s2.dependencies, p);
    C.GrowsForget(s1, s2, p);
    C.CookedMono(s1, s2);
  }

  /** The static state of class `Project`: `preCanon`, `canon`, `KNOWN_PROJECTS`, and the arena of projects. */
  class Registry {
    const ws: Folders
    /** The folder names under the workspace's project metadata (`KNOWN_PROJECTS`). */
    const knownProjects: set<string>
    /** Every project constructed so far; an id is an index. */
    var projects: seq<C.Project>
    /** Per project: `None` until cooked (`dependencies == null`), then its resolved dependencies. */
    var dependencies: seq<Option<seq<nat>>>
    var preCanon: map<string, nat>
    var canon: map<string, nat>
    /** The names the project root holds a `bnd.bnd` for; bounds how many projects can ever be cooked. */
    ghost const universe: set<string>

    ghost function State(): C.Arena
      reads this
    {
      C.Arena(projects, dependencies, preCanon)
    }

    ghost predicate Valid()
      reads this
    {
      && C.WellFormed(universe, State())
      && (forall n :: ws(n).Some? ==> n in universe)
      && C.Remembers(canon, State())
    }

    /** The class initialisation: no project constructed, nothing remembered. */
    constructor (ws: Folders, knownProjects: set<string>, ghost universe: set<string>)
      requires forall n :: ws(n).Some? ==> n in universe
      ensures Valid()
      ensures projects == [] && dependencies == [] && preCanon == map[] && canon == map[]
    {
      this.ws := ws;
      this.knownProjects := knownProjects;
      this.universe := universe;
      projects := [];
      dependencies := [];
      preCanon := map[];
      canon := map[];
      new;
      C.EmptyWellFormed(universe);
    }

    /**
     * `getRaw`: the project stored under `name`, or a new one stored under it. A name with a NUL
     * that is not stored yet fails, and nothing is stored.
     */
    method GetRaw(name: string) returns (r: Result<nat, string>)
      requires Valid()
      modifies this
      ensures Valid()
      ensures name in old(preCanon) ==> r == Ok(old(preCanon)[name]) && State() == old(State())
      ensures name !in old(preCanon) && '\0' in name ==> r == Err(name) && State() == old(State())
      ensures name !in old(preCanon) && '\0' !in name ==>
        var p := NewProject(ws, name).value;
        && r == Ok(|old(projects)|)
        && projects == old(projects) + [p]
        && dependencies == old(dependencies) + [if p.isRealProject then None else Some([])]
        && preCanon == old(preCanon)[name := |old(projects)|]
      ensures r.Ok? ==> r.value < |projects| && name in preCanon && preCanon[name] == r.value
      ensures C.Grows(old(State()), State()) && C.CookedNames(State()) == C.CookedNames(old(State()))
      ensures canon == old(canon)
    {
      if name in preCanon {
        C.GrowsRefl(State());
        assert C.IndexedAt(preCanon, |projects|, name);
        return Ok(preCanon[name]);
      }
      var made := NewProject(ws, name);
      if made.Err? {
        C.GrowsRefl(State());
        return Err(made.error);
      }
      var p := made.value;
      ghost var s0 := State();
      C.AddProject(universe, s0, p);
      projects := projects + [p];
      dependencies := dependencies + [if p.isRealProject then None else Some([])];
      preCanon := preCanon[name := |projects| - 1];
      C.RemembersGrows(canon, s0, State());
      return Ok(|projects| - 1);
    }

    /**
     * `cook`: a project that already has a dependency list is returned unchanged; otherwise it is
     * given an empty list first, then the `-buildpath` entries and the `-testpath` entries are
     * resolved and appended. A failure anywhere below ends the cook with the offending name.
     */
    method Cook(p: nat) returns (r: Result<nat, string>)
      requires Valid() && p < |projects|
      modifies this
      ensures Valid() && p < |projects| && dependencies[p].Some?
      ensures old(dependencies[p]).Some? ==> r == Ok(p) && State() == old(State())
      ensures r.Ok? ==> r.value == p
      ensures r.Ok? && old(dependencies[p]).None? ==>
        dependencies[p] == Some(C.Resolve(preCanon, projects,
          Map(projects[p].BuildPath(), StripParams) + Map(projects[p].TestPath(), StripParams)))
      ensures r.Err? ==> '\0' in r.error
      ensures C.Grows(old(State()), State())
      ensures canon == old(canon)
      decreases |universe - C.CookedNames(State())|, if dependencies[p].None? then 1 else 0
    {
      if dependencies[p].Some? {
        C.GrowsRefl(State());
        return Ok(p);
      }
      ghost var s0 := State();
      C.MarkCooked(universe, s0, p);
      C.MarkCookedNames(universe, s0, p);
      dependencies := dependencies[p := Some([])];
      C.RemembersGrows(canon, s0, State());
      ghost var sm := State();
      var me := projects[p];
      var failure := AddDeps(p, me.BuildPath());
      ghost var s1 := State();
      if failure.Some? {
        CookFailed(s0, sm, s1, p);
        return Err(failure.value);
      }
      C.CardMono(universe - C.CookedNames(s1), universe - C.CookedNames(sm));
      failure := AddDeps(p, me.TestPath());
      if failure.Some? {
        CookFailedLate(s0, sm, s1, State(), p);
        return Err(failure.value);
      }
      C.CookDone(universe, s0, sm, s1, State(), p, Map(me.BuildPath(), StripParams), Map(me.TestPath(), StripParams));
      return Ok(p);
    }

    /** `addDeps`: every entry, in order, handled by `AddDep` until one fails. */
    method AddDeps(p: nat, path: seq<string>) returns (failure: Option<string>)
      requires Valid() && p < |projects| && projects[p].isRealProject && dependencies[p].Some?
      modifies this
      ensures Valid() && p < |projects| && projects[p].isRealProject && dependencies[p].Some?
      ensures failure.None? ==>
        && dependencies[p].value == old(dependencies[p].value) + C.Resolve(preCanon, projects, Map(path, StripParams))
        && C.Settled(preCanon, Map(path, StripParams))
      ensures failure.Some? ==> '\0' in failure.value
      ensures C.Grows(C.WithDeps(old(State()), p, None), State())
      ensures C.CookedNames(old(State())) <= C.CookedNames(State())
      ensures canon == old(canon)
      decreases |universe - C.CookedNames(State())|, 4
    {
      var names := Map(path, StripParams);
      ghost var start := C.WithDeps(State(), p, None);
      var k := 0;
      while k < |names|
        invariant 0 <= k <= |names|
        invariant Valid() && p < |projects| && projects[p].isRealProject && dependencies[p].Some?
        invariant dependencies[p].value == old(dependencies[p].value) + C.Resolve(preCanon, projects, names[..k])
        invariant C.Settled(preCanon, names[..k])
        invariant C.Grows(start, State())
        invariant C.CookedNames(old(State())) <= C.CookedNames(State())
        invariant canon == old(canon)
      {
        ghost var s0 := State();
        C.CardMono(universe - C.CookedNames(s0), universe - C.CookedNames(old(State())));
        failure := AddDep(p, names[k]);
        if failure.Some? {
          C.GrowsUpdate(start, s0, p, None);
          C.GrowsTrans(start, C.WithDeps(s0, p, None), State());
          return;
        }
        C.AddDepsStep(universe, start, s0, State(), p, old(dependencies[p].value), names, k);
        k := k + 1;
      }
      assert names[..k] == names;
      return None;
    }

    /**
     * One entry of `addDeps`, already stripped: looked up with `getRaw` (which may fail), dropped
     * when not a real project, otherwise cooked and appended.
     */
    method AddDep(p: nat, name: string) returns (failure: Option<string>)
      requires Valid() && p < |projects| && projects[p].isRealProject && dependencies[p].Some?
      modifies this
      ensures Valid() && p < |projects| && projects[p].isRealProject && dependencies[p].Some?
      ensures failure.None? ==>
        dependencies[p].value == old(dependencies[p].value) + C.Lookup(preCanon, projects, name) && name in preCanon
      ensures failure.Some? ==> '\0' in failure.value
      ensures C.Grows(C.WithDeps(old(State()), p, None), State())
      ensures C.CookedNames(old(State())) <= C.CookedNames(State())
      ensures canon == old(canon)
      decreases |universe - C.CookedNames(State())|, 3
    {
      ghost var s0 := State();
      var q := GetRaw(name);
      ghost var s1 := State();
      if q.Err? {
        C.GrowsForget(s0, s1, p);
        return Some(q.error);
      }
      if projects[q.value].isRealProject {
        assert C.ProjectKept(s0.projects, s1.projects, p) && C.DepsKept(s0.dependencies, s1.dependencies, p);
        C.CardMono(universe - C.CookedNames(s1), universe - C.CookedNames(s0));
        failure := Attach(p, q.value);
        C.GrowsForget(s0, s1, p);
        C.GrowsTrans(C.WithDeps(s0, p, None), C.WithDeps(s1, p, None), State());
        if failure.None? {
          assert C.ProjectKept(s1.projects, projects, q.value) && C.KeyKept(s1.preCanon, preCanon, name);
        }
      } else {
        C.GrowsForget(s0, s1, p);
        assert C.ProjectKept(s0.projects, s1.projects, p) && C.DepsKept(s0.dependencies, s1.dependencies, p);
        failure := None;
      }
    }

    /** The `cook` and `add` of one `addDeps` entry that names a real project `q`. */
    method Attach(p: nat, q: nat) returns (failure: Option<string>)
      requires Valid() && p < |projects| && projects[p].isRealProject && dependencies[p].Some?
      requires q < |projects| && projects[q].isRealProject
      modifies this
      ensures Valid() && p < |projects| && projects[p].isRealProject && dependencies[p].Some?
      ensures failure.None? ==> dependencies[p].value == old(dependencies[p].value) + [q]
      ensures failure.Some? ==> '\0' in failure.value
      ensures C.Grows(C.WithDeps(old(State()), p, None), State())
      ensures C.CookedNames(old(State())) <= C.CookedNames(State())
      ensures canon == old(canon)
      decreases |universe - C.CookedNames(State())|, 2
    {
      ghost var s1 := State();
      var c := Cook(q);
      ghost var s2 := State();
      if c.Err? {
        AttachFailed(s1, s2, p);
        return Some(c.error);
      }
      C.AttachDone(universe, s1, s2, p, c.value);
      dependencies := dependencies[p := Some(dependencies[p].value + [c.value])];
      C.RemembersStep(canon, s1, State(), p);
      return None;
    }

    /**
     * `getCanonical`: the project remembered for `name`, or else the raw project cooked and
     * remembered. A failure in `getRaw` or `cook` remembers nothing.
     */
    method GetCanonical(name: string) returns (r: Result<nat, string>)
      requires Valid()
      modifies this
      ensures Valid()
      ensures name in old(canon) ==> r == Ok(old(canon)[name]) && State() == old(State()) && canon == old(canon)
      ensures name !in old(canon) && name !in old(preCanon) && '\0' in name ==> r == Err(name) && State() == old(State())
      ensures r.Err? ==> '\0' in r.error && canon == old(canon)
      ensures r.Ok? ==> name in canon && canon[name] == r.value && r.value < |projects| && dependencies[r.value].Some?
      ensures r.Ok? && name !in old(canon) ==> name in preCanon && preCanon[name] == r.value
      ensures canon == if r.Ok? then old(canon)[name := r.value] else old(canon)
      ensures C.Grows(old(State()), State())
    {
      if name in canon {
        C.GrowsRefl(State());
        return Ok(canon[name]);
      }
      ghost var s0 := State();
      var raw := GetRaw(name);
      if raw.Err? {
        return Err(raw.error);
      }
      ghost var s1 := State();
      var c := Cook(raw.value);
      C.GrowsTrans(s0, s1, State());
      if c.Err? {
        return Err(c.error);
      }
      assert C.KeyKept(s1.preCanon, preCanon, name);
      C.RemembersAdd(canon, State(), name, c.value);
      canon := canon[name := c.value];
      return Ok(c.value);
    }

    /** The dependency lists as an adjacency. */
    function Adjacency(): (r: PostOrder.Adjacency)
      reads this
      requires |dependencies| == |projects|
      ensures |r| == |projects|
      ensures forall i :: 0 <= i < |r| && dependencies[i].Some? ==> r[i] == dependencies[i].value
    {
      C.Lists(dependencies)
    }

    /** `displayName`: a known project in brackets, any other after a space. */
    function DisplayName(name: string): (r: string)
      ensures |r| == |name| + (if name in knownProjects then 2 else 1)
      ensures r[0] == '[' <==> name in knownProjects
    {
      if name in knownProjects then "[" + name + "]" else " " + name
    }

    /** The display line of every project, in catalog order. */
    function DisplayLines(): (r: seq<string>)
      reads this
      ensures |r| == |projects|
      ensures forall i :: 0 <= i < |projects| ==> r[i] == DisplayName(projects[i].name)
    {
      var ps := projects;
      seq(|ps|, i requires 0 <= i < |ps| reads this => DisplayName(ps[i].name))
    }

    /** A display line can be read back: the name it shows and whether the project is known. */
    lemma DisplayNameDecodes(name: string)
      ensures var d := DisplayName(name);
        && (d[0] == '[' <==> name in knownProjects)
        && (name in knownProjects ==> d[|d| - 1] == ']')
        && (name !in knownProjects ==> d[0] == ' ')
        && (name == if d[0] == '[' then d[1..|d| - 1] else d[1..])
    {
    }

    /**
     * `printInTopologicalOrder`: the lines printed for a cooked project (real or not), its
     * transitive dependencies each once and before their dependents, itself last. The walk only
     * ends when the dependencies have no cycle (`rank`).
     */
    method PrintInTopologicalOrder(p: nat, ghost rank: nat -> nat) returns (lines: seq<string>)
      requires Valid() && p < |projects| && dependencies[p].Some?
      requires PostOrder.Ranked(Adjacency(), rank)
      ensures PostOrder.Closed(Adjacency())
      ensures PostOrder.Closed(Adjacency()) ==>
        var listing := PostOrder.Visit(Adjacency(), rank, p, []);
        && Distinct(listing) && PostOrder.DepsFirst(Adjacency(), listing)
        && Elems(listing) == PostOrder.Reach(Adjacency(), rank, p) && listing[|listing| - 1] == p
        && PostOrder.InRange(Adjacency(), listing)
        && lines == Pick(DisplayLines(), listing)
    {
      C.ListsClosed(universe, State());
      var deps := Adjacency();
      var list := new PostOrder.LinkedSet();
      PostOrder.Dfs0(deps, rank, p, list);
      PostOrder.ListingFromStart(deps, rank, p);
      lines := Pick(DisplayLines(), list.elems);
    }
  }
}
