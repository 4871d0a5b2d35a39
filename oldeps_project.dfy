/**
 * The `oldeps` project registry, the first of the resolvers: the static state of its `Project`
 * class. Projects are created lazily by name (`preCanon`) and hold only a name and a list of
 * dependencies; `preDependencies` refers to that list until the first `cook` sets it to null
 * ("burns the bridge"), while the read-only `dependencies` view keeps showing the list. Cooking
 * reads only the `-buildpath` header and keeps every entry, real project or not, then cooks each
 * dependency. The recursion only ends when the headers form no cycle, stated as a rank on names
 * that every `-buildpath` entry descends. Project objects are ids into the registry's arena.
 */
module OldepsProject {
  import opened Wrappers
  import opened Seqs
  import opened JavaStrings
  import B = BndProjects
  import PostOrder

  /** The project root: for a name, the properties of `name/bnd.bnd` when that file exists. */
  type Folders = string -> Option<B.Properties>

  /**
   * A project object: its name, whether `preDependencies` still refers to the list (`open`), and
   * the list itself as the `dependencies` view shows it.
   */
  datatype Project = Project(name: string, open: bool, dependencies: seq<nat>)

  /**
   * What makes `cook` throw: `Path.resolve` rejects a name with a NUL (`InvalidPathException`), and
   * a `bnd.bnd` without `-buildpath` yields null, which is then split (`NullPointerException`).
   */
  datatype Failure = InvalidPath(name: string) | NoBuildPath(name: string)

  /** The failure is one `cook` really raises: a name with a NUL, or a `bnd.bnd` without `-buildpath`. */
  ghost predicate Fails(ws: Folders, f: Failure)
  {
    match f
    case InvalidPath(n) => '\0' in n
    case NoBuildPath(n) => '\0' !in n && ws(n).Some? && B.BuildPath !in ws(n).value
  }

  /** Every `-buildpath` entry of a descriptor has a lower rank than the project: the headers form no cycle. */
  ghost predicate Acyclic(ws: Folders, rank: string -> nat)
  {
    forall n, e :: ws(n).Some? && B.BuildPath in ws(n).value && e in B.PathProp(ws(n).value, B.BuildPath) ==> rank(e) < rank(n)
  }

  /** The registry's mutable state: the projects constructed so far (an id is an index) and `preCanon`. */
  datatype Store = Store(projects: seq<Project>, preCanon: map<string, nat>)

  /** Every name is stored in the index. */
  predicate Held(index: map<string, nat>, names: seq<string>)
  {
    forall k :: 0 <= k < |names| ==> names[k] in index
  }

  /** The ids the index stores for `names`, in order. */
  function Ids(index: map<string, nat>, names: seq<string>): (r: seq<nat>)
    requires Held(index, names)
    ensures |r| == |names| && forall k :: 0 <= k < |names| ==> r[k] == index[names[k]]
  {
    seq(|names|, k requires 0 <= k < |names| => index[names[k]])
  }

  /** Project `i`'s dependencies are projects of lower rank. */
  predicate Below(rank: string -> nat, s: Store, i: nat)
    requires i < |s.projects|
  {
    var deps := s.projects[i].dependencies;
    forall k :: 0 <= k < |deps| ==> deps[k] < |s.projects| && rank(s.projects[deps[k]].name) < rank(s.projects[i].name)
  }

  /** Project `i`, when there is one, is stored under its name and depends only on projects of lower rank. */
  predicate Node(rank: string -> nat, s: Store, i: nat)
  {
    i < |s.projects| ==> s.projects[i].name in s.preCanon && s.preCanon[s.projects[i].name] == i && Below(rank, s, i)
  }

  /** Key `k`, when stored, names the project of that name. */
  predicate Indexed(s: Store, k: string)
  {
    k in s.preCanon ==> s.preCanon[k] < |s.projects| && s.projects[s.preCanon[k]].name == k
  }

  /** The registry's invariant: `preCanon` and the projects agree, and every dependency edge descends in rank. */
  ghost predicate WellFormed(rank: string -> nat, s: Store)
  {
    && (forall i: nat {:trigger Node(rank, s, i)} :: Node(rank, s, i))
    && (forall k {:trigger Indexed(s, k)} :: Indexed(s, k))
  }

  /** Project `i` of `a` keeps its name in `b`, and once burnt it keeps its list too. */
  predicate Kept(a: Store, b: Store, i: nat)
  {
    i < |a.projects| ==>
      && i < |b.projects| && b.projects[i].name == a.projects[i].name
      && (!a.projects[i].open ==> b.projects[i] == a.projects[i])
  }

  predicate KeyKept(a: Store, b: Store, k: string)
  {
    k in a.preCanon ==> k in b.preCanon && b.preCanon[k] == a.preCanon[k]
  }

  /** What any step may do: add projects, fill or burn open ones, and add `preCanon` entries. */
  ghost predicate Grows(a: Store, b: Store)
  {
    && |a.projects| <= |b.projects|
    && (forall i: nat {:trigger Kept(a, b, i)} :: Kept(a, b, i))
    && (forall k {:trigger KeyKept(a, b, k)} :: KeyKept(a, b, k))
  }

  /** Project `i` of `a` is unchanged in `b`. */
  predicate Same(a: Store, b: Store, i: nat)
  {
    i < |a.projects| ==> i < |b.projects| && b.projects[i] == a.projects[i]
  }

  /** No project of `a` changed. */
  ghost predicate Prefix(a: Store, b: Store)
  {
    forall i: nat {:trigger Same(a, b, i)} :: Same(a, b, i)
  }

  /** Project `i` of `a`, when its name ranks above `bound`, is unchanged in `b`. */
  predicate Above(rank: string -> nat, bound: int, a: Store, b: Store, i: nat)
  {
    i < |a.projects| && rank(a.projects[i].name) > bound ==> i < |b.projects| && b.projects[i] == a.projects[i]
  }

  /** Only projects ranked at most `bound` changed: a cook does not touch the projects waiting on it. */
  ghost predicate Untouched(rank: string -> nat, bound: int, a: Store, b: Store)
  {
    forall i: nat {:trigger Above(rank, bound, a, b, i)} :: Above(rank, bound, a, b, i)
  }

  /** Every id is a project whose bridge is burnt. */
  predicate Cooked(s: Store, ids: seq<nat>)
  {
    forall k :: 0 <= k < |ids| ==> ids[k] < |s.projects| && !s.projects[ids[k]].open
  }

  /** Every remembered canonical project is the stored project of that name, and cooked. */
  predicate Remembers(canon: map<string, nat>, s: Store)
  {
    forall k :: k in canon ==> k in s.preCanon && canon[k] == s.preCanon[k] && canon[k] < |s.projects| && !s.projects[canon[k]].open
  }

  /** `s` with project `p` replaced. */
  function With(s: Store, p: nat, q: Project): (r: Store)
    requires p < |s.projects|
    ensures r.projects == s.projects[p := q] && r.preCanon == s.preCanon
  {
    s.(projects := s.projects[p := q])
  }

  lemma GrowsRefl(a: Store)
    ensures Grows(a, a) && Prefix(a, a)
  {
    forall i: nat ensures Kept(a, a, i) && Same(a, a, i) {
    }
    forall k ensures KeyKept(a, a, k) {
    }
  }

  lemma GrowsTrans(a: Store, b: Store, c: Store)
    requires Grows(a, b) && Grows(b, c)
    ensures Grows(a, c)
  {
    forall i: nat ensures Kept(a, c, i) {
      assert Kept(a, b, i) && Kept(b, c, i);
    }
    forall k ensures KeyKept(a, c, k) {
      assert KeyKept(a, b, k) && KeyKept(b, c, k);
    }
  }

  lemma UntouchedRefl(rank: string -> nat, bound: int, a: Store)
    ensures Untouched(rank, bound, a, a)
  {
    forall i: nat ensures Above(rank, bound, a, a, i) {
    }
  }

  /** Changes ranked at most `b1` and then at most `b2` are changes ranked at most `bound`. */
  lemma UntouchedTrans(rank: string -> nat, bound: int, b1: int, b2: int, a: Store, b: Store, c: Store)
    requires b1 <= bound && b2 <= bound
    requires Untouched(rank, b1, a, b) && Untouched(rank, b2, b, c)
    ensures Untouched(rank, bound, a, c)
  {
    forall i: nat ensures Above(rank, bound, a, c, i) {
      assert Above(rank, b1, a, b, i);
      if i < |a.projects| && rank(a.projects[i].name) > bound {
        assert Above(rank, b2, b, c, i);
      }
    }
  }

  /** Changing no existing project only grows the store, whatever the rank bound. */
  lemma PrefixUntouched(rank: string -> nat, bound: int, a: Store, b: Store)
    requires Prefix(a, b)
    ensures Untouched(rank, bound, a, b)
  {
    forall i: nat ensures Above(rank, bound, a, b, i) {
      assert Same(a, b, i);
    }
  }

  lemma RemembersGrows(canon: map<string, nat>, a: Store, b: Store)
    requires Remembers(canon, a) && Grows(a, b)
    ensures Remembers(canon, b)
  {
    forall k | k in canon ensures k in b.preCanon && canon[k] == b.preCanon[k] && canon[k] < |b.projects| && !b.projects[canon[k]].open {
      assert KeyKept(a, b, k) && Kept(a, b, canon[k]);
    }
  }

  /** Burnt projects stay burnt as the store grows. */
  lemma CookedGrows(a: Store, b: Store, ids: seq<nat>)
    requires Cooked(a, ids) && Grows(a, b)
    ensures Cooked(b, ids)
  {
    forall k | 0 <= k < |ids| ensures ids[k] < |b.projects| && !b.projects[ids[k]].open {
      assert Kept(a, b, ids[k]);
    }
  }

  /** Ids of stored names do not change as entries are added. */
  lemma IdsStable(a: Store, b: Store, names: seq<string>)
    requires Held(a.preCanon, names) && Grows(a, b)
    ensures Held(b.preCanon, names) && Ids(a.preCanon, names) == Ids(b.preCanon, names)
  {
    forall k | 0 <= k < |names| ensures names[k] in b.preCanon && b.preCanon[names[k]] == a.preCanon[names[k]] {
      assert KeyKept(a, b, names[k]);
    }
  }

  /** The empty store, before any project is constructed. */
  lemma EmptyWellFormed(rank: string -> nat)
    ensures WellFormed(rank, Store([], map[]))
  {
    var s := Store([], map[]);
    forall i: nat ensures Node(rank, s, i) {
    }
    forall k ensures Indexed(s, k) {
    }
  }

  /** Storing a new, open project with no dependencies under its name. */
  lemma {:induction false} AddProject(rank: string -> nat, s: Store, name: string)
    requires WellFormed(rank, s) && name !in s.preCanon
    ensures var t := Store(s.projects + [Project(name, true, [])], s.preCanon[name := |s.projects|]);
      WellFormed(rank, t) && Grows(s, t) && Prefix(s, t)
  {
    var t := Store(s.projects + [Project(name, true, [])], s.preCanon[name := |s.projects|]);
    forall i: nat ensures Kept(s, t, i) && Same(s, t, i) {
    }
    forall k ensures KeyKept(s, t, k) && Indexed(t, k) {
      assert Indexed(s, k);
    }
    forall i: nat ensures Node(rank, t, i) {
      if i < |s.projects| {
        assert Node(rank, s, i);
        assert Indexed(s, s.projects[i].name);
      }
    }
  }

  /** Adding a lower-ranked project to an open project's list keeps the invariant and touches nothing else. */
  lemma {:induction false} Append(rank: string -> nat, s: Store, p: nat, c: nat)
    requires WellFormed(rank, s) && p < |s.projects| && s.projects[p].open
    requires c < |s.projects| && rank(s.projects[c].name) < rank(s.projects[p].name)
    ensures var t := With(s, p, s.projects[p].(dependencies := s.projects[p].dependencies + [c]));
      WellFormed(rank, t) && Grows(s, t) && Untouched(rank, rank(s.projects[p].name), s, t)
  {
    var t := With(s, p, s.projects[p].(dependencies := s.projects[p].dependencies + [c]));
    forall i: nat ensures Kept(s, t, i) && Above(rank, rank(s.projects[p].name), s, t, i) {
    }
    forall k ensures KeyKept(s, t, k) && Indexed(t, k) {
      assert Indexed(s, k);
    }
    forall i: nat ensures Node(rank, t, i) {
      assert Node(rank, s, i);
    }
  }

  /** Setting `preDependencies` to null keeps the invariant and touches nothing else. */
  lemma {:induction false} Burn(rank: string -> nat, s: Store, p: nat)
    requires WellFormed(rank, s) && p < |s.projects|
    ensures var t := With(s, p, s.projects[p].(open := false));
      WellFormed(rank, t) && Grows(s, t) && Untouched(rank, rank(s.projects[p].name), s, t)
  {
    var t := With(s, p, s.projects[p].(open := false));
    forall i: nat ensures Kept(s, t, i) && Above(rank, rank(s.projects[p].name), s, t, i) {
    }
    forall k ensures KeyKept(s, t, k) && Indexed(t, k) {
      assert Indexed(s, k);
    }
    forall i: nat ensures Node(rank, t, i) {
      assert Node(rank, s, i);
    }
  }

  /** One more entry held and appended: the list is the ids of one more entry. */
  lemma CollectStep(s0: Store, s1: Store, s2: Store, p: nat, base: seq<nat>, names: seq<string>, k: nat)
    requires k < |names| && p < |s0.projects| && Held(s0.preCanon, names[..k])
    requires s0.projects[p].dependencies == base + Ids(s0.preCanon, names[..k])
    requires Grows(s0, s1) && Prefix(s0, s1) && names[k] in s1.preCanon
    requires p < |s1.projects| && s2 == With(s1, p, s1.projects[p].(dependencies := s1.projects[p].dependencies + [s1.preCanon[names[k]]]))
    requires Grows(s1, s2)
    ensures Held(s2.preCanon, names[..k + 1])
    ensures s2.projects[p].dependencies == base + Ids(s2.preCanon, names[..k + 1])
  {
    assert Same(s0, s1, p);
    IdsStable(s0, s1, names[..k]);
    var next := names[..k + 1];
    assert Held(s1.preCanon, next) by {
      forall j | 0 <= j < k + 1 ensures next[j] in s1.preCanon {
        if j < k {
          assert next[j] == names[..k][j];
        }
      }
    }
    assert Ids(s1.preCanon, next) == Ids(s1.preCanon, names[..k]) + [s1.preCanon[names[k]]];
    assert base + Ids(s1.preCanon, names[..k]) + [s1.preCanon[names[k]]] == base + Ids(s1.preCanon, next);
  }

  /** One more child cooked: the children cooked so far stay cooked, and the next one joins them. */
  lemma CookedNext(s0: Store, s1: Store, children: seq<nat>, k: nat)
    requires k < |children| && Cooked(s0, children[..k]) && Grows(s0, s1)
    requires children[k] < |s1.projects| && !s1.projects[children[k]].open
    ensures Cooked(s1, children[..k + 1])
  {
    CookedGrows(s0, s1, children[..k]);
    var next := children[..k + 1];
    forall j | 0 <= j < k + 1 ensures next[j] < |s1.projects| && !s1.projects[next[j]].open {
      if j < k {
        assert next[j] == children[..k][j];
      }
    }
  }

  /**
   * The end of a `cook` that read `-buildpath`: the entries added stay resolved the same way while
   * the dependencies are cooked and the bridge is burnt, and they are cooked when no cook failed.
   */
  lemma CookDone(rank: string -> nat, s0: Store, s1: Store, s2: Store, s3: Store, p: nat,
                 base: seq<nat>, entries: seq<string>, ok: bool)
    requires p < |s0.projects|
    requires Grows(s0, s1) && Untouched(rank, rank(s0.projects[p].name), s0, s1)
    requires p < |s1.projects| && s1.projects[p].name == s0.projects[p].name
    requires Held(s1.preCanon, entries) && s1.projects[p].dependencies == base + Ids(s1.preCanon, entries)
    requires Grows(s1, s2) && Untouched(rank, rank(s0.projects[p].name) - 1, s1, s2)
    requires p < |s2.projects| && s2.projects[p] == s1.projects[p]
    requires ok ==> Cooked(s2, s2.projects[p].dependencies)
    requires Grows(s2, s3) && Untouched(rank, rank(s0.projects[p].name), s2, s3)
    requires p < |s3.projects| && s3.projects[p].dependencies == s2.projects[p].dependencies
    ensures Grows(s0, s3) && Untouched(rank, rank(s0.projects[p].name), s0, s3)
    ensures Held(s3.preCanon, entries) && s3.projects[p].dependencies == base + Ids(s3.preCanon, entries)
    ensures ok ==> Cooked(s3, Ids(s3.preCanon, entries))
  {
    var bound: int := rank(s0.projects[p].name);
    GrowsTrans(s1, s2, s3);
    GrowsTrans(s0, s1, s3);
    UntouchedTrans(rank, bound, bound - 1, bound, s1, s2, s3);
    UntouchedTrans(rank, bound, bound, bound, s0, s1, s3);
    IdsStable(s1, s3, entries);
    if ok {
      var deps := s2.projects[p].dependencies;
      CookedGrows(s2, s3, deps);
      var ids := Ids(s3.preCanon, entries);
      forall k | 0 <= k < |ids| ensures ids[k] < |s3.projects| && !s3.projects[ids[k]].open {
        assert ids[k] == deps[|base| + k];
      }
    }
  }

  /** The rank of project `i`'s name (of no consequence past the last project). */
  function RankAt(rank: string -> nat, projects: seq<Project>, i: nat): nat
  {
    if i < |projects| then rank(projects[i].name) else 0
  }

  /** The static state of class `Project`: `preCanon`, `canon`, and the arena of projects. */
  class Registry {
    const ws: Folders
    /** A rank that every `-buildpath` entry descends: the reason `cook` ends. */
    ghost const rank: string -> nat
    /** Every project constructed so far; an id is an index. */
    var projects: seq<Project>
    var preCanon: map<string, nat>
    var canon: map<string, nat>

    ghost function State(): Store
      reads this
    {
      Store(projects, preCanon)
    }

    ghost predicate Valid()
      reads this
    {
      WellFormed(rank, State()) && Acyclic(ws, rank) && Remembers(canon, State())
    }

    /** The class initialisation: no project constructed, nothing remembered. */
    constructor (ws: Folders, ghost rank: string -> nat)
      requires Acyclic(ws, rank)
      ensures Valid()
      ensures projects == [] && preCanon == map[] && canon == map[]
    {
      this.ws := ws;
      this.rank := rank;
      projects := [];
      preCanon := map[];
      canon := map[];
      new;
      EmptyWellFormed(rank);
    }

    /** `getRaw`: the project stored under `name`, or a new open project with an empty list stored under it. */
    method GetRaw(name: string) returns (r: nat)
      requires Valid()
      modifies this
      ensures Valid()
      ensures name in old(preCanon) ==> r == old(preCanon)[name] && State() == old(State())
      ensures name !in old(preCanon) ==>
        && r == |old(projects)|
        && projects == old(projects) + [Project(name, true, [])]
        && preCanon == old(preCanon)[name := r]
      ensures r < |projects| && projects[r].name == name && name in preCanon && preCanon[name] == r
      ensures Grows(old(State()), State()) && Prefix(old(State()), State())
      ensures canon == old(canon)
    {
      if name in preCanon {
        GrowsRefl(State());
        assert Indexed(State(), name);
        return preCanon[name];
      }
      ghost var s0 := State();
      AddProject(rank, s0, name);
      projects := projects + [Project(name, true, [])];
      preCanon := preCanon[name := |projects| - 1];
      RemembersGrows(canon, s0, State());
      return |projects| - 1;
    }

    /** `preDependencies = null`, the `finally` of every `cook` that found the bridge open. */
    method BurnBridge(p: nat)
      requires Valid() && p < |projects|
      modifies this
      ensures Valid() && projects == old(projects)[p := old(projects[p]).(open := false)]
      ensures preCanon == old(preCanon) && canon == old(canon)
      ensures Grows(old(State()), State()) && Untouched(rank, rank(old(projects[p].name)), old(State()), State())
    {
      ghost var s0 := State();
      Burn(rank, s0, p);
      projects := projects[p := projects[p].(open := false)];
      RemembersGrows(canon, s0, State());
    }

    /**
     * `cook`: a project whose bridge is burnt is returned at once. Otherwise a name with a NUL
     * fails; a folder without `bnd.bnd` adds nothing; a `bnd.bnd` without `-buildpath` fails;
     * else every `-buildpath` entry, cut at its first `;`, is looked up with `getRaw` and added in
     * order, and then every dependency is cooked. The bridge is burnt however the cook ends.
     */
    method Cook(p: nat) returns (r: Result<nat, Failure>)
      requires Valid() && p < |projects|
      modifies this
      ensures Valid() && p < |projects| && projects[p].name == old(projects[p].name) && !projects[p].open
      ensures Grows(old(State()), State()) && Untouched(rank, rank(old(projects[p].name)), old(State()), State())
      ensures canon == old(canon)
      ensures !old(projects[p].open) ==> r == Ok(p) && State() == old(State())
      ensures r.Ok? ==> r.value == p
      ensures r.Err? ==> Fails(ws, r.error)
      ensures var name := old(projects[p].name);
        old(projects[p].open) && ('\0' in name || ws(name).None? || B.BuildPath !in ws(name).value) ==>
        && projects == old(projects)[p := old(projects[p]).(open := false)] && preCanon == old(preCanon)
        && r == if '\0' in name then Err(InvalidPath(name)) else if ws(name).None? then Ok(p) else Err(NoBuildPath(name))
      ensures var name := old(projects[p].name);
        old(projects[p].open) && '\0' !in name && ws(name).Some? && B.BuildPath in ws(name).value ==>
        var entries := B.PathProp(ws(name).value, B.BuildPath);
        && Held(preCanon, entries)
        && projects[p].dependencies == old(projects[p].dependencies) + Ids(preCanon, entries)
        && (r.Ok? ==> Cooked(State(), Ids(preCanon, entries)))
      decreases rank(projects[p].name), 1
    {
      if !projects[p].open {
        GrowsRefl(State());
        UntouchedRefl(rank, rank(projects[p].name), State());
        return Ok(p);
      }
      var name := projects[p].name;
      if '\0' in name {
        BurnBridge(p);
        return Err(InvalidPath(name));
      }
      var bnd := ws(name);
      if bnd.None? {
        BurnBridge(p);
        return Ok(p);
      }
      if B.BuildPath !in bnd.value {
        BurnBridge(p);
        return Err(NoBuildPath(name));
      }
      var entries := B.PathProp(bnd.value, B.BuildPath);
      ghost var s0 := State();
      Collect(p, entries);
      ghost var s1 := State();
      var failure := CookEach(p);
      ghost var s2 := State();
      BurnBridge(p);
      CookDone(rank, s0, s1, s2, State(), p, old(projects[p].dependencies), entries, failure.None?);
      if failure.Some? {
        return Err(failure.value);
      }
      return Ok(p);
    }

    /** The stream that adds `getRaw` of every entry to `preDependencies`, in order. */
    method Collect(p: nat, entries: seq<string>)
      requires Valid() && p < |projects| && projects[p].open
      requires forall k :: 0 <= k < |entries| ==> rank(entries[k]) < rank(projects[p].name)
      modifies this
      ensures Valid() && p < |projects| && projects[p].open && projects[p].name == old(projects[p].name)
      ensures Held(preCanon, entries)
      ensures projects[p].dependencies == old(projects[p].dependencies) + Ids(preCanon, entries)
      ensures Grows(old(State()), State()) && Untouched(rank, rank(old(projects[p].name)), old(State()), State())
      ensures canon == old(canon)
    {
      ghost var name := projects[p].name;
      GrowsRefl(State());
      UntouchedRefl(rank, rank(name), State());
      var k := 0;
      while k < |entries|
        invariant 0 <= k <= |entries|
        invariant Valid() && p < |projects| && projects[p].open && projects[p].name == name
        invariant Held(preCanon, entries[..k])
        invariant projects[p].dependencies == old(projects[p].dependencies) + Ids(preCanon, entries[..k])
        invariant Grows(old(State()), State()) && Untouched(rank, rank(name), old(State()), State())
        invariant canon == old(canon)
      {
        ghost var s0 := State();
        var q := GetRaw(entries[k]);
        ghost var s1 := State();
        assert Same(s0, s1, p);
        Append(rank, s1, p, q);
        projects := projects[p := projects[p].(dependencies := projects[p].dependencies + [q])];
        CollectStep(s0, s1, State(), p, old(projects[p].dependencies), entries, k);
        GrowsTrans(s0, s1, State());
        GrowsTrans(old(State()), s0, State());
        PrefixUntouched(rank, rank(name), s0, s1);
        UntouchedTrans(rank, rank(name), rank(name), rank(name), s0, s1, State());
        UntouchedTrans(rank, rank(name), rank(name), rank(name), old(State()), s0, State());
        RemembersGrows(canon, s1, State());
        k := k + 1;
      }
      assert entries[..k] == entries;
    }

    /**
     * `dependencies.forEach(Project::cook)`: every dependency cooked in order until one fails.
     * Only projects ranked below `p` change, so `p` itself is left as it was.
     */
    method CookEach(p: nat) returns (failure: Option<Failure>)
      requires Valid() && p < |projects|
      modifies this
      ensures Valid() && p < |projects| && projects[p] == old(projects[p])
      ensures failure.None? ==> Cooked(State(), projects[p].dependencies)
      ensures failure.Some? ==> Fails(ws, failure.value)
      ensures Grows(old(State()), State()) && Untouched(rank, rank(old(projects[p].name)) - 1, old(State()), State())
      ensures canon == old(canon)
      decreases rank(projects[p].name), 0
    {
      var children := projects[p].dependencies;
      ghost var name := projects[p].name;
      GrowsRefl(State());
      UntouchedRefl(rank, rank(name) - 1, State());
      var k := 0;
      while k < |children|
        invariant 0 <= k <= |children|
        invariant Valid() && p < |projects| && projects[p] == old(projects[p])
        invariant Cooked(State(), children[..k])
        invariant Grows(old(State()), State()) && Untouched(rank, rank(name) - 1, old(State()), State())
        invariant canon == old(canon)
      {
        ghost var s0 := State();
        assert Node(rank, s0, p);
        var c := children[k];
        var r := Cook(c);
        assert Above(rank, rank(s0.projects[c].name), s0, State(), p);
        GrowsTrans(old(State()), s0, State());
        UntouchedTrans(rank, rank(name) - 1, rank(name) - 1, rank(s0.projects[c].name), old(State()), s0, State());
        if r.Err? {
          return Some(r.error);
        }
        CookedNext(s0, State(), children, k);
        k := k + 1;
      }
      assert children[..k] == children;
      return None;
    }

    /**
     * `getCanonical`: the project remembered for `name`, or else the raw project cooked and
     * remembered. A failing `cook` remembers nothing.
     */
    method GetCanonical(name: string) returns (r: Result<nat, Failure>)
      requires Valid()
      modifies this
      ensures Valid()
      ensures name in old(canon) ==> r == Ok(old(canon)[name]) && State() == old(State()) && canon == old(canon)
      ensures name in preCanon
      ensures r.Ok? ==> name in canon && canon[name] == r.value && r.value < |projects|
      ensures r.Ok? ==> projects[r.value].name == name && !projects[r.value].open
      ensures r.Err? ==> canon == old(canon) && Fails(ws, r.error)
      ensures canon == if r.Ok? then old(canon)[name := r.value] else old(canon)
      ensures Grows(old(State()), State())
    {
      if name in canon {
        GrowsRefl(State());
        assert KeyKept(State(), State(), name);
        assert Indexed(State(), name);
        return Ok(canon[name]);
      }
      ghost var s0 := State();
      var raw := GetRaw(name);
      ghost var s1 := State();
      var c := Cook(raw);
      GrowsTrans(s0, s1, State());
      assert KeyKept(s1, State(), name);
      if c.Err? {
        return Err(c.error);
      }
      canon := canon[name := raw];
      return Ok(raw);
    }

    /** A project's rank is its name's rank. */
    ghost function IdRank(): (r: nat -> nat)
      reads this
      ensures forall i :: 0 <= i < |projects| ==> r(i) == rank(projects[i].name)
    {
      var ps := projects;
      var rk := rank;
      (i: nat) => RankAt(rk, ps, i)
    }

    /** The lists the `dependencies` views show, as an adjacency. */
    function Adjacency(): (r: PostOrder.Adjacency)
      reads this
      ensures |r| == |projects| && forall i :: 0 <= i < |r| ==> r[i] == projects[i].dependencies
    {
      var ps := projects;
      seq(|ps|, i requires 0 <= i < |ps| => ps[i].dependencies)
    }

    /** Every dependency is a project of lower rank, so `insertInto` ends. */
    lemma AdjacencyRanked()
      requires Valid()
      ensures PostOrder.Closed(Adjacency()) && PostOrder.Ranked(Adjacency(), IdRank())
    {
      var adj := Adjacency();
      forall i, k | 0 <= i < |adj| && 0 <= k < |adj[i]| ensures adj[i][k] < |adj| && IdRank()(adj[i][k]) < IdRank()(i) {
        assert Node(rank, State(), i);
      }
    }

    /** The names of the listed projects. */
    function NamesOf(ids: seq<nat>): (r: seq<string>)
      reads this
      requires forall x :: x in ids ==> x < |projects|
      ensures |r| == |ids| && forall k :: 0 <= k < |ids| ==> ids[k] in ids && r[k] == projects[ids[k]].name
    {
      var ps := projects;
      assert forall k :: 0 <= k < |ids| ==> ids[k] in ids;
      seq(|ids|, k requires 0 <= k < |ids| && ids[k] < |ps| => ps[ids[k]].name)
    }

    /**
     * `printInTopologicalOrder`: the names `insertInto` lists from a fresh set, every project the
     * start reaches once and after its dependencies, the start itself last.
     */
    method PrintInTopologicalOrder(p: nat) returns (lines: seq<string>)
      requires Valid() && p < |projects|
      ensures PostOrder.Closed(Adjacency()) && PostOrder.Ranked(Adjacency(), IdRank())
      ensures var listing := PostOrder.Visit(Adjacency(), IdRank(), p, []);
        && Distinct(listing) && PostOrder.DepsFirst(Adjacency(), listing)
        && Elems(listing) == PostOrder.Reach(Adjacency(), IdRank(), p) && listing[|listing| - 1] == p
        && PostOrder.InRange(Adjacency(), listing)
        && lines == NamesOf(listing)
    {
      AdjacencyRanked();
      var deps := Adjacency();
      var list := new PostOrder.LinkedSet();
      PostOrder.Dfs0(deps, IdRank(), p, list);
      PostOrder.ListingFromStart(deps, IdRank(), p);
      return NamesOf(list.elems);
    }
  }
}
