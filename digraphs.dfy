/**
 * The project dependency graph as explicit data: vertices are project ids, an edge `(p, q)` says
 * that project `p` depends on project `q`. This module holds the two graph algorithms the catalog
 * relies on: the reflexive transitive closure of a set of seeds (computed breadth-first), and the
 * dependency-first topological order that breaks ties by project name.
 */
module Digraphs {
  import opened Wrappers
  import opened Seqs
  import opened JavaStrings

  /** `(p, q)`: project `p` depends on project `q`. */
  type Edge = (nat, nat)

  /** Every edge joins two vertices of `vs`. */
  predicate Within(es: set<Edge>, vs: set<nat>)
  {
    forall e :: e in es ==> e.0 in vs && e.1 in vs
  }

  /** The targets of the edges leaving `s`. */
  function Successors(es: set<Edge>, s: set<nat>): (r: set<nat>)
    ensures forall e :: e in es && e.0 in s ==> e.1 in r
    ensures forall y :: y in r ==> exists e :: e in es && e.0 in s && e.1 == y
  {
    set e | e in es && e.0 in s :: e.1
  }

  lemma SuccessorsUnion(es: set<Edge>, a: set<nat>, b: set<nat>)
    ensures Successors(es, a + b) == Successors(es, a) + Successors(es, b)
  {
  }

  lemma SuccessorsWithin(es: set<Edge>, vs: set<nat>, s: set<nat>)
    requires Within(es, vs)
    ensures Successors(es, s) <= vs
  {
  }

  /** No edge leaves `s`. */
  predicate ClosedUnder(es: set<Edge>, s: set<nat>)
  {
    forall e :: e in es && e.0 in s ==> e.1 in s
  }

  /**
   * The breadth-first loop: add the frontier to the results, then take as the next frontier the
   * successors of the frontier that are not yet results; stop at an empty frontier.
   */
  function ClosureFrom(es: set<Edge>, vs: set<nat>, results: set<nat>, frontier: set<nat>): (r: set<nat>)
    requires Within(es, vs) && results <= vs && frontier <= vs && results !! frontier
    requires Successors(es, results) <= results + frontier
    ensures results + frontier <= r <= vs
    ensures ClosedUnder(es, r)
    decreases |vs - results|
  {
    if frontier == {} then results
    else
      var next := results + frontier;
      assert vs - next < vs - results by {
        var x :| x in frontier;
        assert x in vs - results && x !in vs - next;
      }
      SuccessorsWithin(es, vs, frontier);
      SuccessorsUnion(es, results, frontier);
      ClosureFrom(es, vs, next, Successors(es, frontier) - next)
  }

  /** Every project reachable from `seeds`, the seeds included. */
  function Closure(es: set<Edge>, vs: set<nat>, seeds: set<nat>): (r: set<nat>)
    requires Within(es, vs) && seeds <= vs
    ensures seeds <= r <= vs
    ensures ClosedUnder(es, r)
  {
    ClosureFrom(es, vs, {}, seeds)
  }

  /** The loop adds nothing that every closed superset of its state does not already hold. */
  lemma {:induction false} ClosureFromLeast(es: set<Edge>, vs: set<nat>, results: set<nat>, frontier: set<nat>, t: set<nat>)
    requires Within(es, vs) && results <= vs && frontier <= vs && results !! frontier
    requires Successors(es, results) <= results + frontier
    requires results + frontier <= t && ClosedUnder(es, t)
    ensures ClosureFrom(es, vs, results, frontier) <= t
    decreases |vs - results|
  {
    if frontier != {} {
      var next := results + frontier;
      assert vs - next < vs - results by {
        var x :| x in frontier;
        assert x in vs - results && x !in vs - next;
      }
      SuccessorsWithin(es, vs, frontier);
      SuccessorsUnion(es, results, frontier);
      assert Successors(es, frontier) <= t;
      ClosureFromLeast(es, vs, next, Successors(es, frontier) - next, t);
    }
  }

  /** The closure is the least set that holds the seeds and that no edge leaves: only reachable projects are in it. */
  lemma ClosureLeast(es: set<Edge>, vs: set<nat>, seeds: set<nat>, t: set<nat>)
    requires Within(es, vs) && seeds <= vs
    requires seeds <= t && ClosedUnder(es, t)
    ensures Closure(es, vs, seeds) <= t
  {
    ClosureFromLeast(es, vs, {}, seeds, t);
  }

  // ---------------------------------------------------------------------------
  // Topological order
  // ---------------------------------------------------------------------------

  /** The emission order among ready projects: smaller name first, then smaller id. */
  predicate Precedes(names: seq<string>, a: nat, b: nat)
  {
    a < |names| && b < |names| && (CompareTo(names[a], names[b]) < 0 || (names[a] == names[b] && a < b))
  }

  lemma PrecedesTotal(names: seq<string>, a: nat, b: nat)
    requires a < |names| && b < |names|
    ensures a == b || Precedes(names, a, b) || Precedes(names, b, a)
    ensures !(Precedes(names, a, b) && Precedes(names, b, a))
  {
    CompareToZero(names[a], names[b]);
    CompareToAntisymmetric(names[a], names[b]);
  }

  lemma PrecedesTransitive(names: seq<string>, a: nat, b: nat, c: nat)
    requires a < |names| && b < |names| && c < |names|
    requires Precedes(names, a, b) && Precedes(names, b, c)
    ensures Precedes(names, a, c)
  {
    if CompareTo(names[a], names[b]) < 0 && CompareTo(names[b], names[c]) < 0 {
      CompareToTransitive(names[a], names[b], names[c]);
    }
  }

  /** All ids are vertices the name list covers. */
  predicate Named(names: seq<string>, xs: seq<nat>)
  {
    forall k :: 0 <= k < |xs| ==> xs[k] < |names|
  }

  /** The first id of `xs` in `Precedes` order. */
  function ArgMin(names: seq<string>, xs: seq<nat>): (r: nat)
    requires xs != [] && Named(names, xs)
    ensures r in xs && r < |names|
    ensures forall k :: 0 <= k < |xs| ==> xs[k] == r || Precedes(names, r, xs[k])
  {
    if |xs| == 1 then xs[0]
    else
      var m := ArgMin(names, xs[1..]);
      PrecedesTotal(names, xs[0], m);
      if Precedes(names, xs[0], m) then
        assert forall k :: 1 <= k < |xs| ==> xs[k] == xs[1..][k - 1];
        forall k | 1 <= k < |xs| && xs[k] != m ensures Precedes(names, xs[0], xs[k]) {
          assert xs[k] == xs[1..][k - 1];
          PrecedesTransitive(names, xs[0], m, xs[k]);
        }
        xs[0]
      else
        assert forall k :: 1 <= k < |xs| ==> xs[k] == xs[1..][k - 1];
        m
  }

  /** Every dependency of `v` has left `rem`: in the reversed graph `v` has no incoming edge from `rem`. */
  predicate Ready(es: set<Edge>, rem: set<nat>, v: nat)
  {
    forall e :: e in es && e.0 == v ==> e.1 !in rem
  }

  /** Every project of `rem` still waits for another project of `rem`: `rem` holds a dependency cycle. */
  predicate Stuck(es: set<Edge>, rem: set<nat>)
  {
    forall v :: v in rem ==> !Ready(es, rem, v)
  }

  /** The projects of `rem` that are ready, in ascending id order. */
  function ReadyList(es: set<Edge>, names: seq<string>, rem: set<nat>): (r: seq<nat>)
    ensures Named(names, r)
    ensures forall v :: v in r <==> v < |names| && v in rem && Ready(es, rem, v)
  {
    var r := Filter(Range(|names|), v => v in rem && Ready(es, rem, v));
    assert forall k :: 0 <= k < |r| ==> r[k] in r;
    r
  }

  /**
   * Kahn's algorithm over the reversed graph with a priority queue ordered by name: repeatedly emit
   * the ready project that comes first, until none remain (`Ok`) or none is ready (`Err` with what
   * was emitted before the iterator gives up on a graph that is not a DAG).
   */
  function Kahn(es: set<Edge>, names: seq<string>, rem: set<nat>, emitted: seq<nat>): (r: Result<seq<nat>, seq<nat>>)
    requires forall v :: v in rem ==> v < |names|
    ensures emitted <= (if r.Ok? then r.value else r.error)
    decreases |rem|
  {
    if rem == {} then Ok(emitted)
    else
      var ready := ReadyList(es, names, rem);
      if ready == [] then Err(emitted)
      else
        var v := ArgMin(names, ready);
        Kahn(es, names, rem - {v}, emitted + [v])
  }

  /** `TopologicalOrderIterator` over the subgraph induced by `s`, edges reversed, smallest name first. */
  function TopologicalOrder(es: set<Edge>, names: seq<string>, s: set<nat>): (r: Result<seq<nat>, seq<nat>>)
    requires forall v :: v in s ==> v < |names|
  {
    Kahn(es, names, s, [])
  }

  /** Each emitted project comes after every project of `s` it depends on. */
  predicate DepsBefore(es: set<Edge>, s: set<nat>, order: seq<nat>)
  {
    forall i, e :: 0 <= i < |order| && e in es && e.0 == order[i] && e.1 in s ==> e.1 in order[..i]
  }

  /**
   * Leaving projects out of a dependency-first order keeps it dependency-first: when the project at
   * kept position `l` depends on the one at kept position `k`, then `k` comes first.
   */
  lemma DepsBeforePicked(es: set<Edge>, s: set<nat>, order: seq<nat>, pos: seq<nat>)
    requires Distinct(order) && Elems(order) == s && DepsBefore(es, s, order)
    requires Increasing(pos) && forall k :: 0 <= k < |pos| ==> pos[k] < |order|
    ensures forall k, l :: 0 <= k < |pos| && 0 <= l < |pos| && (order[pos[l]], order[pos[k]]) in es ==> k < l
  {
    forall k, l | 0 <= k < |pos| && 0 <= l < |pos| && (order[pos[l]], order[pos[k]]) in es
      ensures k < l
    {
      var e := (order[pos[l]], order[pos[k]]);
      assert e.1 in s;
      assert e.1 in order[..pos[l]];
      var m :| 0 <= m < pos[l] && order[m] == e.1;
      assert m == pos[k];
    }
  }

  /** Each emitted project is the first, by name, of the projects that were ready when it was emitted. */
  predicate Greedy(es: set<Edge>, names: seq<string>, s: set<nat>, order: seq<nat>)
  {
    forall i, w :: 0 <= i < |order| && w in s - Elems(order[..i]) && Ready(es, s - Elems(order[..i]), w) ==>
      w == order[i] || Precedes(names, order[i], w)
  }

  lemma {:induction false} KahnStep(es: set<Edge>, names: seq<string>, s: set<nat>, emitted: seq<nat>, v: nat)
    requires forall x :: x in s ==> x < |names|
    requires Elems(emitted) <= s && Distinct(emitted)
    requires DepsBefore(es, s, emitted) && Greedy(es, names, s, emitted)
    requires v in s - Elems(emitted) && Ready(es, s - Elems(emitted), v)
    requires forall w :: w in s - Elems(emitted) && Ready(es, s - Elems(emitted), w) ==> w == v || Precedes(names, v, w)
    ensures Elems(emitted + [v]) <= s && Distinct(emitted + [v])
    ensures DepsBefore(es, s, emitted + [v]) && Greedy(es, names, s, emitted + [v])
  {
    var order := emitted + [v];
    assert order[..|emitted|] == emitted;
    forall i | 0 <= i < |emitted| ensures order[..i] == emitted[..i] {
    }
  }

  /** What Kahn's loop keeps: a duplicate-free, dependency-first, name-greedy prefix of `s`. */
  lemma {:induction false} KahnInvariant(es: set<Edge>, names: seq<string>, s: set<nat>, rem: set<nat>, emitted: seq<nat>)
    requires forall v :: v in s ==> v < |names|
    requires Elems(emitted) <= s && rem == s - Elems(emitted)
    requires Distinct(emitted) && DepsBefore(es, s, emitted) && Greedy(es, names, s, emitted)
    ensures Kahn(es, names, rem, emitted).Ok? ==>
      var order := Kahn(es, names, rem, emitted).value;
      Elems(order) == s && Distinct(order) && DepsBefore(es, s, order) && Greedy(es, names, s, order)
    ensures Kahn(es, names, rem, emitted).Err? ==>
      var prefix := Kahn(es, names, rem, emitted).error;
      && Elems(prefix) <= s && Distinct(prefix) && DepsBefore(es, s, prefix) && Greedy(es, names, s, prefix)
      && s - Elems(prefix) != {} && Stuck(es, s - Elems(prefix))
    decreases |rem|
  {
    if rem != {} {
      var ready := ReadyList(es, names, rem);
      if ready != [] {
        var v := ArgMin(names, ready);
        forall w | w in rem && Ready(es, rem, w) ensures w == v || Precedes(names, v, w) {
          assert w in ready;
        }
        KahnStep(es, names, s, emitted, v);
        assert rem - {v} == s - Elems(emitted + [v]);
        KahnInvariant(es, names, s, rem - {v}, emitted + [v]);
      }
    } else {
      forall x | x in s ensures x in Elems(emitted) {
        assert x !in rem;
      }
    }
  }

  /** The order is a permutation of `s` that puts dependencies first and, among ready projects, the smallest name first. */
  lemma TopologicalOrderIsSorted(es: set<Edge>, names: seq<string>, s: set<nat>)
    requires forall v :: v in s ==> v < |names|
    ensures TopologicalOrder(es, names, s).Ok? ==>
      var order := TopologicalOrder(es, names, s).value;
      Elems(order) == s && Distinct(order) && DepsBefore(es, s, order) && Greedy(es, names, s, order)
    ensures TopologicalOrder(es, names, s).Err? ==>
      var prefix := TopologicalOrder(es, names, s).error;
      Elems(prefix) < s && Stuck(es, s - Elems(prefix))
  {
    var none: seq<nat> := [];
    assert Elems(none) == {};
    KahnInvariant(es, names, s, s, []);
  }

  /** Both the order and the prefix reached before a cycle name only vertices of `s`. */
  lemma TopologicalOrderNamed(es: set<Edge>, names: seq<string>, s: set<nat>)
    requires forall v :: v in s ==> v < |names|
    ensures var r := TopologicalOrder(es, names, s);
      Named(names, if r.Ok? then r.value else r.error)
  {
    TopologicalOrderIsSorted(es, names, s);
    var r := TopologicalOrder(es, names, s);
    var xs := if r.Ok? then r.value else r.error;
    forall k | 0 <= k < |xs| ensures xs[k] < |names| {
      assert xs[k] in Elems(xs);
    }
  }

  /** A ranking that every edge descends: the graph has no cycle. */
  predicate Ranked(es: set<Edge>, rank: nat -> nat)
  {
    forall e :: e in es ==> rank(e.1) < rank(e.0)
  }

  /** Under a ranking, every non-empty set holds a project whose dependencies all lie outside it. */
  lemma {:induction false} ReadyExists(es: set<Edge>, rank: nat -> nat, rem: set<nat>, x: nat)
    requires Ranked(es, rank) && x in rem
    ensures exists v :: v in rem && Ready(es, rem, v)
    decreases rank(x)
  {
    if !Ready(es, rem, x) {
      var e :| e in es && e.0 == x && e.1 in rem;
      ReadyExists(es, rank, rem, e.1);
    }
  }

  lemma {:induction false} KahnRankedOk(es: set<Edge>, names: seq<string>, rank: nat -> nat, rem: set<nat>, emitted: seq<nat>)
    requires Ranked(es, rank)
    requires forall v :: v in rem ==> v < |names|
    ensures Kahn(es, names, rem, emitted).Ok?
    decreases |rem|
  {
    if rem != {} {
      var x :| x in rem;
      ReadyExists(es, rank, rem, x);
      var w :| w in rem && Ready(es, rem, w);
      var ready := ReadyList(es, names, rem);
      assert w in ready;
      var v := ArgMin(names, ready);
      KahnRankedOk(es, names, rank, rem - {v}, emitted + [v]);
    }
  }

  /** On a graph without cycles the iterator never fails. */
  lemma TopologicalOrderOfAcyclic(es: set<Edge>, names: seq<string>, s: set<nat>, rank: nat -> nat)
    requires Ranked(es, rank)
    requires forall v :: v in s ==> v < |names|
    ensures TopologicalOrder(es, names, s).Ok?
  {
    KahnRankedOk(es, names, rank, s, []);
  }
}
