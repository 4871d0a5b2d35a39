/**
 * The depth-first listing the older resolvers print: a project first lists, child by child, the
 * listing of each of its dependencies, then itself, into one insertion-ordered set, so a project
 * reached twice keeps its first position. Projects are ids; `deps[p]` is project `p`'s dependency
 * list in order. The recursion only ends when no project depends on itself through others, which
 * is stated as a rank that every dependency edge descends.
 */
module PostOrder {
  import opened Seqs

  /** Project `p`'s dependencies, in order, for every project id below `|deps|`. */
  type Adjacency = seq<seq<nat>>

  /** Every dependency is itself a project. */
  predicate Closed(deps: Adjacency)
  {
    forall p, k :: 0 <= p < |deps| && 0 <= k < |deps[p]| ==> deps[p][k] < |deps|
  }

  /** Every dependency has a smaller rank than its dependent: the graph has no cycle. */
  predicate Ranked(deps: Adjacency, rank: nat -> nat)
  {
    forall p, k :: 0 <= p < |deps| && 0 <= k < |deps[p]| ==> rank(deps[p][k]) < rank(p)
  }

  /** The children `cs` of `parent` are projects of lower rank. */
  predicate Below(deps: Adjacency, rank: nat -> nat, parent: nat, cs: seq<nat>)
  {
    forall k :: 0 <= k < |cs| ==> cs[k] < |deps| && rank(cs[k]) < rank(parent)
  }

  /** `dfs0(list)` on project `p`: the listing after visiting `p` with `acc` already listed. */
  function Visit(deps: Adjacency, rank: nat -> nat, p: nat, acc: seq<nat>): seq<nat>
    requires Closed(deps) && Ranked(deps, rank) && p < |deps|
    decreases rank(p), 1, 0
  {
    var after := VisitAll(deps, rank, p, deps[p], acc);
    if p in after then after else after + [p]
  }

  /** The children of `parent` visited in order, each starting from what the previous one listed. */
  function VisitAll(deps: Adjacency, rank: nat -> nat, parent: nat, cs: seq<nat>, acc: seq<nat>): seq<nat>
    requires Closed(deps) && Ranked(deps, rank) && Below(deps, rank, parent, cs)
    decreases rank(parent), 0, |cs|
  {
    if cs == [] then acc else VisitAll(deps, rank, parent, cs[1..], Visit(deps, rank, cs[0], acc))
  }

  /** The projects `p` reaches through dependencies, `p` included. */
  function Reach(deps: Adjacency, rank: nat -> nat, p: nat): set<nat>
    requires Closed(deps) && Ranked(deps, rank) && p < |deps|
    decreases rank(p), 1, 0
  {
    {p} + ReachAll(deps, rank, p, deps[p])
  }

  function ReachAll(deps: Adjacency, rank: nat -> nat, parent: nat, cs: seq<nat>): set<nat>
    requires Closed(deps) && Ranked(deps, rank) && Below(deps, rank, parent, cs)
    decreases rank(parent), 0, |cs|
  {
    if cs == [] then {} else Reach(deps, rank, cs[0]) + ReachAll(deps, rank, parent, cs[1..])
  }

  /** Each listed project comes after all of its dependencies. */
  predicate DepsFirst(deps: Adjacency, list: seq<nat>)
  {
    forall i, k :: 0 <= i < |list| && list[i] < |deps| && 0 <= k < |deps[list[i]]| ==> deps[list[i]][k] in list[..i]
  }

  /** Every listed id is a project. */
  predicate InRange(deps: Adjacency, list: seq<nat>)
  {
    forall x :: x in list ==> x < |deps|
  }

  /**
   * Visiting keeps what was listed as a prefix, lists no project twice, adds exactly the reach of
   * the visited projects, keeps every project after its dependencies, and reaches only projects of
   * rank no higher than where it started.
   */
  lemma {:induction false} VisitSpec(deps: Adjacency, rank: nat -> nat, p: nat, acc: seq<nat>)
    requires Closed(deps) && Ranked(deps, rank) && p < |deps|
    requires Distinct(acc) && DepsFirst(deps, acc) && InRange(deps, acc)
    ensures var r := Visit(deps, rank, p, acc);
      && acc <= r && Distinct(r) && DepsFirst(deps, r) && InRange(deps, r)
      && Elems(r) == Elems(acc) + Reach(deps, rank, p)
    decreases rank(p), 1, 0
  {
    var after := VisitAll(deps, rank, p, deps[p], acc);
    VisitAllSpec(deps, rank, p, deps[p], acc);
    if p !in after {
      var r := after + [p];
      assert r[..|after|] == after;
      forall k | 0 <= k < |deps[p]| ensures deps[p][k] in after {
        ReachAllHolds(deps, rank, p, deps[p], k);
      }
      forall i | 0 <= i < |after| ensures r[..i] == after[..i] {
      }
    }
  }

  lemma {:induction false} VisitAllSpec(deps: Adjacency, rank: nat -> nat, parent: nat, cs: seq<nat>, acc: seq<nat>)
    requires Closed(deps) && Ranked(deps, rank) && Below(deps, rank, parent, cs)
    requires Distinct(acc) && DepsFirst(deps, acc) && InRange(deps, acc)
    ensures var r := VisitAll(deps, rank, parent, cs, acc);
      && acc <= r && Distinct(r) && DepsFirst(deps, r) && InRange(deps, r)
      && Elems(r) == Elems(acc) + ReachAll(deps, rank, parent, cs)
    decreases rank(parent), 0, |cs|
  {
    if cs != [] {
      var mid := Visit(deps, rank, cs[0], acc);
      VisitSpec(deps, rank, cs[0], acc);
      VisitAllSpec(deps, rank, parent, cs[1..], mid);
    }
  }

  lemma {:induction false} ReachAllHolds(deps: Adjacency, rank: nat -> nat, parent: nat, cs: seq<nat>, k: nat)
    requires Closed(deps) && Ranked(deps, rank) && Below(deps, rank, parent, cs)
    requires k < |cs|
    ensures cs[k] in ReachAll(deps, rank, parent, cs)
    decreases |cs|
  {
    if k > 0 {
      ReachAllHolds(deps, rank, parent, cs[1..], k - 1);
    }
  }

  /** Everything a project reaches has a rank no higher than its own. */
  lemma {:induction false} ReachRank(deps: Adjacency, rank: nat -> nat, p: nat, x: nat)
    requires Closed(deps) && Ranked(deps, rank) && p < |deps|
    requires x in Reach(deps, rank, p)
    ensures rank(x) <= rank(p)
    decreases rank(p), 1, 0
  {
    if x != p {
      ReachAllRank(deps, rank, p, deps[p], x);
    }
  }

  lemma {:induction false} ReachAllRank(deps: Adjacency, rank: nat -> nat, parent: nat, cs: seq<nat>, x: nat)
    requires Closed(deps) && Ranked(deps, rank) && Below(deps, rank, parent, cs)
    requires x in ReachAll(deps, rank, parent, cs)
    ensures rank(x) < rank(parent)
    decreases rank(parent), 0, |cs|
  {
    if x in Reach(deps, rank, cs[0]) {
      ReachRank(deps, rank, cs[0], x);
    } else {
      ReachAllRank(deps, rank, parent, cs[1..], x);
    }
  }

  /**
   * `dfs()` from a fresh set: every project the start reaches, each once, each after its
   * dependencies, and the start itself last.
   */
  lemma ListingFromStart(deps: Adjacency, rank: nat -> nat, p: nat)
    requires Closed(deps) && Ranked(deps, rank) && p < |deps|
    ensures var r := Visit(deps, rank, p, []);
      && Distinct(r) && DepsFirst(deps, r) && InRange(deps, r) && Elems(r) == Reach(deps, rank, p)
      && r != [] && r[|r| - 1] == p
  {
    VisitAllSpec(deps, rank, p, deps[p], []);
    var after := VisitAll(deps, rank, p, deps[p], []);
    if p in after {
      ReachAllRank(deps, rank, p, deps[p], p);
    }
    VisitSpec(deps, rank, p, []);
  }

  /** An insertion-ordered set (`LinkedHashSet`): adding a present element changes nothing. */
  class LinkedSet {
    var elems: seq<nat>

    constructor ()
      ensures elems == []
    {
      elems := [];
    }

    method Add(x: nat)
      modifies this
      ensures elems == if x in old(elems) then old(elems) else old(elems) + [x]
    {
      if x !in elems {
        elems := elems + [x];
      }
    }
  }

  /** `dfs0(list)`: visit every dependency in order, then add the project itself. */
  method Dfs0(deps: Adjacency, ghost rank: nat -> nat, p: nat, list: LinkedSet)
    requires Closed(deps) && Ranked(deps, rank) && p < |deps|
    modifies list
    ensures list.elems == Visit(deps, rank, p, old(list.elems))
    decreases rank(p)
  {
    var children := deps[p];
    var k := 0;
    while k < |children|
      invariant 0 <= k <= |children|
      invariant VisitAll(deps, rank, p, children, old(list.elems)) == VisitAll(deps, rank, p, children[k..], list.elems)
    {
      assert children[k..][1..] == children[k + 1..];
      Dfs0(deps, rank, children[k], list);
      k := k + 1;
    }
    list.Add(p);
  }
}
