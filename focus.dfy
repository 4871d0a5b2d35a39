/**
 * The `px focus` commands: a focus list of project patterns and `kluge:` entries, kept in a file
 * under the Eclipse workspace, and the queries that turn it into the projects to import.
 *
 * The focus file is the `entries` field of a `Focus`; reading and writing it is not modelled.
 */
module FocusList {
  import opened Wrappers
  import opened Seqs
  import opened JavaStrings
  import B = BndProjects
  import C = BndCatalogs
  import Ex = Explorer

  // ---------------------------------------------------------------------------
  // Kluge entries
  // ---------------------------------------------------------------------------

  /** The prefix that marks a kluge entry. */
  const Kluge: string := "kluge:"

  /** `startsWith(KLUGE)`. */
  predicate IsKluge(entry: string)
  {
    |entry| >= |Kluge| && entry[..|Kluge|] == Kluge
  }

  /** The entry that kluges `project`. */
  function Encode(project: string): string
  {
    Kluge + project
  }

  /** The project a kluge entry names (`substring(KLUGE.length())`). */
  function Decode(entry: string): string
    requires |entry| >= |Kluge|
  {
    entry[|Kluge|..]
  }

  /** An entry encodes a project exactly when it is a kluge entry that decodes to that project. */
  lemma EncodedIs(project: string, entry: string)
    ensures Encode(project) == entry <==> IsKluge(entry) && Decode(entry) == project
  {
    if Encode(project) == entry {
      assert entry[..|Kluge|] == Kluge && entry[|Kluge|..] == project;
    }
    if IsKluge(entry) && Decode(entry) == project {
      assert entry == entry[..|Kluge|] + entry[|Kluge|..];
    }
  }

  /** Decoding undoes encoding, and every encoded project is a kluge entry. */
  lemma KlugeRoundTrip(project: string)
    ensures IsKluge(Encode(project)) && Decode(Encode(project)) == project
  {
    EncodedIs(project, Encode(project));
  }

  /** The entries that are patterns rather than kluges. */
  function FocusPatterns(entries: seq<string>): (r: seq<string>)
    ensures forall e :: e in r <==> e in entries && !IsKluge(e)
  {
    Filter(entries, e => !IsKluge(e))
  }

  /** The kluge entries themselves. */
  function KlugeEntries(entries: seq<string>): (r: seq<string>)
    ensures forall e :: e in r <==> e in entries && IsKluge(e)
  {
    Filter(entries, IsKluge)
  }

  /** Each entry is a focus pattern or a kluge entry and never both: the two lists share out the entries. */
  lemma {:induction false} EntriesPartition(entries: seq<string>)
    ensures multiset(FocusPatterns(entries)) + multiset(KlugeEntries(entries)) == multiset(entries)
  {
    if entries != [] {
      EntriesPartition(entries[1..]);
      assert entries == [entries[0]] + entries[1..];
    }
  }

  /** Whether an entry kluges a project the catalog has. */
  function KlugesKnown(hasProject: string -> bool): string -> bool
  {
    e => IsKluge(e) && hasProject(Decode(e))
  }

  /** The projects the kluge entries name, in list order, keeping only those the catalog has. */
  function KlugeProjects(entries: seq<string>, hasProject: string -> bool): (r: seq<string>)
    ensures forall p :: p in r <==> Encode(p) in entries && hasProject(p)
  {
    if entries == [] then []
    else
      var e := entries[0];
      var rest := KlugeProjects(entries[1..], hasProject);
      assert forall q :: q in entries <==> q == e || q in entries[1..];
      assert forall p :: Encode(p) == e <==> IsKluge(e) && Decode(e) == p by {
        forall p {
          EncodedIs(p, e);
        }
      }
      if IsKluge(e) && hasProject(Decode(e)) then [Decode(e)] + rest else rest
  }

  /**
   * The kluge projects come in the order of their entries: encoded again, they are the entries
   * that kluge a project the catalog has, at the positions those entries hold in the list.
   */
  lemma KlugeProjectsInOrder(entries: seq<string>, hasProject: string -> bool)
    ensures PicksAt(Map(KlugeProjects(entries, hasProject), Encode), entries, Kept(entries, KlugesKnown(hasProject)))
  {
    KlugeProjectsEncoded(entries, hasProject);
    FilterKept(entries, KlugesKnown(hasProject));
  }

  lemma {:induction false} KlugeProjectsEncoded(entries: seq<string>, hasProject: string -> bool)
    ensures Map(KlugeProjects(entries, hasProject), Encode) == Filter(entries, KlugesKnown(hasProject))
  {
    if entries != [] {
      var e := entries[0];
      var rest := KlugeProjects(entries[1..], hasProject);
      KlugeProjectsEncoded(entries[1..], hasProject);
      var kept := KlugesKnown(hasProject)(e);
      assert kept == (IsKluge(e) && hasProject(Decode(e)));
      assert Filter(entries, KlugesKnown(hasProject)) == (if kept then [e] else []) + Filter(entries[1..], KlugesKnown(hasProject));
      assert KlugeProjects(entries, hasProject) == (if kept then [Decode(e)] else []) + rest;
      if kept {
        EncodedIs(Decode(e), e);
        assert Map([Decode(e)] + rest, Encode) == [e] + Map(rest, Encode);
      }
    }
  }

  // ---------------------------------------------------------------------------
  // Editing the list
  // ---------------------------------------------------------------------------

  /** `removeAll(patterns)`: every occurrence of every given pattern dropped, the rest in order. */
  function Without(entries: seq<string>, patterns: seq<string>): (r: seq<string>)
    ensures forall e :: e in r <==> e in entries && e !in patterns
  {
    Filter(entries, Outside(patterns))
  }

  /** The entries that stay keep their order: they are those outside `patterns`, at their old positions. */
  lemma WithoutInOrder(entries: seq<string>, patterns: seq<string>)
    ensures PicksAt(Without(entries, patterns), entries, Kept(entries, Outside(patterns)))
  {
    FilterKept(entries, Outside(patterns));
  }

  /** Removal works entry by entry, so the entries that stay keep their order. */
  lemma WithoutDistributes(a: seq<string>, b: seq<string>, patterns: seq<string>)
    ensures Without(a + b, patterns) == Without(a, patterns) + Without(b, patterns)
  {
    FilterAppend(a, b, Outside(patterns));
  }

  /** A list none of whose entries are given loses nothing. */
  lemma {:induction false} WithoutNothing(entries: seq<string>, patterns: seq<string>)
    requires forall e :: e in entries ==> e !in patterns
    ensures Without(entries, patterns) == entries
  {
    if entries != [] {
      WithoutNothing(entries[1..], patterns);
      assert entries == [entries[0]] + entries[1..];
    }
  }

  /** A list loses all of its entries when each is given. */
  lemma {:induction false} WithoutEverything(entries: seq<string>, patterns: seq<string>)
    requires forall e :: e in entries ==> e in patterns
    ensures Without(entries, patterns) == []
  {
    if entries != [] {
      WithoutEverything(entries[1..], patterns);
    }
  }

  /** `remove` undoes `add` when the list held none of the added patterns. */
  lemma RemoveUndoesAdd(entries: seq<string>, patterns: seq<string>)
    requires forall e :: e in entries ==> e !in patterns
    ensures Without(entries + patterns, patterns) == entries
  {
    WithoutDistributes(entries, patterns, patterns);
    WithoutNothing(entries, patterns);
    WithoutEverything(patterns, patterns);
  }

  /** `List.remove(Object)`: the first occurrence of `x` dropped, or the list unchanged without one. */
  function RemoveFirst(entries: seq<string>, x: string): (r: seq<string>)
    ensures x !in entries ==> r == entries
    ensures x in entries ==> |r| == |entries| - 1 && multiset(r) + multiset{x} == multiset(entries)
    ensures x in entries ==> var i := IndexOf(entries, x);
      r[..i] == entries[..i] && r[i..] == entries[i + 1..]
  {
    var i := IndexOf(entries, x);
    if i == |entries| then entries
    else
      assert entries == entries[..i] + [x] + entries[i + 1..];
      entries[..i] + entries[i + 1..]
  }

  /** `unkluge` undoes `kluge` when the project was not kluged before. */
  lemma UnklugeUndoesKluge(entries: seq<string>, project: string)
    requires Encode(project) !in entries
    ensures RemoveFirst(entries + [Encode(project)], Encode(project)) == entries
  {
    IndexOfAfterPrefix(entries, Encode(project), []);
    assert entries + [Encode(project)] == entries + [Encode(project)] + [];
  }

  // ---------------------------------------------------------------------------
  // Summaries of a change
  // ---------------------------------------------------------------------------

  /** One line of `Focused projects:`: `+` added, `-` removed, ` ` unchanged. */
  datatype Change = Change(marker: char, project: string)

  /** The lines and the three counts `summariseChanges` prints. */
  datatype Summary = Summary(changes: seq<Change>, added: nat, removed: nat, same: nat)

  /** A strictly sorted list holds as many elements as its set. */
  lemma {:induction false} SortedCard(xs: seq<string>)
    requires StrictlySorted(xs)
    ensures |Elems(xs)| == |xs|
  {
    if xs != [] {
      Ex.HeadBelow(xs);
      CompareToZero(xs[0], xs[0]);
      SortedCard(xs[1..]);
      assert Elems(xs) == {xs[0]} + Elems(xs[1..]);
    }
  }

  /** Added, removed and unchanged share out the union. */
  lemma PartitionCard(before: set<string>, after: set<string>)
    ensures |before + after| == |after - before| + |before - after| + |before * after|
  {
    assert before + after == (after - before) + before;
    assert (after - before) * before == {};
    assert before == (before - after) + (before * after);
    assert (before - after) * (before * after) == {};
  }

  /** The size of a sorted set is the size of the set of what it holds. */
  lemma SortedSize(xs: seq<string>, s: set<string>)
    requires StrictlySorted(xs) && forall x :: x in xs <==> x in s
    ensures |xs| == |s|
  {
    SortedCard(xs);
    assert Elems(xs) == s;
  }

  /** `summariseChanges` on the two formatted lists, each taken as a set. */
  function Summarise(before: seq<string>, after: seq<string>): Summary
  {
    var union := SortDistinct(before + after);
    var intersection := SortDistinct(Filter(before, p => p in after));
    var added := SortDistinct(Filter(after, p => p !in before));
    var deleted := SortDistinct(Filter(before, p => p !in after));
    Summary(Marked(union, added, deleted), |added|, |deleted|, |intersection|)
  }

  /** One line per project, each marked by the list it is in. */
  function Marked(projects: seq<string>, added: seq<string>, deleted: seq<string>): (r: seq<Change>)
    ensures |r| == |projects|
    ensures forall i :: 0 <= i < |r| ==> r[i].project == projects[i]
    ensures forall i :: 0 <= i < |r| ==> r[i].marker == (if projects[i] in added then '+' else if projects[i] in deleted then '-' else ' ')
  {
    seq(|projects|, i requires 0 <= i < |projects| =>
      Change(if projects[i] in added then '+' else if projects[i] in deleted then '-' else ' ', projects[i]))
  }

  /** One line per project of either list, in sorted order. */
  lemma SummaryLines(before: seq<string>, after: seq<string>)
    ensures var s := Summarise(before, after);
      forall i, j :: 0 <= i < j < |s.changes| ==> CompareTo(s.changes[i].project, s.changes[j].project) < 0
    ensures var s := Summarise(before, after);
      forall p :: (p in before || p in after) <==> exists i :: 0 <= i < |s.changes| && s.changes[i].project == p
  {
    var union := SortDistinct(before + after);
    var changes := Summarise(before, after).changes;
    forall p | p in before || p in after ensures exists i :: 0 <= i < |changes| && changes[i].project == p {
      assert p in before + after;
      var i :| 0 <= i < |union| && union[i] == p;
    }
    forall i | 0 <= i < |changes| ensures changes[i].project in before || changes[i].project in after {
      assert union[i] in union;
    }
  }

  /** Each line is marked `+` when only the new list holds it, `-` when only the old one does, and blank when both do. */
  lemma SummaryMarkers(before: seq<string>, after: seq<string>)
    ensures var s := Summarise(before, after);
      forall i :: 0 <= i < |s.changes| ==>
        && (s.changes[i].marker == '+' <==> s.changes[i].project !in before)
        && (s.changes[i].marker == '-' <==> s.changes[i].project !in after)
        && (s.changes[i].marker == ' ' <==> s.changes[i].project in before && s.changes[i].project in after)
  {
    var union := SortDistinct(before + after);
    var added := SortDistinct(Filter(after, p => p !in before));
    var deleted := SortDistinct(Filter(before, p => p !in after));
    var changes := Summarise(before, after).changes;
    forall i | 0 <= i < |changes|
      ensures && (changes[i].marker == '+' <==> changes[i].project !in before)
              && (changes[i].marker == '-' <==> changes[i].project !in after)
              && (changes[i].marker == ' ' <==> changes[i].project in before && changes[i].project in after)
    {
      var p := union[i];
      assert p in union;
      assert p in before || p in after;
      assert changes[i] == Change(if p in added then '+' else if p in deleted then '-' else ' ', p);
    }
  }

  /** The counts are the sizes of the two differences and of the intersection, and they share out the lines. */
  lemma SummaryCounts(before: seq<string>, after: seq<string>)
    ensures var s := Summarise(before, after);
      && s.added == |Elems(after) - Elems(before)|
      && s.removed == |Elems(before) - Elems(after)|
      && s.same == |Elems(before) * Elems(after)|
      && s.added + s.removed + s.same == |s.changes|
  {
    SortedSize(SortDistinct(before + after), Elems(before) + Elems(after));
    SortedSize(SortDistinct(Filter(before, p => p in after)), Elems(before) * Elems(after));
    SortedSize(SortDistinct(Filter(after, p => p !in before)), Elems(after) - Elems(before));
    SortedSize(SortDistinct(Filter(before, p => p !in after)), Elems(before) - Elems(after));
    PartitionCard(Elems(before), Elems(after));
  }

  /** Added and removed projects are the two set differences, so swapping the sides swaps the counts. */
  lemma SummariseSwapped(before: seq<string>, after: seq<string>)
    ensures Summarise(after, before).added == Summarise(before, after).removed
    ensures Summarise(after, before).removed == Summarise(before, after).added
    ensures Summarise(after, before).same == Summarise(before, after).same
  {
    SummaryCounts(before, after);
    SummaryCounts(after, before);
    assert Elems(after) * Elems(before) == Elems(before) * Elems(after);
  }

  /** Equal lists change nothing. */
  lemma SummariseSame(list: seq<string>)
    ensures Summarise(list, list).added == 0 && Summarise(list, list).removed == 0
    ensures forall i :: 0 <= i < |Summarise(list, list).changes| ==> Summarise(list, list).changes[i].marker == ' '
  {
    SummaryCounts(list, list);
    SummaryMarkers(list, list);
    assert Elems(list) - Elems(list) == {};
  }

  // ---------------------------------------------------------------------------
  // The queries, once the catalog exists
  // ---------------------------------------------------------------------------

  /** How `formatProjects` shows a kluge. */
  function Labelled(project: string): string
  {
    project + " (kluge)"
  }

  /** `formatProjects`: the kluged projects, labelled, then the projects the focus patterns select. */
  function Formatted(c: C.BndCatalog, glob: C.Glob, hasProject: string -> bool, entries: seq<string>): (r: Result<seq<string>, C.CatalogError>)
    reads c
    requires c.Valid()
    ensures r.Ok? <==> Ex.Matching(c, FocusPatterns(entries), glob).Ok?
    ensures r.Err? ==> r.error == Ex.Matching(c, FocusPatterns(entries), glob).error
    ensures r.Ok? ==> forall x :: x in r.value <==>
      || (exists p :: Encode(p) in entries && hasProject(p) && x == Labelled(p))
      || x in Ex.Matching(c, FocusPatterns(entries), glob).value
    ensures r.Ok? ==> var kluges := KlugeProjects(entries, hasProject);
      && |kluges| <= |r.value|
      && (forall k :: 0 <= k < |kluges| ==> r.value[k] == Labelled(kluges[k]))
      && r.value[|kluges|..] == Ex.Matching(c, FocusPatterns(entries), glob).value
      && StrictlySorted(r.value[|kluges|..])
  {
    var kluges := KlugeProjects(entries, hasProject);
    match Ex.Matching(c, FocusPatterns(entries), glob)
    case Err(e) => Err(e)
    case Ok(focuses) =>
      var labelled := Map(kluges, Labelled);
      assert forall x :: x in labelled <==> exists p :: p in kluges && x == Labelled(p) by {
        forall x | x in labelled ensures exists p :: p in kluges && x == Labelled(p) {
          var i :| 0 <= i < |labelled| && labelled[i] == x;
          assert kluges[i] in kluges;
        }
        forall p | p in kluges ensures Labelled(p) in labelled {
          var i :| 0 <= i < |kluges| && kluges[i] == p;
          assert labelled[i] == Labelled(p);
        }
      }
      assert (labelled + focuses)[|kluges|..] == focuses;
      Ok(labelled + focuses)
  }

  /** The summary of going from one list to another, or the error formatting either raises. */
  function ChangesOf(c: C.BndCatalog, glob: C.Glob, hasProject: string -> bool, before: seq<string>, after: seq<string>): (r: Result<Summary, C.CatalogError>)
    reads c
    requires c.Valid()
    ensures r.Ok? <==> Formatted(c, glob, hasProject, before).Ok? && Formatted(c, glob, hasProject, after).Ok?
    ensures r.Ok? ==> r.value == Summarise(Formatted(c, glob, hasProject, before).value, Formatted(c, glob, hasProject, after).value)
  {
    match Formatted(c, glob, hasProject, before)
    case Err(e) => Err(e)
    case Ok(b) =>
      match Formatted(c, glob, hasProject, after)
      case Err(e) => Err(e)
      case Ok(a) => Ok(Summarise(b, a))
  }

  /** The kluge closure first, then whatever of the main list it does not hold. */
  function Prioritise(first: seq<string>, main: seq<string>): (r: seq<string>)
    ensures |first| <= |r| && r[..|first|] == first
    ensures forall x :: x in r[|first|..] <==> x in main && x !in first
    ensures forall x :: x in r <==> x in first || x in main
    ensures Distinct(first) && Distinct(main) ==> Distinct(r)
    ensures PicksAt(r[|first|..], main, Kept(main, Outside(first)))
  {
    var rest := Filter(main, Outside(first));
    FilterKept(main, Outside(first));
    var r := first + rest;
    assert r[..|first|] == first && r[|first|..] == rest;
    assert Distinct(first) && Distinct(main) ==> Distinct(r) by {
      if Distinct(first) && Distinct(main) {
        FilterDistinct(main, Outside(first));
        forall i, j | 0 <= i < j < |r| ensures r[i] != r[j] {
          if i < |first| && j >= |first| {
            assert r[j] in rest;
          }
        }
      }
    }
    r
  }

  /** The focus projects and the folder names of the projects that use them directly. */
  function MainNames(c: C.BndCatalog, glob: C.Glob, entries: seq<string>): (r: Result<seq<string>, C.CatalogError>)
    reads c
    requires c.Valid()
    ensures var m := Ex.Matching(c, FocusPatterns(entries), glob);
      r.Ok? <==> m.Ok? && c.DependentProjectPaths(m.value).Ok?
    ensures var m := Ex.Matching(c, FocusPatterns(entries), glob);
      r.Ok? ==> forall x :: x in r.value <==>
        x in m.value || exists p :: p in c.DependentProjectPaths(m.value).value && B.FileName(p) == x
  {
    match Ex.Matching(c, FocusPatterns(entries), glob)
    case Err(e) => Err(e)
    case Ok(focus) =>
      match c.DependentProjectPaths(focus)
      case Err(e) => Err(e)
      case Ok(users) =>
        var names := Map(users, B.FileName);
        assert forall x :: x in names <==> exists p :: p in users && B.FileName(p) == x by {
          forall x | x in names ensures exists p :: p in users && B.FileName(p) == x {
            var i :| 0 <= i < |names| && names[i] == x;
            assert users[i] in users;
          }
          forall p | p in users ensures B.FileName(p) in names {
            var i :| 0 <= i < |users| && users[i] == p;
            assert names[i] == B.FileName(p);
          }
        }
        Ok(focus + names)
  }

  /**
   * `getAllRequiredProjects`: the required folders of the kluged projects, then those of the
   * focus projects and their users that the kluges do not already need.
   */
  function RequiredOf(c: C.BndCatalog, glob: C.Glob, hasProject: string -> bool, entries: seq<string>): Result<seq<string>, C.CatalogError>
    reads c
    requires c.Valid()
  {
    match MainNames(c, glob, entries)
    case Err(e) => Err(e)
    case Ok(names) =>
      match c.RequiredProjectPaths(names, false)
      case Err(e) => Err(e)
      case Ok(main) =>
        match c.RequiredProjectPaths(KlugeProjects(entries, hasProject), false)
        case Err(e) => Err(e)
        case Ok(kluges) => Ok(Prioritise(kluges, main))
  }

  /**
   * The required list succeeds when its three queries do; the kluge closure comes first, and the
   * rest holds exactly the main list's folders that the kluge closure lacks.
   */
  lemma RequiredOrder(c: C.BndCatalog, glob: C.Glob, hasProject: string -> bool, entries: seq<string>)
    requires c.Valid()
    ensures var r := RequiredOf(c, glob, hasProject, entries);
      r.Ok? <==> (&& MainNames(c, glob, entries).Ok?
                  && c.RequiredProjectPaths(MainNames(c, glob, entries).value, false).Ok?
                  && c.RequiredProjectPaths(KlugeProjects(entries, hasProject), false).Ok?)
    ensures var r := RequiredOf(c, glob, hasProject, entries);
      r.Ok? ==>
        var kluges := c.RequiredProjectPaths(KlugeProjects(entries, hasProject), false).value;
        var main := c.RequiredProjectPaths(MainNames(c, glob, entries).value, false).value;
        && r.value[..|kluges|] == kluges
        && (forall x :: x in r.value[|kluges|..] <==> x in main && x !in kluges)
        && (forall x :: x in r.value <==> x in kluges || x in main)
        && PicksAt(r.value[|kluges|..], main, Kept(main, Outside(kluges)))
  {
  }

  /** The folder names of some paths. */
  function FolderNames(paths: seq<string>): (r: seq<string>)
    ensures forall x :: x in r <==> exists p :: p in paths && B.FileName(p) == x
  {
    var r := Map(paths, B.FileName);
    assert forall x :: x in r <==> exists p :: p in paths && B.FileName(p) == x by {
      forall x | x in r ensures exists p :: p in paths && B.FileName(p) == x {
        var i :| 0 <= i < |r| && r[i] == x;
        assert paths[i] in paths;
      }
      forall p | p in paths ensures B.FileName(p) in r {
        var i :| 0 <= i < |paths| && paths[i] == p;
        assert r[i] == B.FileName(p);
      }
    }
    r
  }

  /**
   * `getLeafDependencies`: the leaves among the kluged projects; failing those, the leaves among
   * all required projects; failing those too, nothing to import.
   */
  function LeavesOf(c: C.BndCatalog, glob: C.Glob, hasProject: string -> bool,
                    leafProjects: (seq<string>, seq<string>) -> seq<string>, known: seq<string>,
                    entries: seq<string>): (r: Result<seq<string>, Ex.Failure>)
    reads c
    requires c.Valid()
    ensures r.Ok? ==> r.value != []
    ensures var first := leafProjects(KlugeProjects(entries, hasProject), known);
      first != [] ==> r == Ok(first)
    ensures var first := leafProjects(KlugeProjects(entries, hasProject), known);
      var all := RequiredOf(c, glob, hasProject, entries);
      first == [] ==>
        && (all.Err? ==> r == Err(Ex.Query(all.error)))
        && (all.Ok? ==> var second := leafProjects(FolderNames(all.value), known);
              r == if second == [] then Err(Ex.NothingToImport) else Ok(second))
  {
    var first := leafProjects(KlugeProjects(entries, hasProject), known);
    if first != [] then Ok(first)
    else
      match RequiredOf(c, glob, hasProject, entries)
      case Err(e) => Err(Ex.Query(e))
      case Ok(required) =>
        var second := leafProjects(FolderNames(required), known);
        if second == [] then Err(Ex.NothingToImport) else Ok(second)
  }

  /** `orphans`: the Eclipse projects, sorted, that no required folder is named after. */
  function OrphansOf(known: seq<string>, required: seq<string>): (r: seq<string>)
    ensures StrictlySorted(r)
    ensures forall x :: x in r <==> x in known && forall p :: p in required ==> B.FileName(p) != x
  {
    var names := FolderNames(required);
    SortDistinct(Filter(known, x => x !in names))
  }

  /** `focus deps`: the required folders Eclipse does not have yet, in required order. */
  function MissingOf(known: seq<string>, required: seq<string>): (r: seq<string>)
    ensures |r| <= |required|
    ensures forall p :: p in r <==> p in required && B.FileName(p) !in known
    ensures PicksAt(r, required, Kept(required, Ex.ShowsPath(known, false)))
  {
    FilterKept(required, Ex.ShowsPath(known, false));
    assert forall p :: Ex.ShowsPath(known, false)(p) == (B.FileName(p) !in known);
    Filter(required, Ex.ShowsPath(known, false))
  }

  /** What Eclipse still misses and what it has to spare never share a folder name. */
  lemma MissingAndOrphansApart(known: seq<string>, required: seq<string>, p: string)
    requires p in MissingOf(known, required)
    ensures B.FileName(p) !in OrphansOf(known, required)
  {
  }

  // ---------------------------------------------------------------------------
  // The `focus` command
  // ---------------------------------------------------------------------------

  /** The `focus` subcommands over one explorer; `entries` is the content of the focus file. */
  class Focus {
    const px: Ex.ProjectExplorer
    var entries: seq<string>

    ghost predicate Valid()
      reads this, px, px.catalog
    {
      px.Valid()
    }

    constructor (px: Ex.ProjectExplorer, entries: seq<string>)
      requires px.Valid()
      ensures this.px == px && this.entries == entries && Valid()
    {
      this.px := px;
      this.entries := entries;
    }

    /** `formatProjects`: the catalog is fetched first, for `hasProject`. */
    method FormatProjects(list: seq<string>) returns (r: Result<seq<string>, Ex.Failure>)
      requires Valid()
      modifies px
      ensures Valid() && px.Memoised()
      ensures px.catalog != null <==> px.workspace.Some?
      ensures px.catalog == null ==> r == Err(Ex.NoWorkspace(px.workspacePath))
      ensures px.catalog != null ==> r == Ex.Lift(Formatted(px.catalog, px.glob, px.hasProject, list))
    {
      var c := px.GetBndCatalog();
      if c.Err? {
        return Err(c.error);
      }
      var focuses := px.GetMatchingProjects(FocusPatterns(list));
      r := if focuses.Err? then Err(focuses.error) else Ok(Map(KlugeProjects(list, px.hasProject), Labelled) + focuses.value);
    }

    /** `summariseChanges`: both lists formatted, then compared. */
    method SummariseChanges(before: seq<string>, after: seq<string>) returns (r: Result<Summary, Ex.Failure>)
      requires Valid()
      modifies px
      ensures Valid() && px.Memoised()
      ensures px.catalog != null <==> px.workspace.Some?
      ensures px.catalog == null ==> r == Err(Ex.NoWorkspace(px.workspacePath))
      ensures px.catalog != null ==> r == Ex.Lift(ChangesOf(px.catalog, px.glob, px.hasProject, before, after))
    {
      var b := FormatProjects(before);
      if b.Err? {
        return Err(b.error);
      }
      var a := FormatProjects(after);
      if a.Err? {
        return Err(a.error);
      }
      return Ok(Summarise(b.value, a.value));
    }

    /** `add`: the patterns appended, the old entries untouched. */
    method Add(patterns: seq<string>) returns (r: Result<Summary, Ex.Failure>)
      requires Valid()
      modifies this, px
      ensures Valid() && px.Memoised()
      ensures entries == old(entries) + patterns
      ensures px.catalog != null <==> px.workspace.Some?
      ensures px.catalog == null ==> r == Err(Ex.NoWorkspace(px.workspacePath))
      ensures px.catalog != null ==> r == Ex.Lift(ChangesOf(px.catalog, px.glob, px.hasProject, old(entries), entries))
    {
      var before := entries;
      entries := before + patterns;
      r := SummariseChanges(before, entries);
    }

    /** `remove`: every occurrence of each pattern dropped. */
    method Remove(patterns: seq<string>) returns (r: Result<Summary, Ex.Failure>)
      requires Valid()
      modifies this, px
      ensures Valid() && px.Memoised()
      ensures entries == Without(old(entries), patterns)
      ensures px.catalog != null <==> px.workspace.Some?
      ensures px.catalog == null ==> r == Err(Ex.NoWorkspace(px.workspacePath))
      ensures px.catalog != null ==> r == Ex.Lift(ChangesOf(px.catalog, px.glob, px.hasProject, old(entries), entries))
    {
      var before := entries;
      entries := Without(before, patterns);
      r := SummariseChanges(before, entries);
    }

    /** `kluge`: a project the catalog has is appended as a kluge entry. */
    method Kluge(project: string) returns (r: Result<Summary, Ex.Failure>)
      requires Valid()
      modifies this, px
      ensures Valid() && px.Memoised()
      ensures px.catalog != null <==> px.workspace.Some?
      ensures px.catalog == null ==> r == Err(Ex.NoWorkspace(px.workspacePath)) && entries == old(entries)
      ensures px.catalog != null && !px.hasProject(project) ==> r == Err(Ex.UnknownProject(project)) && entries == old(entries)
      ensures px.catalog != null && px.hasProject(project) ==>
        && entries == old(entries) + [Encode(project)]
        && r == Ex.Lift(ChangesOf(px.catalog, px.glob, px.hasProject, old(entries), entries))
    {
      var c := px.GetBndCatalog();
      if c.Err? {
        return Err(c.error);
      }
      if !px.hasProject(project) {
        return Err(Ex.UnknownProject(project));
      }
      var before := entries;
      entries := before + [Encode(project)];
      r := SummariseChanges(before, entries);
    }

    /** `unkluge`: the first kluge entry of the project removed; a project not kluged is an error. */
    method Unkluge(project: string) returns (r: Result<Summary, Ex.Failure>)
      requires Valid()
      modifies this, px
      ensures Valid() && px.Memoised()
      ensures Encode(project) !in old(entries) ==> r == Err(Ex.NoSuchKluge(project)) && entries == old(entries) && px.catalog == old(px.catalog)
      ensures Encode(project) in old(entries) ==>
        && entries == RemoveFirst(old(entries), Encode(project))
        && (px.catalog != null <==> px.workspace.Some?)
        && (px.catalog == null ==> r == Err(Ex.NoWorkspace(px.workspacePath)))
        && (px.catalog != null ==> r == Ex.Lift(ChangesOf(px.catalog, px.glob, px.hasProject, old(entries), entries)))
    {
      if Encode(project) !in entries {
        return Err(Ex.NoSuchKluge(project));
      }
      var before := entries;
      entries := RemoveFirst(before, Encode(project));
      r := SummariseChanges(before, entries);
    }

    /** `clear`: an empty focus list. */
    method Clear()
      modifies this
      ensures entries == []
    {
      entries := [];
    }

    /** `list`: the formatted focus list. */
    method List() returns (r: Result<seq<string>, Ex.Failure>)
      requires Valid()
      modifies px
      ensures Valid() && px.Memoised()
      ensures px.catalog != null <==> px.workspace.Some?
      ensures px.catalog == null ==> r == Err(Ex.NoWorkspace(px.workspacePath))
      ensures px.catalog != null ==> r == Ex.Lift(Formatted(px.catalog, px.glob, px.hasProject, entries))
    {
      r := FormatProjects(entries);
    }

    /** `getAllRequiredProjects`: the focus patterns are matched before the catalog is fetched. */
    method AllRequiredProjects() returns (r: Result<seq<string>, Ex.Failure>)
      requires Valid()
      modifies px
      ensures Valid() && px.Memoised()
      ensures px.catalog != null <==> px.workspace.Some?
      ensures px.catalog == null ==> r == Err(Ex.NoWorkspace(px.workspacePath))
      ensures px.catalog != null ==> r == Ex.Lift(RequiredOf(px.catalog, px.glob, px.hasProject, entries))
    {
      var focus := px.GetMatchingProjects(FocusPatterns(entries));
      if focus.Err? {
        return Err(focus.error);
      }
      var c := px.GetBndCatalog();
      if c.Err? {
        return Err(c.error);
      }
      r := Ex.Lift(RequiredOf(c.value, px.glob, px.hasProject, entries));
    }

    /** `getLeafDependencies`. */
    method LeafDependencies() returns (r: Result<seq<string>, Ex.Failure>)
      requires Valid()
      modifies px
      ensures Valid() && px.Memoised()
      ensures px.catalog != null <==> px.workspace.Some?
      ensures px.catalog == null ==> r == Err(Ex.NoWorkspace(px.workspacePath))
      ensures px.catalog != null ==> r == LeavesOf(px.catalog, px.glob, px.hasProject, px.leafProjects, px.known, entries)
    {
      var c := px.GetBndCatalog();
      if c.Err? {
        return Err(c.error);
      }
      var first := px.leafProjects(KlugeProjects(entries, px.hasProject), px.known);
      if first != [] {
        return Ok(first);
      }
      var required := AllRequiredProjects();
      if required.Err? {
        return Err(required.error);
      }
      var second := px.leafProjects(FolderNames(required.value), px.known);
      if second == [] {
        return Err(Ex.NothingToImport);
      }
      return Ok(second);
    }

    /** `next`: the first leaf dependency. */
    method Next() returns (r: Result<string, Ex.Failure>)
      requires Valid()
      modifies px
      ensures Valid() && px.Memoised()
      ensures px.catalog != null <==> px.workspace.Some?
      ensures px.catalog == null ==> r == Err(Ex.NoWorkspace(px.workspacePath))
      ensures px.catalog != null ==>
        var leaves := LeavesOf(px.catalog, px.glob, px.hasProject, px.leafProjects, px.known, entries);
        r == if leaves.Ok? then Ok(leaves.value[0]) else Err(leaves.error)
    {
      var leaves := LeafDependencies();
      if leaves.Err? {
        return Err(leaves.error);
      }
      return Ok(leaves.value[0]);
    }

    /** `orphans`. */
    method Orphans() returns (r: Result<seq<string>, Ex.Failure>)
      requires Valid()
      modifies px
      ensures Valid() && px.Memoised()
      ensures px.catalog != null <==> px.workspace.Some?
      ensures px.catalog == null ==> r == Err(Ex.NoWorkspace(px.workspacePath))
      ensures px.catalog != null ==>
        var required := RequiredOf(px.catalog, px.glob, px.hasProject, entries);
        r == if required.Ok? then Ok(OrphansOf(px.known, required.value)) else Err(Ex.Query(required.error))
    {
      var required := AllRequiredProjects();
      if required.Err? {
        return Err(required.error);
      }
      return Ok(OrphansOf(px.known, required.value));
    }

    /** `focus deps`: the missing folders; `--count` prints the length of this list. */
    method Deps() returns (r: Result<seq<string>, Ex.Failure>)
      requires Valid()
      modifies px
      ensures Valid() && px.Memoised()
      ensures px.catalog != null <==> px.workspace.Some?
      ensures px.catalog == null ==> r == Err(Ex.NoWorkspace(px.workspacePath))
      ensures px.catalog != null ==>
        var required := RequiredOf(px.catalog, px.glob, px.hasProject, entries);
        r == if required.Ok? then Ok(MissingOf(px.known, required.value)) else Err(Ex.Query(required.error))
    {
      var required := AllRequiredProjects();
      if required.Err? {
        return Err(required.error);
      }
      return Ok(MissingOf(px.known, required.value));
    }
  }
}
