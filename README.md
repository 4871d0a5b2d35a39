# project-explorer, modelled in Dafny

`project-explorer` (`px`) answers questions about the projects of a bnd workspace and about which of them an
Eclipse workspace already holds: which projects a project needs, in dependency order (`deps`); which projects the
Eclipse projects need but Eclipse lacks (`gaps`); which Eclipse projects nothing else needs (`roots`); which
projects a glob pattern list selects (`list`); and which projects use a project directly (`uses`). A *focus list*
names the projects a developer wants to edit. Each entry is a pattern, or a `kluge:`-prefixed project to put
first. The `focus` commands edit the list, summarise the change, and work out what to import next.

The repository holds three generations of the dependency resolver. All three are modelled:

- **`pdeps`** is the current one. It has a catalog of parsed projects (`BndProject`), a name index, a path index,
  a dependency digraph and graph queries (`BndCatalog`). The command layer (`ProjectExplorer`) and the focus
  list (`Focus`) sit on top of it.
- **`bnddeps`** creates projects lazily by name through a pre-canonical map. Each project is *cooked* once,
  which resolves its `-buildpath` then `-testpath` entries. Cooked projects are remembered in a canonical
  map. A depth-first post-order lists a project's transitive dependencies. There are two variants: a static
  one (`Project`) and a catalog-owned one (`Catalog`).
- **`oldeps`** is the oldest. It reads `-buildpath` only, into a one-shot `preDependencies` list that is
  nulled once cooked.

## How the model is organised

| module (file) | models |
|---|---|
| `Wrappers`, `Seqs` (`wrappers.dfy`, `seqs.dfy`) | `Option`/`Result`, and sequence helpers (filter, map, index, distinctness) |
| `JavaStrings` (`java_strings.dfy`) | the Java library semantics the code relies on: `String.split(",\\s*")` with its dropped trailing fields, `replaceFirst(";.*", "")` where `.` stops at a line terminator, `trim`, `compareTo`, a stable `sorted`, `sorted().distinct()` |
| `BndProjects` (`bnd_project.dfy`) | `pdeps/BndProject.java`: the folder name, the layered descriptor, the symbolic name and the dependency list |
| `Digraphs` (`digraphs.dfy`) | the breadth-first closure of `getProjectAndDependencySubgraph`, and the topological order of the reversed subgraph with name tie-break, written as Kahn's algorithm |
| `BndCatalogs` (`bnd_catalog.dfy`) | `pdeps/BndCatalog.java` as a class with `projects`, `nameIndex`, `pathIndex` and `edges` fields; the constructor's three passes are methods, the closure is a `while` loop |
| `PostOrder` (`post_order.dfy`) | `dfs0`/`insertInto` into a `LinkedHashSet`: the recursive method and the function specifying it |
| `BndDepsCatalog` (`bnddeps_catalog.dfy`) | `bnddeps/Catalog.java`: an arena class whose `projects`, `dependencies`, `preCanon` and `canon` fields stand for the Java objects and maps (a project object is its index) |
| `BndDepsProject` (`bnddeps_project.dfy`) | `bnddeps/Project.java`, the static variant, on the same arena |
| `OldepsProject` (`oldeps_project.dfy`) | `oldeps/Project.java`, with `open` standing for a non-null `preDependencies` |
| `Explorer` (`explorer.dfy`) | `pdeps/ProjectExplorer.java`: the memoised catalog, `getMatchingProjects` (ordered include/exclude into a `TreeSet`), `EclipseOrdering`, and the `deps`/`gaps`/`roots`/`list`/`uses` commands |
| `FocusList` (`focus.dfy`) | `pdeps/Focus.java`: kluge encoding, list edits, change summaries, the required list with kluges first, leaf dependencies and orphans |

The model abstracts these as inputs:

- the filesystem: folder listings, and descriptor maps per folder;
- the focus file's lines: a field of the `Focus` object;
- the Eclipse project names;
- the glob matcher;
- `hasProject` and `getLeafProjects`.

Commands return what they would print, and failures are `Result` errors.

## Model

| member | source | states |
|---|---|---|
| `BndProjects.FileName` | src/main/java/io/openliberty/tools/pdeps/BndProject.java:26 | the name is the text after the last `/` of the folder path, and holds no `/` |
| `BndProjects.FileNameOfChild` | src/main/java/io/openliberty/tools/pdeps/BndProject.java:26 | the name of a workspace folder `ws/name` is `name` |
| `BndProjects.GetProperty` | src/main/java/io/openliberty/tools/pdeps/BndProject.java:57 | a present key gives its value, an absent one the default |
| `BndProjects.Layered` | src/main/java/io/openliberty/tools/pdeps/BndProject.java:39-54 | loading `bnd.overrides` after `bnd.bnd` gives the union of keys, with an overridden key taking the override's value |
| `BndProjects.OverridesWin` | src/main/java/io/openliberty/tools/pdeps/BndProject.java:43-49 | an override of a key wins; keys it does not name keep their `bnd.bnd` value |
| `BndProjects.PathProp` | src/main/java/io/openliberty/tools/pdeps/BndProject.java:56-61 | one entry per field of the `,\s*` split of the value (or of `""`), each stripped of its `;` clause |
| `BndProjects.PathPropAbsent` | src/main/java/io/openliberty/tools/pdeps/BndProject.java:57-59 | an absent path key contributes exactly one empty entry |
| `BndProjects.PathPropOfClauses` | src/main/java/io/openliberty/tools/pdeps/BndProject.java:58-60 | a header written as `name;attrs, name;attrs, …` reads back as exactly its names, in order |
| `BndProjects.SymbolicName` | src/main/java/io/openliberty/tools/pdeps/BndProject.java:28-32 | absent exactly when `Bundle-SymbolicName` is absent; otherwise trimmed (no blank at either end) |
| `BndProjects.SymbolicNameOfClause` | src/main/java/io/openliberty/tools/pdeps/BndProject.java:28-32 | `name;directives` yields `trim(name)`: directives never become part of the symbolic name |
| `BndProjects.Load` | src/main/java/io/openliberty/tools/pdeps/BndProject.java:24-37 | root kept, name from the folder, symbolic name and build-then-test dependencies from the layered descriptor |
| `BndProjects.LoadWithoutPaths` | src/main/java/io/openliberty/tools/pdeps/BndProject.java:33-35 | with neither path key the dependency list is `["", ""]` |
| `BndProjects.LoadDependencyOrder` | src/main/java/io/openliberty/tools/pdeps/BndProject.java:33-36 | the `-buildpath` names come first, in order, then the `-testpath` names |
| `JavaStrings.StripParamsSingleLine` | src/main/java/io/openliberty/tools/pdeps/BndProject.java:59 | on a single-line value, stripping keeps exactly the text before the first `;`, which is then `;`-free |
| `JavaStrings.StripParamsOfClause` | src/main/java/io/openliberty/tools/pdeps/BndProject.java:30 | `name;rest` strips to `name` |
| `JavaStrings.SplitJoin` | src/main/java/io/openliberty/tools/pdeps/BndProject.java:58 | splitting a `", "`-joined list of comma-free fields gives the list back |
| `JavaStrings.SplitEmpty` | src/main/java/io/openliberty/tools/pdeps/BndProject.java:57-58 | `"".split(…)` is `[""]` |
| `JavaStrings.SplitHasNoCommas` | src/main/java/io/openliberty/tools/pdeps/BndProject.java:58 | no field of a split holds a comma |
| `JavaStrings.Trim` | src/main/java/io/openliberty/tools/pdeps/BndProject.java:31 | no character at or below U+0020 at either end; an already trimmed string is unchanged |
| `JavaStrings.CompareToTotalOrder` | src/main/java/io/openliberty/tools/pdeps/BndCatalog.java:84 | `compareTo` is antisymmetric, transitive, and 0 only on equal strings |
| `JavaStrings.SortBy` | src/main/java/io/openliberty/tools/pdeps/ProjectExplorer.java:102 | `sorted(comparator)` is a permutation that is ascending under the comparator |
| `JavaStrings.DedupSorted` | src/main/java/io/openliberty/tools/pdeps/BndCatalog.java:85 | `distinct()` after `sorted()` keeps the same elements, strictly ascending |
| `JavaStrings.SortDistinct` | src/main/java/io/openliberty/tools/pdeps/BndCatalog.java:84-85 | `sorted().distinct()` has the same elements, strictly ascending |
| `BndCatalogs.MessageIdentifies` | src/main/java/io/openliberty/tools/pdeps/BndCatalog.java:101-107 | the texts of the two lookup errors tell the errors apart, each naming its pattern or name |
| `BndCatalogs.LoadDir` | src/main/java/io/openliberty/tools/pdeps/BndCatalog.java:56-60 | each listed project folder is loaded as a `BndProject` |
| `BndCatalogs.KeysOf` | src/main/java/io/openliberty/tools/pdeps/BndCatalog.java:65-68 | a project is indexed under its name, and under its symbolic name exactly when that differs |
| `BndCatalogs.NameIndexSnoc` | src/main/java/io/openliberty/tools/pdeps/BndCatalog.java:64-68 | indexing one more project puts its name, then its differing symbolic name |
| `BndCatalogs.NameIndexLastWins` | src/main/java/io/openliberty/tools/pdeps/BndCatalog.java:64-68 | a key is indexed iff some project claims it, and then maps to the last project that claims it |
| `BndCatalogs.EdgesOf` | src/main/java/io/openliberty/tools/pdeps/BndCatalog.java:74-78 | an edge `p → q` exists iff a dependency entry of `p` is indexed to `q` and `q ≠ p` |
| `BndCatalogs.EdgesOfNext` | src/main/java/io/openliberty/tools/pdeps/BndCatalog.java:75-78 | one more dependency entry adds at most its own edge |
| `BndCatalogs.EdgeSet` | src/main/java/io/openliberty/tools/pdeps/BndCatalog.java:74-78 | the edges of the first `n` projects are the union of their `EdgesOf` |
| `BndCatalogs.EdgeSetWithin` | src/main/java/io/openliberty/tools/pdeps/BndCatalog.java:74-78 | every edge joins two catalogued projects |
| `BndCatalogs.BndCatalog.constructor` | src/main/java/io/openliberty/tools/pdeps/BndCatalog.java:54-79 | the projects are the loaded folders, and the catalog invariant holds: name index as `NameIndex`, path index equal to it, edges as `EdgeSet` |
| `BndCatalogs.BndCatalog.IndexByName` | src/main/java/io/openliberty/tools/pdeps/BndCatalog.java:64-68 | the loop leaves `nameIndex == NameIndex(projects)`, and `pathIndex` keyed by exactly the projects' folder names, each key mapped to a project with that folder name |
| `BndCatalogs.BndCatalog.IndexByPath` | src/main/java/io/openliberty/tools/pdeps/BndCatalog.java:71 | every name-index entry is copied into the path index |
| `BndCatalogs.BndCatalog.AddEdges` | src/main/java/io/openliberty/tools/pdeps/BndCatalog.java:73-78 | the loop adds exactly `EdgeSet(projects, nameIndex, |projects|)` |
| `BndCatalogs.BndCatalog.MaybeFind` | src/main/java/io/openliberty/tools/pdeps/BndCatalog.java:111-113 | a project is found iff one claims the name, and it is the last claimant |
| `BndCatalogs.BndCatalog.Find` | src/main/java/io/openliberty/tools/pdeps/BndCatalog.java:105-109 | as `MaybeFind`, with an unknown name an error naming it |
| `BndCatalogs.BndCatalog.Seeds` | src/main/java/io/openliberty/tools/pdeps/BndCatalog.java:138-141 | the seeds are catalogued projects |
| `BndCatalogs.BndCatalog.SeedsFound` | src/main/java/io/openliberty/tools/pdeps/BndCatalog.java:138-141 | the seeds are exactly what the names find; unless missing names are ignored, the lookup fails iff a name is unknown, naming the first unknown one |
| `BndCatalogs.BndCatalog.ProjectAndDependencySubgraph` | src/main/java/io/openliberty/tools/pdeps/BndCatalog.java:136-155 | the breadth-first loop returns the closure of the seeds, or the lookup error |
| `Digraphs.Successors` | src/main/java/io/openliberty/tools/pdeps/BndCatalog.java:146-151 | the next frontier: exactly the targets of edges leaving the set |
| `Digraphs.ClosureFrom` | src/main/java/io/openliberty/tools/pdeps/BndCatalog.java:144-152 | the loop's result holds results and frontier and is closed under edges |
| `Digraphs.Closure` | src/main/java/io/openliberty/tools/pdeps/BndCatalog.java:138-152 | the closure holds the seeds and no edge leaves it |
| `Digraphs.ClosureFromLeast` | src/main/java/io/openliberty/tools/pdeps/BndCatalog.java:144-152 | the loop adds nothing that a closed superset of its state lacks |
| `Digraphs.ClosureLeast` | src/main/java/io/openliberty/tools/pdeps/BndCatalog.java:138-152 | the closure is the least closed superset of the seeds: it holds only reachable projects |
| `Digraphs.PrecedesTotal` | src/main/java/io/openliberty/tools/pdeps/BndCatalog.java:122 | the tie-break order (name, then identity) is total and asymmetric |
| `Digraphs.PrecedesTransitive` | src/main/java/io/openliberty/tools/pdeps/BndCatalog.java:122 | the tie-break order is transitive |
| `Digraphs.ArgMin` | src/main/java/io/openliberty/tools/pdeps/BndCatalog.java:122 | the chosen ready project precedes every other ready one |
| `Digraphs.ReadyList` | src/main/java/io/openliberty/tools/pdeps/BndCatalog.java:121-122 | the ready projects are exactly those with no remaining dependency |
| `Digraphs.Kahn` | src/main/java/io/openliberty/tools/pdeps/BndCatalog.java:121-123 | the emitted prefix only grows |
| `Digraphs.KahnStep` | src/main/java/io/openliberty/tools/pdeps/BndCatalog.java:121-123 | emitting the first ready project keeps the order duplicate-free, dependency-first and name-greedy |
| `Digraphs.KahnInvariant` | src/main/java/io/openliberty/tools/pdeps/BndCatalog.java:121-123 | Kahn's loop ends with a dependency-first, name-greedy permutation, or stops at a set that holds a cycle |
| `Digraphs.TopologicalOrderIsSorted` | src/main/java/io/openliberty/tools/pdeps/BndCatalog.java:119-124 | the order is a permutation of the subgraph, dependencies first, smallest ready name first; a failure leaves a cyclic rest |
| `Digraphs.TopologicalOrderNamed` | src/main/java/io/openliberty/tools/pdeps/BndCatalog.java:121-123 | the order only names vertices of the subgraph |
| `Digraphs.ReadyExists` | src/main/java/io/openliberty/tools/pdeps/BndCatalog.java:121-123 | without a cycle some remaining project is always ready |
| `Digraphs.KahnRankedOk` | src/main/java/io/openliberty/tools/pdeps/BndCatalog.java:121-123 | without a cycle Kahn's loop always completes |
| `Digraphs.TopologicalOrderOfAcyclic` | src/main/java/io/openliberty/tools/pdeps/BndCatalog.java:121-123 | on an acyclic graph the iterator never fails |
| `BndCatalogs.BndCatalog.RequiredProjects` | src/main/java/io/openliberty/tools/pdeps/BndCatalog.java:119-124 | the order names catalogued projects; a cycle error only arises after a successful lookup |
| `BndCatalogs.BndCatalog.RequiredProjectPaths` | src/main/java/io/openliberty/tools/pdeps/BndCatalog.java:115-124 | the folders of `RequiredProjects`, in the same order, with the same errors |
| `BndCatalogs.BndCatalog.RequiredProjectsSorted` | src/main/java/io/openliberty/tools/pdeps/BndCatalog.java:119-124 | every project of the closure once, dependencies before dependents, smallest ready name first |
| `BndCatalogs.BndCatalog.RequiredProjectsOfAcyclic` | src/main/java/io/openliberty/tools/pdeps/BndCatalog.java:120-123 | with no cycle, known names always get their required list |
| `BndCatalogs.BndCatalog.DependentProjectPaths` | src/main/java/io/openliberty/tools/pdeps/BndCatalog.java:126-134 | exactly the folders of projects with an edge into a named project, without repeats; unknown names fail |
| `BndCatalogs.BndCatalog.SortedRoots` | src/main/java/io/openliberty/tools/pdeps/BndCatalog.java:91-93 | the folders of the given projects, strictly ascending |
| `BndCatalogs.BndCatalog.AllProjects` | src/main/java/io/openliberty/tools/pdeps/BndCatalog.java:81-86 | the folders of the projects the path index holds, strictly ascending |
| `BndCatalogs.BndCatalog.AllProjectsListsLastClaimants` | src/main/java/io/openliberty/tools/pdeps/BndCatalog.java:64-86 | a project is listed when it is still the last claimant of one of its keys |
| `BndCatalogs.BndCatalog.AllProjectsOnlyLastClaimants` | src/main/java/io/openliberty/tools/pdeps/BndCatalog.java:64-86 | conversely, when no two projects share a folder, a listed project is the last claimant of one of its keys |
| `BndCatalogs.BndCatalog.FindProjects` | src/main/java/io/openliberty/tools/pdeps/BndCatalog.java:96-103 | exactly the projects under a key the glob accepts; no match is the `NoMatch` error |
| `BndCatalogs.BndCatalog.MatchAll` | src/main/java/io/openliberty/tools/pdeps/BndCatalog.java:88-90 | the union of each pattern's matches; fails iff some pattern matches nothing, reporting the first such pattern, every earlier one having matched |
| `BndCatalogs.BndCatalog.FindProjectPaths` | src/main/java/io/openliberty/tools/pdeps/BndCatalog.java:88-94 | the folders of every match, strictly ascending |
| `PostOrder.LinkedSet.Add` | src/main/java/io/openliberty/tools/bnddeps/Catalog.java:165 | `LinkedHashSet.add` appends an element it does not hold and ignores one it does |
| `PostOrder.Dfs0` | src/main/java/io/openliberty/tools/bnddeps/Catalog.java:163-167 | the recursive visit leaves the set as `Visit` of its old contents |
| `PostOrder.VisitSpec` | src/main/java/io/openliberty/tools/bnddeps/Catalog.java:163-167 | visiting keeps what was listed as a prefix and adds exactly what the project reaches, each once, dependencies first |
| `PostOrder.VisitAllSpec` | src/main/java/io/openliberty/tools/bnddeps/Catalog.java:164 | visiting the children in order keeps the same invariant |
| `PostOrder.ReachRank` | src/main/java/io/openliberty/tools/bnddeps/Catalog.java:163-167 | on acyclic input the recursion only descends in rank |
| `PostOrder.ListingFromStart` | src/main/java/io/openliberty/tools/bnddeps/Catalog.java:158-161 | from an empty set: every reachable project once, dependencies first, the start last |
| `BndDepsCatalog.NewProject` | src/main/java/io/openliberty/tools/bnddeps/Catalog.java:94-122 | a NUL in the name fails; otherwise a folder with `bnd.bnd` gives a real project with the layered descriptor, any other name a placeholder |
| `BndDepsCatalog.RegisteredSnoc` | src/main/java/io/openliberty/tools/bnddeps/Catalog.java:54-57 | registering a project stores its name, then its differing symbolic name |
| `BndDepsCatalog.RegisteredLastWins` | src/main/java/io/openliberty/tools/bnddeps/Catalog.java:47-57 | a key is registered iff a project claims it, and then names the last claimant |
| `BndDepsCatalog.RegisterAll` | src/main/java/io/openliberty/tools/bnddeps/Catalog.java:47-57 | the registration loop yields `Registered(projects)` |
| `BndDepsCatalog.Created` | src/main/java/io/openliberty/tools/bnddeps/Catalog.java:47-52 | one project per qualifying folder, in listing order |
| `BndDepsCatalog.Lookup` | src/main/java/io/openliberty/tools/bnddeps/Catalog.java:135-137 | an entry resolves iff it names a real project |
| `BndDepsCatalog.Resolve` | src/main/java/io/openliberty/tools/bnddeps/Catalog.java:133-139 | resolved entries are real projects, at most one per entry |
| `BndDepsCatalog.ResolveAppend` | src/main/java/io/openliberty/tools/bnddeps/Catalog.java:127-128 | resolving build then test entries is resolving their concatenation |
| `BndDepsCatalog.Visible` | src/main/java/io/openliberty/tools/bnddeps/Catalog.java:169-171 | a listed project is shown iff `showAll` or it is unknown to Eclipse |
| `BndDepsCatalog.InitialWellFormed` | src/main/java/io/openliberty/tools/bnddeps/Catalog.java:43-58 | the constructor's projects and index satisfy the catalog invariant |
| `BndDepsCatalog.CookDone` | src/main/java/io/openliberty/tools/bnddeps/Catalog.java:124-130 | a finished cook holds the resolution of its build entries followed by its test entries |
| `BndDepsCatalog.Catalog.constructor` | src/main/java/io/openliberty/tools/bnddeps/Catalog.java:43-58 | one uncooked project per folder with `bnd.bnd`, `preCanon` as `Registered`, nothing canonical, `showAll` off |
| `BndDepsCatalog.Catalog.ShowAllProjects` | src/main/java/io/openliberty/tools/bnddeps/Catalog.java:78-80 | sets `showAll` and nothing else |
| `BndDepsCatalog.Catalog.GetRaw` | src/main/java/io/openliberty/tools/bnddeps/Catalog.java:68-76 | a stored name returns its project; a new name stores a new project (uncooked if real, an empty list if not); a NUL name gives null and changes nothing |
| `BndDepsCatalog.Catalog.Cook` | src/main/java/io/openliberty/tools/bnddeps/Catalog.java:124-130 | a cooked project is unchanged; otherwise its list becomes the resolved build then test entries |
| `BndDepsCatalog.Catalog.AddDeps` | src/main/java/io/openliberty/tools/bnddeps/Catalog.java:132-140 | appends the resolution of every stripped entry, in order |
| `BndDepsCatalog.Catalog.AddDep` | src/main/java/io/openliberty/tools/bnddeps/Catalog.java:133-139 | appends the entry's project when it is non-null and real |
| `BndDepsCatalog.Catalog.Attach` | src/main/java/io/openliberty/tools/bnddeps/Catalog.java:138-139 | cooks the dependency and appends it |
| `BndDepsCatalog.Catalog.GetCanonical` | src/main/java/io/openliberty/tools/bnddeps/Catalog.java:60-66 | a remembered name returns the same project and changes nothing; otherwise the cooked raw project is remembered. The cache gains exactly `name` mapped to the result on success and is unchanged otherwise |
| `BndDepsCatalog.Catalog.AdjacencyClosed` | src/main/java/io/openliberty/tools/bnddeps/Catalog.java:136-139 | cooked lists name only projects |
| `BndDepsCatalog.Catalog.Root` | src/main/java/io/openliberty/tools/bnddeps/Catalog.java:96 | the project folder lies in the workspace and its file name is the project's name |
| `BndDepsCatalog.Catalog.DisplayNameDecodes` | src/main/java/io/openliberty/tools/bnddeps/Catalog.java:173-177 | a display line reads back: bracketed iff known, the brackets enclosing the name; an unknown project's line ends with its folder, whose file name is the name |
| `BndDepsCatalog.Catalog.PrintInTopologicalOrder` | src/main/java/io/openliberty/tools/bnddeps/Catalog.java:149-155 | a placeholder fails with "Project directory does not exist"; otherwise the visible projects of the post-order listing, each once, dependencies first, the start last |
| `BndDepsProject.NewProject` | src/main/java/io/openliberty/tools/bnddeps/Project.java:78-97 | a NUL in the name fails; a folder with `bnd.bnd` gives a real project reading only `bnd.bnd`, any other name a placeholder |
| `BndDepsProject.CookFailed` | src/main/java/io/openliberty/tools/bnddeps/Project.java:99-105 | a cook cut short after the empty list was assigned has still only grown the projects |
| `BndDepsProject.AttachFailed` | src/main/java/io/openliberty/tools/bnddeps/Project.java:111-113 | a dependency that fails to cook leaves the dependent's list as it was |
| `BndDepsProject.Registry.constructor` | src/main/java/io/openliberty/tools/bnddeps/Project.java:38-39 | both memo maps start empty |
| `BndDepsProject.Registry.GetRaw` | src/main/java/io/openliberty/tools/bnddeps/Project.java:74-76 | a stored name returns its project; a new name stores a new project; a NUL name fails and changes nothing |
| `BndDepsProject.Registry.Cook` | src/main/java/io/openliberty/tools/bnddeps/Project.java:99-105 | a cooked project returns at once; otherwise its list becomes the resolved build then test entries |
| `BndDepsProject.Registry.AddDeps` | src/main/java/io/openliberty/tools/bnddeps/Project.java:107-114 | appends every entry that names a real project, in order, until one fails |
| `BndDepsProject.Registry.AddDep` | src/main/java/io/openliberty/tools/bnddeps/Project.java:108-113 | one entry: appended when it names a real project |
| `BndDepsProject.Registry.Attach` | src/main/java/io/openliberty/tools/bnddeps/Project.java:111-113 | cooks the dependency and appends it |
| `BndDepsProject.Registry.GetCanonical` | src/main/java/io/openliberty/tools/bnddeps/Project.java:66-72 | a remembered name returns the same project and changes nothing; otherwise the cooked raw project is remembered. The cache gains exactly `name` mapped to the result on success and is unchanged otherwise |
| `BndDepsProject.Registry.DisplayName` | src/main/java/io/openliberty/tools/bnddeps/Project.java:141-143 | the line is two characters longer than the name when known and one longer otherwise, and starts with `[` iff the project is known |
| `BndDepsProject.Registry.DisplayNameDecodes` | src/main/java/io/openliberty/tools/bnddeps/Project.java:141-143 | the line starts with `[` iff the project is known, then ends with `]`; otherwise it starts with a space; stripping those gives back the name |
| `BndDepsProject.Registry.PrintInTopologicalOrder` | src/main/java/io/openliberty/tools/bnddeps/Project.java:123-139 | every reachable project once, dependencies first, the start last; line `k` is the display line of the `k`-th listed project |
| `OldepsProject.AddProject` | src/main/java/io/openliberty/tools/oldeps/Project.java:89-91 | storing a new open project keeps the registry invariant |
| `OldepsProject.Append` | src/main/java/io/openliberty/tools/oldeps/Project.java:66-69 | adding a lower-ranked dependency keeps the invariant and touches nothing else |
| `OldepsProject.Burn` | src/main/java/io/openliberty/tools/oldeps/Project.java:75-78 | nulling `preDependencies` keeps the invariant |
| `OldepsProject.CollectStep` | src/main/java/io/openliberty/tools/oldeps/Project.java:66-69 | after one more entry the list is the ids of one more entry |
| `OldepsProject.CookDone` | src/main/java/io/openliberty/tools/oldeps/Project.java:56-79 | a finished cook holds the ids of its `-buildpath` entries, every one cooked |
| `OldepsProject.Registry.constructor` | src/main/java/io/openliberty/tools/oldeps/Project.java:27-28 | both memo maps start empty |
| `OldepsProject.Registry.GetRaw` | src/main/java/io/openliberty/tools/oldeps/Project.java:89-91 | a stored name returns its project; a new name stores a new open project |
| `OldepsProject.Registry.BurnBridge` | src/main/java/io/openliberty/tools/oldeps/Project.java:75-78 | closes only this project's bridge |
| `OldepsProject.Registry.Cook` | src/main/java/io/openliberty/tools/oldeps/Project.java:56-79 | a burnt project returns at once. Otherwise the bridge is burnt, and: a NUL name fails; a missing `bnd.bnd` leaves no dependencies; a missing `-buildpath` fails; else the list is the entries' projects, each cooked. Every failure reported is one of these two: a name holding NUL, or a `bnd.bnd` without `-buildpath` |
| `OldepsProject.Registry.Collect` | src/main/java/io/openliberty/tools/oldeps/Project.java:66-69 | appends `getRaw` of every entry, in order, names without `bnd.bnd` included |
| `OldepsProject.Registry.CookEach` | src/main/java/io/openliberty/tools/oldeps/Project.java:70 | every dependency is cooked, in order, until one fails; a failure reported is a name holding NUL or a `bnd.bnd` without `-buildpath` |
| `OldepsProject.Registry.GetCanonical` | src/main/java/io/openliberty/tools/oldeps/Project.java:81-87 | a remembered name returns the same project; otherwise the cooked raw project is remembered. The cache gains exactly `name` mapped to the result on success and is unchanged on failure, which is a NUL name or a `bnd.bnd` without `-buildpath` |
| `OldepsProject.Registry.AdjacencyRanked` | src/main/java/io/openliberty/tools/oldeps/Project.java:47-50 | every dependency ranks below its dependent, so the recursion ends |
| `OldepsProject.Registry.PrintInTopologicalOrder` | src/main/java/io/openliberty/tools/oldeps/Project.java:39-50 | every reachable project's name once, dependencies first, the start last |
| `Explorer.Dotless` | src/main/java/io/openliberty/tools/pdeps/ProjectExplorer.java:541 | every `.` becomes NUL, nothing else changes |
| `Explorer.EclipseOrderingTotal` | src/main/java/io/openliberty/tools/pdeps/ProjectExplorer.java:536-542 | on NUL-free paths the comparator is 0 only on equal paths, antisymmetric and transitive |
| `Explorer.EclipseOrderingDotFirst` | src/main/java/io/openliberty/tools/pdeps/ProjectExplorer.java:536-542 | `x.y` sorts before `x`, the reverse of `compareTo` |
| `Explorer.Matches` | src/main/java/io/openliberty/tools/pdeps/ProjectExplorer.java:459-461 | a pattern without its `!` finds the names of the projects `findProjects` finds, or fails with `NoMatch` |
| `Explorer.Add` | src/main/java/io/openliberty/tools/pdeps/ProjectExplorer.java:461 | `TreeSet.add`: stays strictly sorted, gains exactly the element |
| `Explorer.Remove` | src/main/java/io/openliberty/tools/pdeps/ProjectExplorer.java:461 | `TreeSet.remove`: stays strictly sorted, loses exactly the element |
| `Explorer.Apply` | src/main/java/io/openliberty/tools/pdeps/ProjectExplorer.java:459-461 | a `!` pattern removes its matches; any other adds them |
| `Explorer.ApplyKeeps` | src/main/java/io/openliberty/tools/pdeps/ProjectExplorer.java:461 | a name stays or comes in unless the pattern removes it |
| `Explorer.Fold` | src/main/java/io/openliberty/tools/pdeps/ProjectExplorer.java:455-467 | applying the patterns in order yields a sorted set |
| `Explorer.FoldOk` | src/main/java/io/openliberty/tools/pdeps/ProjectExplorer.java:457-465 | the patterns succeed together iff each one finds something |
| `Explorer.FoldFirstError` | src/main/java/io/openliberty/tools/pdeps/ProjectExplorer.java:457-465 | a failure is the error of the first pattern that finds nothing |
| `Explorer.FoldStep` | src/main/java/io/openliberty/tools/pdeps/ProjectExplorer.java:457-461 | one more pattern applies its matches to the set so far, or fails |
| `Explorer.FoldStops` | src/main/java/io/openliberty/tools/pdeps/ProjectExplorer.java:457-465 | once a pattern fails, the whole list fails with that error |
| `Explorer.MatchingStep` | src/main/java/io/openliberty/tools/pdeps/ProjectExplorer.java:457-465 | the loop body: the next pattern's matches applied, or its error as the outcome |
| `Explorer.FoldKeeps` | src/main/java/io/openliberty/tools/pdeps/ProjectExplorer.java:457-461 | the last pattern keeps or adds a name unless it removes it |
| `Explorer.SelectedIsKept` | src/main/java/io/openliberty/tools/pdeps/ProjectExplorer.java:455-467 | a name some including pattern finds, and no later pattern removes, is in the result |
| `Explorer.FoldMembers` | src/main/java/io/openliberty/tools/pdeps/ProjectExplorer.java:455-467 | a name is in the result iff some including pattern finds it and no later exclusion removes it |
| `Explorer.KnownSeeds` | src/main/java/io/openliberty/tools/pdeps/ProjectExplorer.java:405 | with missing names ignored, the lookup of the Eclipse names always succeeds |
| `Explorer.RequiredFolders` | src/main/java/io/openliberty/tools/pdeps/ProjectExplorer.java:379 | the required folders are the folders of the reached projects |
| `Explorer.Shown` | src/main/java/io/openliberty/tools/pdeps/ProjectExplorer.java:99-101 | one line per kept folder, at the kept positions in ascending order: Eclipse's projects dropped unless `showAll`, names instead of paths when `printNames` |
| `Explorer.DepsOf` | src/main/java/io/openliberty/tools/pdeps/ProjectExplorer.java:97-104 | `deps` fails iff the required lookup fails; otherwise it lists exactly the shown required folders, in Eclipse order when asked (a permutation of the shown list) and otherwise in the required order |
| `Explorer.DepsInDependencyOrder` | src/main/java/io/openliberty/tools/pdeps/ProjectExplorer.java:99-103 | without `--eclipse-ordering`, `deps` prints the shown required projects in required order, each after every shown project it depends on |
| `Digraphs.DepsBeforePicked` | src/main/java/io/openliberty/tools/pdeps/ProjectExplorer.java:99-100 | leaving projects out of a dependency-first order keeps it dependency-first |
| `Seqs.FilterKept` | src/main/java/io/openliberty/tools/pdeps/ProjectExplorer.java:100 | a stream `filter` keeps exactly the elements that pass, at their positions in ascending order |
| `Explorer.DepsShowAll` | src/main/java/io/openliberty/tools/pdeps/ProjectExplorer.java:99-103 | with `--show-all`, paths and no re-sort, `deps` is the required order itself |
| `Explorer.GapsOf` | src/main/java/io/openliberty/tools/pdeps/ProjectExplorer.java:376-383 | succeeds iff the required lookup does; exactly the folders the Eclipse projects reach whose names Eclipse lacks, in required order |
| `Explorer.GapsOfAcyclic` | src/main/java/io/openliberty/tools/pdeps/ProjectExplorer.java:379 | with no dependency cycle, `gaps` always lists |
| `Explorer.RootsAreKnown` | src/main/java/io/openliberty/tools/pdeps/ProjectExplorer.java:405-409 | every in-degree-0 project of the Eclipse closure is an Eclipse project, and an Eclipse project is one iff nothing in the closure depends on it |
| `Explorer.AllNames` | src/main/java/io/openliberty/tools/pdeps/ProjectExplorer.java:469-475 | the folder names of `allProjects`, strictly ascending |
| `Explorer.AllNamesListsLastClaimants` | src/main/java/io/openliberty/tools/pdeps/ProjectExplorer.java:469-475 | `list` without patterns names every project still the last claimant of a key |
| `Explorer.UsersOf` | src/main/java/io/openliberty/tools/pdeps/ProjectExplorer.java:412-421 | exactly the names of the projects with an edge into a named project; unknown names fail |
| `Explorer.ProjectExplorer.constructor` | src/main/java/io/openliberty/tools/pdeps/ProjectExplorer.java:65-78 | the options are recorded; no catalog yet |
| `Explorer.ProjectExplorer.GetBndCatalog` | src/main/java/io/openliberty/tools/pdeps/ProjectExplorer.java:423-436 | built once, then the same instance; no workspace is the "Could not locate" failure |
| `Explorer.ProjectExplorer.GetMatchingProjects` | src/main/java/io/openliberty/tools/pdeps/ProjectExplorer.java:455-467 | the loop yields `Matching` of the patterns; no patterns give the empty set without fetching the catalog |
| `Explorer.ProjectExplorer.Deps` | src/main/java/io/openliberty/tools/pdeps/ProjectExplorer.java:87-104 | `DepsOf` on the memoised catalog |
| `Explorer.ProjectExplorer.Gaps` | src/main/java/io/openliberty/tools/pdeps/ProjectExplorer.java:375-383 | `GapsOf` on the memoised catalog |
| `Explorer.ProjectExplorer.Roots` | src/main/java/io/openliberty/tools/pdeps/ProjectExplorer.java:401-410 | exactly the names of the in-degree-0 projects of the Eclipse closure |
| `Explorer.ProjectExplorer.List` | src/main/java/io/openliberty/tools/pdeps/ProjectExplorer.java:391-399 | all names sorted without patterns, else the matching names |
| `Explorer.ProjectExplorer.Uses` | src/main/java/io/openliberty/tools/pdeps/ProjectExplorer.java:412-421 | `UsersOf` on the memoised catalog |
| `FocusList.EncodedIs` | src/main/java/io/openliberty/tools/pdeps/Focus.java:312-318 | an entry encodes a project iff it is a kluge entry decoding to it |
| `FocusList.KlugeRoundTrip` | src/main/java/io/openliberty/tools/pdeps/Focus.java:308-318 | decoding undoes encoding, and an encoding is a kluge entry |
| `FocusList.FocusPatterns` | src/main/java/io/openliberty/tools/pdeps/Focus.java:304-306 | exactly the entries without the `kluge:` prefix |
| `FocusList.KlugeEntries` | src/main/java/io/openliberty/tools/pdeps/Focus.java:301 | exactly the entries with the `kluge:` prefix |
| `FocusList.EntriesPartition` | src/main/java/io/openliberty/tools/pdeps/Focus.java:300-306 | patterns and kluge entries share out the list's entries, each entry exactly once |
| `FocusList.KlugeProjects` | src/main/java/io/openliberty/tools/pdeps/Focus.java:300-302 | exactly the projects with a kluge entry that the catalog has |
| `FocusList.KlugeProjectsInOrder` | src/main/java/io/openliberty/tools/pdeps/Focus.java:300-302 | the kluge projects come in the order of their entries in the list |
| `FocusList.Without` | src/main/java/io/openliberty/tools/pdeps/Focus.java:136 | `removeAll`: exactly the entries not given |
| `FocusList.WithoutInOrder` | src/main/java/io/openliberty/tools/pdeps/Focus.java:136 | the entries that stay keep their positions' order |
| `FocusList.WithoutDistributes` | src/main/java/io/openliberty/tools/pdeps/Focus.java:136 | removal works entry by entry, so the rest keeps its order |
| `FocusList.WithoutNothing` | src/main/java/io/openliberty/tools/pdeps/Focus.java:136 | a list holding none of the patterns is unchanged |
| `FocusList.WithoutEverything` | src/main/java/io/openliberty/tools/pdeps/Focus.java:136 | a list made only of the patterns becomes empty |
| `FocusList.RemoveUndoesAdd` | src/main/java/io/openliberty/tools/pdeps/Focus.java:133-136 | `remove` of patterns the list lacked undoes `add` |
| `FocusList.RemoveFirst` | src/main/java/io/openliberty/tools/pdeps/Focus.java:229 | `List.remove(Object)`: only the first occurrence is dropped; an absent one changes nothing |
| `FocusList.UnklugeUndoesKluge` | src/main/java/io/openliberty/tools/pdeps/Focus.java:223-229 | `unkluge` undoes `kluge` of a project not kluged before |
| `FocusList.PartitionCard` | src/main/java/io/openliberty/tools/pdeps/Focus.java:257-264 | added, removed and unchanged counts add up to the size of the union |
| `FocusList.SummaryLines` | src/main/java/io/openliberty/tools/pdeps/Focus.java:257-269 | one line per project of either list, in sorted order |
| `FocusList.SummaryMarkers` | src/main/java/io/openliberty/tools/pdeps/Focus.java:261-267 | `+` iff only in the new list, `-` iff only in the old one, blank iff in both |
| `FocusList.SummaryCounts` | src/main/java/io/openliberty/tools/pdeps/Focus.java:259-270 | the counts are the two set differences and the intersection, and share out the lines |
| `FocusList.SummariseSwapped` | src/main/java/io/openliberty/tools/pdeps/Focus.java:259-264 | swapping the lists swaps the added and removed counts |
| `FocusList.SummariseSame` | src/main/java/io/openliberty/tools/pdeps/Focus.java:254-270 | equal lists add and remove nothing |
| `FocusList.Formatted` | src/main/java/io/openliberty/tools/pdeps/Focus.java:273-277 | the labelled kluged projects in list order, then the selected projects sorted; fails iff the pattern match fails |
| `FocusList.ChangesOf` | src/main/java/io/openliberty/tools/pdeps/Focus.java:254-256 | the summary of the two formatted lists; fails iff formatting either fails |
| `FocusList.Prioritise` | src/main/java/io/openliberty/tools/pdeps/Focus.java:286-289 | the kluge list first, then the main entries it lacks in the main list's order; no entry in both parts, and no repeats if neither part has any |
| `FocusList.MainNames` | src/main/java/io/openliberty/tools/pdeps/Focus.java:280-282 | the focus projects and the names of their direct users |
| `FocusList.RequiredOrder` | src/main/java/io/openliberty/tools/pdeps/Focus.java:279-290 | succeeds iff its three queries do; the kluge closure first, then the rest of the main closure in its own order |
| `FocusList.FolderNames` | src/main/java/io/openliberty/tools/pdeps/Focus.java:200 | exactly the folder names of the paths |
| `FocusList.LeavesOf` | src/main/java/io/openliberty/tools/pdeps/Focus.java:196-205 | kluge leaves when there are any, else the leaves of all required projects, else "Nothing to import!" |
| `FocusList.OrphansOf` | src/main/java/io/openliberty/tools/pdeps/Focus.java:209-212 | the Eclipse projects, sorted, that no required folder is named after |
| `FocusList.MissingOf` | src/main/java/io/openliberty/tools/pdeps/Focus.java:119-120 | exactly the required folders Eclipse lacks, at their positions in the required list in ascending order |
| `FocusList.MissingAndOrphansApart` | src/main/java/io/openliberty/tools/pdeps/Focus.java:119-120 | a missing folder is never also an orphan |
| `FocusList.Focus.constructor` | src/main/java/io/openliberty/tools/pdeps/Focus.java:35-39 | the focus list and the parent command |
| `FocusList.Focus.FormatProjects` | src/main/java/io/openliberty/tools/pdeps/Focus.java:273-277 | `Formatted` on the memoised catalog |
| `FocusList.Focus.SummariseChanges` | src/main/java/io/openliberty/tools/pdeps/Focus.java:254-271 | `ChangesOf` on the memoised catalog |
| `FocusList.Focus.Add` | src/main/java/io/openliberty/tools/pdeps/Focus.java:41-54 | the old list followed by the patterns, and its summary |
| `FocusList.Focus.Remove` | src/main/java/io/openliberty/tools/pdeps/Focus.java:128-140 | every occurrence of each pattern dropped, and the summary |
| `FocusList.Focus.Kluge` | src/main/java/io/openliberty/tools/pdeps/Focus.java:145-158 | an unknown project fails and leaves the list unchanged; otherwise its kluge entry is appended |
| `FocusList.Focus.Unkluge` | src/main/java/io/openliberty/tools/pdeps/Focus.java:219-234 | a project with no kluge entry fails and leaves the list unchanged; otherwise its first kluge entry is dropped |
| `FocusList.Focus.Clear` | src/main/java/io/openliberty/tools/pdeps/Focus.java:108-112 | the list becomes empty |
| `FocusList.Focus.List` | src/main/java/io/openliberty/tools/pdeps/Focus.java:160-166 | the formatted focus list |
| `FocusList.Focus.AllRequiredProjects` | src/main/java/io/openliberty/tools/pdeps/Focus.java:279-290 | `RequiredOf` on the memoised catalog |
| `FocusList.Focus.LeafDependencies` | src/main/java/io/openliberty/tools/pdeps/Focus.java:196-205 | `LeavesOf` on the memoised catalog |
| `FocusList.Focus.Next` | src/main/java/io/openliberty/tools/pdeps/Focus.java:185-194 | the first leaf dependency |
| `FocusList.Focus.Orphans` | src/main/java/io/openliberty/tools/pdeps/Focus.java:208-216 | `OrphansOf` the required list |
| `FocusList.Focus.Deps` | src/main/java/io/openliberty/tools/pdeps/Focus.java:115-126 | `MissingOf` the required list |

## Left out

- Filesystem access is taken as input and not performed: folder listings, `Files.exists`/`isDirectory`, `toRealPath`/`toAbsolutePath`, and focus-file reads and writes. A `Focus` object holds its list as a field. `getRoot` is the workspace path joined with the name.
- `java.util.Properties.load` (escapes, continuation lines) is not modelled: a descriptor is a finished map, and the overrides file is a map update.
- The glob matcher (`FileSystems.getPathMatcher`) is an uninterpreted predicate on pattern and key.
- `hasProject` and `getLeafProjects` are called by `Focus` but defined nowhere in the repository. They are uninterpreted inputs of the explorer.
- The JGraphT types are replaced by explicit sets, with the topological order written as Kahn's algorithm. Ties between projects of equal name are broken by catalog position, because JGraphT leaves that order open. A dependency cycle is a `NotADag` error.
- Orders that Java takes from hash sets are fixed choices in the model, because Java leaves them open. They are: the folder order of the listing, the seed order of the closure, the names `getAllRequiredProjects` collects, and the order in which the graph stores a project's incoming edges. The model lists `getDependentProjectPaths` strictly sorted.
- `Explorer.ProjectExplorer.Roots`: states which names are printed, not their order, which in Java is a hash set's iteration order.
- `Explorer.UsersOf`: states which names are listed, not their order. In Java they come name by name, each name's users in the order the graph stores its incoming edges, repeats dropped.
- `Explorer.UsersOf`: an unknown name makes the whole query fail. Java's stream is lazy, so it prints the users of the earlier names before it raises the error.
- `FocusList.RequiredOf` has no contract of its own. Its properties are stated by `FocusList.RequiredOrder`.
- `JavaStrings.CompareTo` compares Unicode code points. That is the byte order `Path.compareTo` uses on UTF-8 file names. Java's `String.compareTo`, used by `EclipseOrdering` and by the focus list's `TreeSet<String>`, compares UTF-16 code units instead. There, characters above U+FFFF sort before U+E000 to U+FFFF; the model sorts them after.
- `allProjects` lists the projects the path index still holds. A project whose name and symbolic-name keys are all claimed by later projects is not listed. The converse, that every listed project still claims a key, is proved only when no two projects share a folder.
- `ProjectExplorer.java:461` applies `Path::getFileName` to a stream of `BndProject`, which does not compile as written. The model takes the evident intent, the projects' folder names.
- The `NoSuchElementException` handler at `ProjectExplorer.java:462-464` never runs: a pattern without matches raises an `Error`, which the model propagates as the `NoMatch` failure.
- The nested `Focus` class of `ProjectExplorer.java:111-373` is the same code as `Focus.java`, and is modelled once.
- `dfs0`/`insertInto` recurse forever on a dependency cycle, ending in a stack overflow in Java. The post-order listings require an acyclicity rank.
- The `oldeps` registry requires the `-buildpath` headers to form no cycle, because its `cook` recurses before it burns the bridge and would not terminate.
- `bnddeps` `cook` is cycle-safe and needs no such requirement, but printing still does.
- The failures the model reports are not their Java counterparts. A NUL in a name stands for the `InvalidPathException` that `Path.resolve` raises. A missing `-buildpath` in `oldeps` stands for the `NullPointerException` of splitting null.
- Not modelled: the command-line layer (picocli options, `bnddeps/Main.java`, the `main` methods), `System.exit`, `error`, and all printed text beyond the lines the commands return. This covers `printFocusList`, `known`, headers and tabs.
- Not modelled: `batch`, the clipboard, `invokeEclipse`, `ProcessBuilder`, `Thread.sleep` and `Scanner`. They are side effects with no statable logic. `next` returns the project it would print.
- Not modelled: reading the Eclipse project names (`getKnownProjects` and the static `KNOWN_PROJECTS`). They are an input.
