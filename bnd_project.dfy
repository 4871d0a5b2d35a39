/**
 * A bnd project as the explorer sees it: a folder holding a `bnd.bnd` descriptor, optionally
 * overlaid by `bnd.overrides`, from which the project's name, its declared bundle symbolic name
 * and its ordered list of build-time dependencies are derived.
 */
module BndProjects {
  import opened Wrappers
  import opened Seqs
  import opened JavaStrings

  /** A loaded descriptor file: its keys and their (unparsed) values. */
  type Properties = map<string, string>

  const BundleSymbolicName: string := "Bundle-SymbolicName"
  const BuildPath: string := "-buildpath"
  const TestPath: string := "-testpath"

  /** The two descriptor files of a project folder; `overrides` is absent when there is no `bnd.overrides`. */
  datatype Descriptor = Descriptor(bnd: Properties, overrides: Option<Properties>)

  /** A parsed project. `root` is the folder path with `/` separating its segments. */
  datatype BndProject = BndProject(root: string, name: string, symbolicName: Option<string>, dependencies: seq<string>)

  /** Where the last segment of a path starts: just after its last `/`, or at 0 when there is none. */
  function SegmentStart(path: string): (r: nat)
    ensures r <= |path|
    ensures r > 0 ==> path[r - 1] == '/'
    ensures forall k :: r <= k < |path| ==> path[k] != '/'
  {
    if path == [] || path[|path| - 1] == '/' then |path| else SegmentStart(path[..|path| - 1])
  }

  /** `Path.getFileName()`: the last segment of a path. */
  function FileName(root: string): (r: string)
    ensures '/' !in r
  {
    root[SegmentStart(root)..]
  }

  /** The file name of a folder's child is the child's own name. */
  lemma FileNameOfChild(parent: string, name: string)
    requires '/' !in name
    ensures FileName(parent + "/" + name) == name
  {
    var path := parent + "/" + name;
    assert path[|parent|] == '/';
    assert forall k :: |parent| < k < |path| ==> path[k] == name[k - |parent| - 1];
    assert path[|parent| + 1..] == name;
  }

  /** `Properties.getProperty(key, default)`. */
  function GetProperty(props: Properties, key: string, default: string): (r: string)
    ensures key in props ==> r == props[key]
    ensures key !in props ==> r == default
  {
    if key in props then props[key] else default
  }

  /** Loading `bnd.overrides` after `bnd.bnd` into one `Properties`: an override replaces the key it names. */
  function Layered(d: Descriptor): (r: Properties)
    ensures r.Keys == d.bnd.Keys + (if d.overrides.Some? then d.overrides.value.Keys else {})
    ensures forall k :: k in r ==> r[k] == (if d.overrides.Some? && k in d.overrides.value then d.overrides.value[k] else d.bnd[k])
  {
    if d.overrides.Some? then d.bnd + d.overrides.value else d.bnd
  }

  /**
   * A path-like property (`-buildpath`, `-testpath`): the value split at `,` plus any following
   * whitespace, each entry cut at its first `;`. An absent key reads as the empty string.
   */
  function PathProp(props: Properties, key: string): (r: seq<string>)
    ensures |r| == |Split(GetProperty(props, key, ""))|
    ensures forall k :: 0 <= k < |r| ==> r[k] == StripParams(Split(GetProperty(props, key, ""))[k])
  {
    Map(Split(GetProperty(props, key, "")), StripParams)
  }

  /** An absent path key contributes exactly one entry, the empty string. */
  lemma {:induction false} PathPropAbsent(props: Properties, key: string)
    requires key !in props
    ensures PathProp(props, key) == [""]
  {
    assert Split("") == [""];
    assert StripParams("") == "";
  }

  /** Path entries read back as the bundle names they were written from, whatever attributes follow `;`. */
  lemma PathPropOfClauses(props: Properties, key: string, names: seq<string>, attributes: seq<string>)
    requires |names| == |attributes| >= 1
    requires forall k :: 0 <= k < |names| ==> ',' !in names[k] && ';' !in names[k]
    requires forall k :: 0 <= k < |attributes| ==> ',' !in attributes[k] && NoLineTerminators(attributes[k])
    requires forall k :: 1 <= k < |names| ==> names[k] == [] || !IsRegexSpace(names[k][0])
    requires key in props && props[key] == Join(Clauses(names, attributes))
    ensures PathProp(props, key) == names
  {
    var clauses := Clauses(names, attributes);
    forall k | 1 <= k < |clauses| ensures clauses[k] == [] || !IsRegexSpace(clauses[k][0]) {
      assert clauses[k] == names[k] + ";" + attributes[k];
      if names[k] == [] {
        assert clauses[k][0] == ';';
      } else {
        assert clauses[k][0] == names[k][0];
      }
    }
    forall k | 0 <= k < |clauses| ensures ',' !in clauses[k] {
      assert clauses[k] == names[k] + ";" + attributes[k];
    }
    SplitJoin(clauses);
    forall k | 0 <= k < |names| ensures StripParams(clauses[k]) == names[k] {
      StripParamsOfClause(names[k], attributes[k]);
    }
  }

  /** `name;attributes` for each entry (the clause form of a bnd path header). */
  function Clauses(names: seq<string>, attributes: seq<string>): (r: seq<string>)
    requires |names| == |attributes|
    ensures |r| == |names|
    ensures forall k :: 0 <= k < |r| ==> r[k] == names[k] + ";" + attributes[k]
  {
    seq(|names|, k requires 0 <= k < |names| => names[k] + ";" + attributes[k])
  }

  /** `Bundle-SymbolicName` with its parameters removed, then trimmed; `None` when the key is absent. */
  function SymbolicName(props: Properties): (r: Option<string>)
    ensures r.None? <==> BundleSymbolicName !in props
    ensures r.Some? ==> r.value == [] || (r.value[0] > ' ' && r.value[|r.value| - 1] > ' ')
  {
    if BundleSymbolicName in props then Some(Trim(StripParams(props[BundleSymbolicName]))) else None
  }

  /**
   * A header `name;directives` yields the bundle name alone, trimmed: directives such as
   * `singleton:=true` never become part of the symbolic name.
   */
  lemma SymbolicNameOfClause(props: Properties, name: string, directives: string)
    requires ';' !in name && NoLineTerminators(directives)
    requires BundleSymbolicName in props && props[BundleSymbolicName] == name + ";" + directives
    ensures SymbolicName(props) == Some(Trim(name))
  {
    StripParamsOfClause(name, directives);
  }

  /** The `BndProject` constructor: name from the folder, fields from the layered descriptor. */
  function Load(root: string, d: Descriptor): (r: BndProject)
    ensures r.root == root && r.name == FileName(root)
    ensures r.symbolicName == SymbolicName(Layered(d))
    ensures r.dependencies == PathProp(Layered(d), BuildPath) + PathProp(Layered(d), TestPath)
  {
    var props := Layered(d);
    BndProject(root, FileName(root), SymbolicName(props), PathProp(props, BuildPath) + PathProp(props, TestPath))
  }

  /** Whether the project also answers to a second name: a symbolic name that is present and differs. */
  predicate SymbolicNameDiffersFromName(p: BndProject)
  {
    p.symbolicName.Some? && p.symbolicName.value != p.name
  }

  /** With neither path key, a project's dependency list is two empty-string entries. */
  lemma LoadWithoutPaths(root: string, d: Descriptor)
    requires BuildPath !in Layered(d) && TestPath !in Layered(d)
    ensures Load(root, d).dependencies == ["", ""]
  {
    var props := Layered(d);
    PathPropAbsent(props, BuildPath);
    PathPropAbsent(props, TestPath);
    calc {
      Load(root, d).dependencies;
      PathProp(props, BuildPath) + PathProp(props, TestPath);
      [""] + [""];
    }
  }

  /** An override of a key wins over `bnd.bnd`; keys it does not name keep their `bnd.bnd` value. */
  lemma OverridesWin(d: Descriptor, key: string)
    requires d.overrides.Some?
    ensures key in d.overrides.value ==> GetProperty(Layered(d), key, "") == d.overrides.value[key]
    ensures key !in d.overrides.value ==> GetProperty(Layered(d), key, "") == GetProperty(d.bnd, key, "")
  {
  }

  /** The build path's entries come first, in order, then the test path's. */
  lemma {:induction false} LoadDependencyOrder(root: string, d: Descriptor, build: seq<string>, test: seq<string>,
                                               buildAttrs: seq<string>, testAttrs: seq<string>)
    requires |build| == |buildAttrs| >= 1 && |test| == |testAttrs| >= 1
    requires forall k :: 0 <= k < |build| ==> ',' !in build[k] && ';' !in build[k]
    requires forall k :: 0 <= k < |test| ==> ',' !in test[k] && ';' !in test[k]
    requires forall k :: 0 <= k < |buildAttrs| ==> ',' !in buildAttrs[k] && NoLineTerminators(buildAttrs[k])
    requires forall k :: 0 <= k < |testAttrs| ==> ',' !in testAttrs[k] && NoLineTerminators(testAttrs[k])
    requires forall k :: 1 <= k < |build| ==> build[k] == [] || !IsRegexSpace(build[k][0])
    requires forall k :: 1 <= k < |test| ==> test[k] == [] || !IsRegexSpace(test[k][0])
    requires BuildPath in Layered(d) && Layered(d)[BuildPath] == Join(Clauses(build, buildAttrs))
    requires TestPath in Layered(d) && Layered(d)[TestPath] == Join(Clauses(test, testAttrs))
    ensures Load(root, d).dependencies == build + test
  {
    var props := Layered(d);
    PathPropOfClauses(props, BuildPath, build, buildAttrs);
    PathPropOfClauses(props, TestPath, test, testAttrs);
  }
}
