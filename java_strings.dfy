/**
 * The pieces of java.lang.String behaviour the project relies on, written out:
 * `split(",\\s*")`, `replaceFirst(";.*", "")`, `trim()`, `startsWith`, `compareTo`,
 * and the sorting that `sorted()` / `TreeSet` apply with `compareTo`.
 */
module JavaStrings {
  import opened Seqs

  /** `\s` of a Java regular expression: space, tab, newline, vertical tab, form feed, carriage return. */
  predicate IsRegexSpace(c: char)
  {
    c == ' ' || c == '\t' || c == '\n' || c == '\U{0B}' || c == '\U{0C}' || c == '\r'
  }

  /** The characters that `.` does not match when a Java pattern is compiled without DOTALL. */
  predicate IsLineTerminator(c: char)
  {
    c == '\n' || c == '\r' || c == '\U{85}' || c == '\U{2028}' || c == '\U{2029}'
  }

  predicate NoLineTerminators(s: string)
  {
    forall k :: 0 <= k < |s| ==> !IsLineTerminator(s[k])
  }

  // ---------------------------------------------------------------------------
  // replaceFirst(";.*", "")
  // ---------------------------------------------------------------------------

  /** The first position at or after `i` holding a line terminator, or `|s|`. */
  function LineEnd(s: string, i: nat): (r: nat)
    requires i <= |s|
    ensures i <= r <= |s|
    ensures r < |s| ==> IsLineTerminator(s[r])
    ensures forall k :: i <= k < r ==> !IsLineTerminator(s[k])
    decreases |s| - i
  {
    if i == |s| then i
    else if IsLineTerminator(s[i]) then i
    else LineEnd(s, i + 1)
  }

  /**
   * `s.replaceFirst(";.*", "")`: the first `;` and every following character up to
   * (not including) the next line terminator are removed; without a `;` nothing changes.
   */
  function StripParams(s: string): string
  {
    var i := IndexOf(s, ';');
    if i == |s| then s else s[..i] + s[LineEnd(s, i)..]
  }

  /** On a single-line value, stripping keeps exactly the text before the first `;`, which is then `;`-free. */
  lemma StripParamsSingleLine(s: string)
    requires NoLineTerminators(s)
    ensures StripParams(s) == s[..IndexOf(s, ';')]
    ensures ';' !in StripParams(s)
  {
    var i := IndexOf(s, ';');
    if i < |s| {
      assert LineEnd(s, i) == |s|;
      assert s[|s|..] == [];
      assert s[..i] + s[|s|..] == s[..i];
    } else {
      assert s[..i] == s;
    }
  }

  /** An entry `name;attributes` loses exactly its attribute clause. */
  lemma StripParamsOfClause(name: string, attributes: string)
    requires ';' !in name && NoLineTerminators(attributes)
    ensures StripParams(name + ";" + attributes) == name
  {
    var s := name + ";" + attributes;
    assert s == name + [';'] + attributes;
    IndexOfAfterPrefix(name, ';', attributes);
    assert forall k :: |name| < k < |s| ==> s[k] == attributes[k - |name| - 1];
    assert LineEnd(s, |name|) == |s|;
    assert s[..|name|] == name;
  }

  // ---------------------------------------------------------------------------
  // split(",\\s*")
  // ---------------------------------------------------------------------------

  /** What remains after the greedy `\s*` of the separator has consumed the leading blanks. */
  function SkipSpaces(s: string): (r: string)
    ensures |r| <= |s| && r == s[|s| - |r|..]
    ensures r == [] || !IsRegexSpace(r[0])
    ensures forall k :: 0 <= k < |s| - |r| ==> IsRegexSpace(s[k])
  {
    if s != [] && IsRegexSpace(s[0]) then SkipSpaces(s[1..]) else s
  }

  /** Every field between separator matches, including the trailing empty ones. */
  function Fields(s: string): (r: seq<string>)
    ensures |r| >= 1
    ensures forall k :: 0 <= k < |r| ==> ',' !in r[k]
    decreases |s|
  {
    var i := IndexOf(s, ',');
    if i == |s| then [s] else [s[..i]] + Fields(SkipSpaces(s[i + 1..]))
  }

  function DropTrailingEmpty(xs: seq<string>): (r: seq<string>)
    ensures r <= xs
    ensures r == [] || r[|r| - 1] != []
    ensures forall k :: |r| <= k < |xs| ==> xs[k] == []
  {
    if xs == [] then []
    else if xs[|xs| - 1] == [] then DropTrailingEmpty(xs[..|xs| - 1])
    else xs
  }

  /**
   * `s.split(",\\s*")`: when the separator never matches the result is `[s]` (so `""`
   * gives `[""]`); otherwise the fields with the trailing empty ones removed.
   */
  function Split(s: string): seq<string>
  {
    if ',' !in s then [s] else DropTrailingEmpty(Fields(s))
  }

  /** The inverse direction: `xs` joined with `", "`. */
  function Join(xs: seq<string>): string
  {
    if xs == [] then []
    else if |xs| == 1 then xs[0]
    else xs[0] + ", " + Join(xs[1..])
  }

  /** A list that `Split` can give back after `Join`: no commas, no leading blanks after the first field. */
  predicate Splittable(xs: seq<string>)
  {
    && |xs| >= 1
    && Joinable(xs)
    && (|xs| == 1 || xs[|xs| - 1] != [])
  }

  lemma {:induction false} JoinCommas(xs: seq<string>)
    requires |xs| >= 1 && (forall k :: 0 <= k < |xs| ==> ',' !in xs[k])
    ensures |xs| == 1 <==> ',' !in Join(xs)
  {
    if |xs| > 1 {
      var s := Join(xs);
      assert s == xs[0] + ", " + Join(xs[1..]);
      assert s[|xs[0]|] == ',';
    }
  }

  lemma {:induction false} JoinStart(xs: seq<string>)
    requires |xs| >= 1 && (forall k :: 0 <= k < |xs| ==> ',' !in xs[k])
    requires xs[0] == [] || !IsRegexSpace(xs[0][0])
    ensures Join(xs) == [] || !IsRegexSpace(Join(xs)[0])
  {
    if |xs| > 1 {
      var s := Join(xs);
      assert s == xs[0] + ", " + Join(xs[1..]);
      if xs[0] == [] {
        assert s[0] == ',';
      } else {
        assert s[0] == xs[0][0];
      }
    }
  }

  lemma SkipOneSpace(rest: string)
    requires rest == [] || !IsRegexSpace(rest[0])
    ensures SkipSpaces(" " + rest) == rest
  {
    assert (" " + rest)[1..] == rest;
  }

  /** A comma-free field followed by a comma: the first field, then the fields of the rest with its blanks skipped. */
  lemma FieldsCons(head: string, tail: string)
    requires ',' !in head
    ensures Fields(head + [','] + tail) == [head] + Fields(SkipSpaces(tail))
  {
    var s := head + [','] + tail;
    IndexOfAfterPrefix(head, ',', tail);
    assert s[..|head|] == head;
    assert s[|head| + 1..] == tail;
  }

  /** A join of two or more fields: the first field, a comma, a space, the join of the rest. */
  lemma JoinCons(xs: seq<string>)
    requires |xs| > 1
    ensures Join(xs) == xs[0] + [','] + (" " + Join(xs[1..]))
  {
  }

  lemma ConsTail(xs: seq<string>)
    requires xs != []
    ensures [xs[0]] + xs[1..] == xs
  {
  }

  /** Fields that join back unchanged: no commas, and no leading blank after the first field. */
  predicate Joinable(xs: seq<string>)
  {
    && (forall k :: 0 <= k < |xs| ==> ',' !in xs[k])
    && (forall k :: 1 <= k < |xs| ==> xs[k] == [] || !IsRegexSpace(xs[k][0]))
  }

  /** Dropping the first field keeps a list joinable, and the new first field has no leading blank. */
  lemma JoinableTail(xs: seq<string>)
    requires |xs| > 1 && Joinable(xs)
    ensures Joinable(xs[1..]) && ',' !in xs[0]
    ensures xs[1..][0] == [] || !IsRegexSpace(xs[1..][0][0])
  {
  }

  lemma {:induction false} FieldsOfJoin(xs: seq<string>)
    requires |xs| >= 1 && Joinable(xs)
    ensures Fields(Join(xs)) == xs
  {
    if |xs| == 1 {
      assert ',' !in xs[0];
    } else {
      var tail := xs[1..];
      var rest := Join(tail);
      JoinableTail(xs);
      JoinCons(xs);
      FieldsCons(xs[0], " " + rest);
      JoinStart(tail);
      SkipOneSpace(rest);
      FieldsOfJoin(tail);
      ConsTail(xs);
    }
  }

  /** Round trip: splitting a `", "`-joined list gives the list back. */
  lemma SplitJoin(xs: seq<string>)
    requires Splittable(xs)
    ensures Split(Join(xs)) == xs
  {
    FieldsOfJoin(xs);
    JoinCommas(xs);
    if |xs| > 1 {
      assert DropTrailingEmpty(xs) == xs;
    }
  }

  /** A missing key read with default `""` yields exactly one empty entry. */
  lemma SplitEmpty()
    ensures Split("") == [""]
  {
  }

  /** Split never produces a field that still contains a comma, and the fields rebuild the commas away. */
  lemma SplitHasNoCommas(s: string)
    ensures forall k :: 0 <= k < |Split(s)| ==> ',' !in Split(s)[k]
  {
    if ',' in s {
      var f := Fields(s);
      var r := DropTrailingEmpty(f);
      forall k | 0 <= k < |r| ensures ',' !in r[k] {
        assert r[k] == f[k];
      }
    }
  }

  // ---------------------------------------------------------------------------
  // trim()
  // ---------------------------------------------------------------------------

  function TrimStart(s: string): (r: string)
    ensures |r| <= |s| && r == s[|s| - |r|..]
    ensures r == [] || r[0] > ' '
    ensures forall k :: 0 <= k < |s| - |r| ==> s[k] <= ' '
  {
    if s != [] && s[0] <= ' ' then TrimStart(s[1..]) else s
  }

  function TrimEnd(s: string): (r: string)
    ensures r <= s
    ensures r == [] || r[|r| - 1] > ' '
    ensures forall k :: |r| <= k < |s| ==> s[k] <= ' '
  {
    if s != [] && s[|s| - 1] <= ' ' then TrimEnd(s[..|s| - 1]) else s
  }

  /** `String.trim()`: every leading and trailing character at or below U+0020 removed. */
  function Trim(s: string): (r: string)
    ensures |r| <= |s|
    ensures r == [] || (r[0] > ' ' && r[|r| - 1] > ' ')
    ensures (s == [] || (s[0] > ' ' && s[|s| - 1] > ' ')) ==> r == s
  {
    TrimEnd(TrimStart(s))
  }

  // ---------------------------------------------------------------------------
  // compareTo and sorting
  // ---------------------------------------------------------------------------

  /** `String.compareTo`: difference of the first differing characters, else of the lengths. */
  function CompareTo(a: string, b: string): int
  {
    if a == [] || b == [] then |a| - |b|
    else if a[0] != b[0] then a[0] as int - b[0] as int
    else CompareTo(a[1..], b[1..])
  }

  lemma {:induction false} CompareToAntisymmetric(a: string, b: string)
    ensures CompareTo(b, a) == -CompareTo(a, b)
  {
    if a != [] && b != [] && a[0] == b[0] {
      CompareToAntisymmetric(a[1..], b[1..]);
    }
  }

  lemma {:induction false} CompareToZero(a: string, b: string)
    ensures CompareTo(a, b) == 0 <==> a == b
  {
    if a != [] && b != [] && a[0] == b[0] {
      CompareToZero(a[1..], b[1..]);
      assert a == [a[0]] + a[1..] && b == [b[0]] + b[1..];
    }
  }

  lemma {:induction false} CompareToTransitive(a: string, b: string, c: string)
    requires CompareTo(a, b) < 0 && CompareTo(b, c) < 0
    ensures CompareTo(a, c) < 0
  {
    if a != [] && b != [] && c != [] && a[0] == b[0] && b[0] == c[0] {
      CompareToTransitive(a[1..], b[1..], c[1..]);
    }
  }

  lemma {:induction false} CompareToTransitiveLe(a: string, b: string, c: string)
    requires CompareTo(a, b) <= 0 && CompareTo(b, c) <= 0
    ensures CompareTo(a, c) <= 0
  {
    CompareToZero(a, b);
    CompareToZero(b, c);
    if CompareTo(a, b) < 0 && CompareTo(b, c) < 0 {
      CompareToTransitive(a, b, c);
    }
  }

  /** `CompareTo` is a total order on strings: antisymmetric, transitive and total. */
  lemma CompareToTotalOrder()
    ensures forall a, b :: CompareTo(a, b) == 0 <==> a == b
    ensures forall a, b :: CompareTo(a, b) < 0 <==> CompareTo(b, a) > 0
    ensures forall a, b, c :: CompareTo(a, b) < 0 && CompareTo(b, c) < 0 ==> CompareTo(a, c) < 0
  {
    forall a, b ensures CompareTo(a, b) == 0 <==> a == b {
      CompareToZero(a, b);
    }
    forall a, b ensures CompareTo(a, b) < 0 <==> CompareTo(b, a) > 0 {
      CompareToAntisymmetric(a, b);
    }
    forall a, b, c | CompareTo(a, b) < 0 && CompareTo(b, c) < 0 ensures CompareTo(a, c) < 0 {
      CompareToTransitive(a, b, c);
    }
  }

  /** Ascending under `compareTo` of `key`. */
  predicate SortedBy(xs: seq<string>, key: string -> string)
  {
    forall i, j :: 0 <= i < j < |xs| ==> CompareTo(key(xs[i]), key(xs[j])) <= 0
  }

  /** Strictly ascending under `compareTo`: sorted and without duplicates. */
  predicate StrictlySorted(xs: seq<string>)
  {
    forall i, j :: 0 <= i < j < |xs| ==> CompareTo(xs[i], xs[j]) < 0
  }

  /** Places `x` after every element whose key is not greater (which keeps the sort stable). */
  function Insert(x: string, xs: seq<string>, key: string -> string): seq<string>
  {
    if xs == [] then [x]
    else if CompareTo(key(x), key(xs[0])) < 0 then [x] + xs
    else [xs[0]] + Insert(x, xs[1..], key)
  }

  lemma {:induction false} InsertElements(x: string, xs: seq<string>, key: string -> string)
    ensures multiset(Insert(x, xs, key)) == multiset(xs) + multiset{x}
  {
    if xs != [] && CompareTo(key(x), key(xs[0])) >= 0 {
      InsertElements(x, xs[1..], key);
      assert xs == [xs[0]] + xs[1..];
    }
  }

  lemma {:induction false} InsertSorted(x: string, xs: seq<string>, key: string -> string)
    requires SortedBy(xs, key)
    ensures SortedBy(Insert(x, xs, key), key)
  {
    if xs == [] {
    } else if CompareTo(key(x), key(xs[0])) < 0 {
      forall j | 0 < j < |xs| ensures CompareTo(key(x), key(xs[j])) <= 0 {
        CompareToTransitiveLe(key(x), key(xs[0]), key(xs[j]));
      }
    } else {
      var rest := Insert(x, xs[1..], key);
      InsertSorted(x, xs[1..], key);
      InsertElements(x, xs[1..], key);
      CompareToAntisymmetric(key(x), key(xs[0]));
      forall j | 0 <= j < |rest| ensures CompareTo(key(xs[0]), key(rest[j])) <= 0 {
        var y := rest[j];
        assert y in multiset(rest);
        if y != x {
          assert y in multiset(xs[1..]);
          var k :| 0 <= k < |xs[1..]| && xs[1..][k] == y;
          assert xs[k + 1] == y;
        }
      }
    }
  }

  /** A stable insertion sort by `compareTo` of `key` (what `Stream.sorted(comparator)` yields). */
  function SortBy(xs: seq<string>, key: string -> string): (r: seq<string>)
    ensures multiset(r) == multiset(xs)
    ensures SortedBy(r, key)
  {
    if xs == [] then []
    else
      var init := SortBy(xs[..|xs| - 1], key);
      assert xs == xs[..|xs| - 1] + [xs[|xs| - 1]];
      InsertSorted(xs[|xs| - 1], init, key);
      InsertElements(xs[|xs| - 1], init, key);
      Insert(xs[|xs| - 1], init, key)
  }

  /** Drops repeats from an ascending list (`distinct()` after `sorted()`). */
  function DedupSorted(xs: seq<string>): (r: seq<string>)
    requires SortedBy(xs, s => s)
    ensures StrictlySorted(r)
    ensures forall x :: x in r <==> x in xs
    ensures r == [] <==> xs == []
    ensures xs != [] ==> r[0] == xs[0]
  {
    if |xs| <= 1 then xs
    else
      var rest := DedupSorted(xs[1..]);
      if xs[0] == xs[1] then rest
      else
        assert CompareTo(xs[0], xs[1]) < 0 by {
          CompareToZero(xs[0], xs[1]);
        }
        CompareToAntisymmetric(xs[0], xs[1]);
        forall j | 0 <= j < |rest| ensures CompareTo(xs[0], rest[j]) < 0 {
          assert rest[j] in xs[1..];
          var k :| 0 <= k < |xs[1..]| && xs[1..][k] == rest[j];
          assert CompareTo(xs[0], xs[k + 1]) <= 0;
          if k > 0 {
            assert CompareTo(xs[1], xs[k + 1]) <= 0;
            CompareToZero(xs[0], xs[k + 1]);
          }
        }
        [xs[0]] + rest
  }

  /** `sorted().distinct()` over strings: the same elements, strictly ascending. */
  function SortDistinct(xs: seq<string>): (r: seq<string>)
    ensures StrictlySorted(r)
    ensures forall x :: x in r <==> x in xs
  {
    var s := SortBy(xs, s => s);
    assert forall x :: x in s <==> x in multiset(s);
    DedupSorted(s)
  }
}
