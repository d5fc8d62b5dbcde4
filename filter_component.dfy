/** The type filter's option list (India/project/src/components/FilterComponent.tsx):
    the catalog's distinct types plus the "All" sentinel, sorted. */
module FilterComponent {
  import opened Types

  /** The sentinel option that shows the whole catalog. */
  const AllTypes: string := "All"

  // ---------------------------------------------------------------------------
  // String order: the default comparison of Array.prototype.sort, character by character
  // ---------------------------------------------------------------------------

  /** `a` sorts before or equal to `b`: lexicographic order on characters, a proper
      prefix first. */
  predicate StrLe(a: string, b: string)
    decreases |a|
  {
    |a| == 0 || (|b| > 0 && (a[0] < b[0] || (a[0] == b[0] && StrLe(a[1..], b[1..]))))
  }

  lemma {:induction false} StrLeAntisymmetric(a: string, b: string)
    requires StrLe(a, b) && StrLe(b, a)
    ensures a == b
    decreases |a|
  {
    if |a| > 0 {
      StrLeAntisymmetric(a[1..], b[1..]);
      assert a == [a[0]] + a[1..] && b == [b[0]] + b[1..];
    }
  }

  lemma {:induction false} StrLeTransitive(a: string, b: string, c: string)
    requires StrLe(a, b) && StrLe(b, c)
    ensures StrLe(a, c)
    decreases |a|
  {
    if |a| > 0 && a[0] == b[0] && b[0] == c[0] {
      StrLeTransitive(a[1..], b[1..], c[1..]);
    }
  }

  lemma {:induction false} StrLeTotal(a: string, b: string)
    ensures StrLe(a, b) || StrLe(b, a)
    decreases |a|
  {
    if |a| > 0 && |b| > 0 && a[0] == b[0] {
      StrLeTotal(a[1..], b[1..]);
    }
  }

  /** Ascending under StrLe. */
  predicate Sorted(s: seq<string>) {
    forall i, j :: 0 <= i < j < |s| ==> StrLe(s[i], s[j])
  }

  // ---------------------------------------------------------------------------
  // Sorting (insertion sort; on strings every sort returns the same list)
  // ---------------------------------------------------------------------------

  function Insert(x: string, s: seq<string>): (r: seq<string>)
    ensures multiset(r) == multiset(s) + multiset{x}
  {
    if s == [] then [x]
    else if StrLe(x, s[0]) then [x] + s
    else
      assert s == [s[0]] + s[1..];
      [s[0]] + Insert(x, s[1..])
  }

  function Sort(s: seq<string>): (r: seq<string>)
    ensures multiset(r) == multiset(s)
  {
    if s == [] then []
    else
      assert s == [s[0]] + s[1..];
      Insert(s[0], Sort(s[1..]))
  }

  lemma {:induction false} InsertSorted(x: string, s: seq<string>)
    requires Sorted(s)
    ensures Sorted(Insert(x, s))
  {
    if s != [] && !StrLe(x, s[0]) {
      var rest := s[1..];
      SortedTail(s);
      InsertSorted(x, rest);
      StrLeTotal(x, s[0]);
      assert forall k :: 0 <= k < |rest| ==> rest[k] == s[k + 1];
      InsertBounded(s[0], x, rest);
    } else if s != [] {
      forall j | 0 < j < |s| ensures StrLe(x, s[j]) {
        StrLeTransitive(x, s[0], s[j]);
      }
    }
  }

  /** A string below `x` and below every element of `rest` is below every element of
      `Insert(x, rest)`. */
  lemma InsertBounded(lo: string, x: string, rest: seq<string>)
    requires StrLe(lo, x)
    requires forall k :: 0 <= k < |rest| ==> StrLe(lo, rest[k])
    ensures forall j :: 0 <= j < |Insert(x, rest)| ==> StrLe(lo, Insert(x, rest)[j])
  {
    var r := Insert(x, rest);
    forall j | 0 <= j < |r| ensures StrLe(lo, r[j]) {
      assert r[j] in multiset(r);
      if r[j] != x {
        assert r[j] in multiset(rest);
      }
    }
  }

  lemma {:induction false} SortSorted(s: seq<string>)
    ensures Sorted(Sort(s))
  {
    if s != [] {
      SortSorted(s[1..]);
      InsertSorted(s[0], Sort(s[1..]));
    }
  }

  lemma SortedTail(s: seq<string>)
    requires Sorted(s) && s != []
    ensures Sorted(s[1..])
  {
  }

  /** The head of a sorted list is below all of its elements. */
  lemma SortedHeadLeast(s: seq<string>, x: string)
    requires Sorted(s) && x in multiset(s)
    ensures StrLe(s[0], x)
  {
    var i :| 0 <= i < |s| && s[i] == x;
    if i == 0 {
      StrLeTotal(x, x);
    }
  }

  /** A sorted list is determined by its elements: two sorted lists holding the same
      multiset of strings are equal. */
  lemma {:induction false} SortedUnique(x: seq<string>, y: seq<string>)
    requires Sorted(x) && Sorted(y) && multiset(x) == multiset(y)
    ensures x == y
  {
    if x != [] {
      assert |y| == |multiset(y)| == |multiset(x)| == |x|;
      SortedHeadLeast(y, x[0]);
      SortedHeadLeast(x, y[0]);
      StrLeAntisymmetric(x[0], y[0]);
      assert x == [x[0]] + x[1..] && y == [y[0]] + y[1..];
      assert multiset(x[1..]) == multiset(x) - multiset{x[0]};
      assert multiset(y[1..]) == multiset(y) - multiset{y[0]};
      SortedTail(x);
      SortedTail(y);
      SortedUnique(x[1..], y[1..]);
    }
  }

  // ---------------------------------------------------------------------------
  // The option list
  // ---------------------------------------------------------------------------

  /** The set of types the catalog uses. */
  function TypesOf(missiles: seq<MissileData>): (types: set<string>) {
    set m | m in missiles :: m.missileType
  }

  /** What a JavaScript Set holds after adding the types in catalog order: each type
      once, in order of first occurrence. */
  function DistinctTypes(missiles: seq<MissileData>): (r: seq<string>)
    ensures multiset(r) == multiset(TypesOf(missiles))
  {
    if missiles == [] then []
    else
      var prefix := missiles[..|missiles| - 1];
      var t := missiles[|missiles| - 1].missileType;
      assert missiles == prefix + [missiles[|missiles| - 1]];
      assert TypesOf(missiles) == TypesOf(prefix) + {t};
      var d := DistinctTypes(prefix);
      if t in d then d else d + [t]
  }

  /** The options shown by the select element: the sentinel and one entry per distinct type. */
  function Options(missiles: seq<MissileData>): (r: seq<string>)
    ensures AllTypes in r
    ensures |r| == |DistinctTypes(missiles)| + 1
  {
    var r := Sort([AllTypes] + DistinctTypes(missiles));
    assert AllTypes in multiset(r);
    assert |multiset(r)| == |[AllTypes] + DistinctTypes(missiles)|;
    r
  }

  /** The `missileTypes` memo: add every record's type to a set in a loop, then sort the
      sentinel together with the set's contents. */
  method MissileTypes(missiles: seq<MissileData>) returns (options: seq<string>)
    ensures options == Options(missiles)
  {
    var types: seq<string> := [];
    for i := 0 to |missiles|
      invariant types == DistinctTypes(missiles[..i])
    {
      assert missiles[..i + 1][..i] == missiles[..i];
      var t := missiles[i].missileType;
      if t !in types {
        types := types + [t];
      }
    }
    assert missiles[..|missiles|] == missiles;
    options := Sort([AllTypes] + types);
  }

  /** The options are sorted and hold the sentinel once plus every catalog type once. */
  lemma OptionsSortedPermutation(missiles: seq<MissileData>)
    ensures Sorted(Options(missiles))
    ensures multiset(Options(missiles)) == multiset{AllTypes} + multiset(TypesOf(missiles))
  {
    SortSorted([AllTypes] + DistinctTypes(missiles));
  }

  /** What the list holds, item by item. */
  lemma OptionsContents(missiles: seq<MissileData>)
    ensures AllTypes in Options(missiles)
    ensures forall m :: m in missiles ==> m.missileType in Options(missiles)
    ensures forall o :: o in Options(missiles) ==> o == AllTypes || o in TypesOf(missiles)
    ensures |Options(missiles)| == |TypesOf(missiles)| + 1
  {
    OptionsSortedPermutation(missiles);
    var ms := multiset(Options(missiles));
    assert AllTypes in ms;
    forall m | m in missiles ensures m.missileType in Options(missiles) {
      assert m.missileType in TypesOf(missiles);
      assert m.missileType in ms;
    }
    forall o | o in Options(missiles) ensures o == AllTypes || o in TypesOf(missiles) {
      assert o in ms;
    }
    assert |ms| == |Options(missiles)|;
  }

  /** No type is offered twice; the sentinel shows up twice only if some record itself
      has the type "All". */
  lemma OptionsNoDuplicates(missiles: seq<MissileData>)
    ensures forall t :: t in TypesOf(missiles) && t != AllTypes ==> multiset(Options(missiles))[t] == 1
    ensures multiset(Options(missiles))[AllTypes] == if AllTypes in TypesOf(missiles) then 2 else 1
    ensures AllTypes !in TypesOf(missiles) ==>
              forall i, j :: 0 <= i < j < |Options(missiles)| ==> Options(missiles)[i] != Options(missiles)[j]
  {
    OptionsSortedPermutation(missiles);
    var opts := Options(missiles);
    if AllTypes !in TypesOf(missiles) {
      forall i, j | 0 <= i < j < |opts| ensures opts[i] != opts[j] {
        RepeatCounted(opts, i, j);
      }
    }
  }

  /** An element at two positions is counted at least twice. */
  lemma RepeatCounted(s: seq<string>, i: nat, j: nat)
    requires i < j < |s|
    ensures s[i] == s[j] ==> multiset(s)[s[i]] >= 2
  {
    assert s == s[..i] + [s[i]] + s[i + 1..j] + [s[j]] + s[j + 1..];
  }

  /** The list depends on the set of types alone: reordering the catalog or repeating
      records gives the same options. */
  lemma OptionsDependOnTypeSet(a: seq<MissileData>, b: seq<MissileData>)
    requires TypesOf(a) == TypesOf(b)
    ensures Options(a) == Options(b)
  {
    OptionsSortedPermutation(a);
    OptionsSortedPermutation(b);
    SortedUnique(Options(a), Options(b));
  }

  /** The sentinel is sorted among the types, not put first: with an "Air-to-Air" record
      the first option is not "All". */
  lemma AllNotForcedFirst(missiles: seq<MissileData>)
    requires "Air-to-Air" in TypesOf(missiles)
    ensures Options(missiles)[0] != AllTypes
  {
    OptionsSortedPermutation(missiles);
    var opts := Options(missiles);
    assert "Air-to-Air" in multiset(opts);
    var k :| 0 <= k < |opts| && opts[k] == "Air-to-Air";
    assert !StrLe(AllTypes, "Air-to-Air") by {
      assert AllTypes[0] == "Air-to-Air"[0];
      assert AllTypes[1..] == "ll" && "Air-to-Air"[1..] == "ir-to-Air";
    }
  }
}
