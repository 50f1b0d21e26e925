/** The helpers shared by src/joingeo_and_vmtcalc.py and
    src/JoinGeometry_HPMS_AADT_imputation.py: `queryBuilder` builds an SQL
    where-clause matching a field against a list of values, the field list
    of a join has its system fields removed, and `getUniqueValues` lists the
    distinct values of a field. */
module JoinHelpers {
  import opened Common

  /** `'{} = {}'.format(field, value)`, values already formatted as text. */
  function Clause(field: string, value: string): string {
    field + " = " + value
  }

  /** The clauses joined by " Or ", in list order, one per value. */
  function JoinOr(field: string, values: seq<string>): string {
    if values == [] then ""
    else if |values| == 1 then Clause(field, values[0])
    else JoinOr(field, values[..|values| - 1]) + " Or " + Clause(field, values[|values| - 1])
  }

  /** The loop's accumulator after the values `values`: every clause
      followed by " Or ". */
  function Accumulated(field: string, values: seq<string>): (acc: string)
    ensures values == [] ==> acc == ""
    ensures values != [] ==> acc == JoinOr(field, values) + " Or "
  {
    if values == [] then ""
    else
      var prefix := values[..|values| - 1];
      assert values[..|values| - 1] == prefix;
      Accumulated(field, prefix) + Clause(field, values[|values| - 1]) + " Or "
  }

  /** Python's `s[:-4]`: all but the last four characters, or "" for a
      shorter string. */
  function DropLast4(s: string): (r: string)
    ensures |s| >= 4 ==> r == s[..|s| - 4]
    ensures |s| < 4 ==> r == ""
  {
    if |s| >= 4 then s[..|s| - 4] else ""
  }

  /** `queryBuilder(values_field, values_list)`: the accumulating loop and
      the final slice that drops the trailing " Or ". */
  method QueryBuilder(field: string, values: seq<string>) returns (q: string)
    ensures q == JoinOr(field, values)
  {
    var acc := "";
    for i := 0 to |values|
      invariant acc == Accumulated(field, values[..i])
    {
      assert values[..i + 1][..i] == values[..i];
      acc := acc + Clause(field, values[i]) + " Or ";
    }
    assert values[..|values|] == values;
    q := DropLast4(acc);
    if values != [] {
      assert acc == JoinOr(field, values) + " Or ";
      assert acc[..|acc| - 4] == JoinOr(field, values);
    }
  }

  /** An empty list gives the empty query, a single value one clause with
      no " Or ", and one more value appends " Or " and its clause. */
  lemma JoinOrShape(field: string, values: seq<string>, v: string)
    ensures JoinOr(field, []) == ""
    ensures JoinOr(field, [v]) == field + " = " + v
    ensures values != [] ==> JoinOr(field, values + [v]) == JoinOr(field, values) + " Or " + field + " = " + v
  {
    if values != [] {
      assert (values + [v])[..|values + [v]| - 1] == values;
    }
  }

  /** The query is the clauses of the values with " Or " between each two:
      its length is that of the clauses plus four per separator. */
  lemma {:induction false} JoinOrLength(field: string, values: seq<string>)
    ensures values != [] ==>
      |JoinOr(field, values)| == ClauseLengths(field, values) + 4 * (|values| - 1)
  {
    if |values| > 1 {
      JoinOrLength(field, values[..|values| - 1]);
    }
  }

  function ClauseLengths(field: string, values: seq<string>): nat {
    if values == [] then 0
    else ClauseLengths(field, values[..|values| - 1]) + |Clause(field, values[|values| - 1])|
  }

  // ---------------------------------------------------------------------
  // The field-removal loop

  /** `['OBJECTID', 'Shape_Length', 'Shape_Area', join_field]`. */
  function SystemFields(joinField: string): seq<string> {
    ["OBJECTID", "Shape_Length", "Shape_Area", joinField]
  }

  /** `fields.remove(x)` guarded by `x in fields`: the first occurrence of
      `x` removed, the list unchanged when `x` is absent. */
  function RemoveFirst<T(==)>(s: seq<T>, x: T): seq<T> {
    if s == [] then []
    else if s[0] == x then s[1..]
    else [s[0]] + RemoveFirst(s[1..], x)
  }

  /** An absent name leaves the list as it was: the `if field in fields`
      guard skips it. */
  lemma {:induction false} RemoveFirstAbsent<T>(s: seq<T>, x: T)
    requires x !in s
    ensures RemoveFirst(s, x) == s
  {
    if s != [] {
      assert x !in s[1..];
      RemoveFirstAbsent(s[1..], x);
      assert s == [s[0]] + s[1..];
    }
  }

  /** The position of the first occurrence of `x`. */
  function FirstIndex<T(==)>(s: seq<T>, x: T): (i: nat)
    requires x in s
    ensures i < |s| && s[i] == x && x !in s[..i]
  {
    if s[0] == x then 0
    else
      assert x in s[1..];
      var j := FirstIndex(s[1..], x);
      assert s[..j + 1] == [s[0]] + s[1..][..j];
      j + 1
  }

  /** Removal skips a prefix without `x` and drops the `x` after it. */
  lemma {:induction false} RemoveAfterPrefix<T>(a: seq<T>, x: T, b: seq<T>)
    requires x !in a
    ensures RemoveFirst(a + [x] + b, x) == a + b
  {
    if a == [] {
      assert a + [x] + b == [x] + b;
    } else {
      var s := a + [x] + b;
      assert s[0] == a[0] && s[1..] == a[1..] + [x] + b;
      RemoveAfterPrefix(a[1..], x, b);
      assert a + b == [a[0]] + (a[1..] + b);
    }
  }

  /** When `x` is present, the removed element is its first occurrence and
      the names around it are kept in place. */
  lemma RemoveFirstAt<T>(s: seq<T>, x: T)
    requires x in s
    ensures RemoveFirst(s, x) == s[..FirstIndex(s, x)] + s[FirstIndex(s, x) + 1..]
  {
    var i := FirstIndex(s, x);
    assert s == s[..i] + [x] + s[i + 1..];
    RemoveAfterPrefix(s[..i], x, s[i + 1..]);
  }

  /** One occurrence of `x` goes, if there is one, and nothing else. */
  lemma {:induction false} RemoveFirstMultiset<T>(s: seq<T>, x: T)
    ensures multiset(RemoveFirst(s, x)) == multiset(s) - multiset{x}
  {
    if s != [] {
      assert s == [s[0]] + s[1..];
      if s[0] != x {
        RemoveFirstMultiset(s[1..], x);
        var m := multiset(s[1..]);
        assert multiset(s) == multiset{s[0]} + m;
        assert multiset(RemoveFirst(s, x)) == multiset{s[0]} + (m - multiset{x});
      }
    }
  }

  /** The list after removing the first occurrence of each name of `names`
      in turn. */
  function RemoveEach<T(==)>(s: seq<T>, names: seq<T>): seq<T> {
    if names == [] then s else RemoveFirst(RemoveEach(s, names[..|names| - 1]), names[|names| - 1])
  }

  /** The `for field in field_remove` loop of both join scripts: each name
      of the removal list in turn, removed from the field list if present. */
  method RemoveSystemFields(fields: seq<string>, joinField: string) returns (kept: seq<string>)
    ensures kept == RemoveEach(fields, SystemFields(joinField))
  {
    var fieldRemove := SystemFields(joinField);
    kept := fields;
    for i := 0 to |fieldRemove|
      invariant kept == RemoveEach(fields, fieldRemove[..i])
    {
      assert fieldRemove[..i + 1][..i] == fieldRemove[..i];
      if fieldRemove[i] in kept {
        kept := RemoveFirst(kept, fieldRemove[i]);
      } else {
        RemoveFirstAbsent(kept, fieldRemove[i]);
      }
    }
    assert fieldRemove[..|fieldRemove|] == fieldRemove;
  }

  /** Exactly one occurrence of each listed name is removed, where there is
      one: the remaining names are the original ones less the listed ones,
      as multisets. */
  lemma {:induction false} RemoveEachMultiset<T>(s: seq<T>, names: seq<T>)
    ensures multiset(RemoveEach(s, names)) == multiset(s) - multiset(names)
  {
    if names != [] {
      var init := names[..|names| - 1];
      var last := names[|names| - 1];
      var before := RemoveEach(s, init);
      assert RemoveEach(s, names) == RemoveFirst(before, last);
      RemoveEachMultiset(s, init);
      RemoveFirstMultiset(before, last);
      MultisetSnoc(names);
      SubtractInTurn(multiset(s), multiset(init), multiset{last});
    }
  }

  /** A non-empty sequence's multiset is its front plus its last element. */
  lemma MultisetSnoc<T>(s: seq<T>)
    requires s != []
    ensures multiset(s) == multiset(s[..|s| - 1]) + multiset{s[|s| - 1]}
  {
    assert s == s[..|s| - 1] + [s[|s| - 1]];
  }

  lemma SubtractInTurn<T>(a: multiset<T>, b: multiset<T>, c: multiset<T>)
    ensures a - b - c == a - (b + c)
  {
    forall x ensures (a - b - c)[x] == (a - (b + c))[x] {
    }
  }

  function NotIn<T(==)>(names: seq<T>): T -> bool {
    (x: T) => x !in names
  }

  /** A filter that rejects `x` does not see it. */
  lemma {:induction false} FilterSkip<T(!new)>(a: seq<T>, x: T, b: seq<T>, p: T -> bool)
    requires !p(x)
    ensures Filter(a + [x] + b, p) == Filter(a + b, p)
  {
    if a == [] {
      assert a + [x] + b == [x] + b && a + b == b;
      assert ([x] + b)[1..] == b;
    } else {
      assert (a + [x] + b)[0] == (a + b)[0] == a[0];
      assert (a + [x] + b)[1..] == a[1..] + [x] + b;
      assert (a + b)[1..] == a[1..] + b;
      FilterSkip(a[1..], x, b, p);
    }
  }

  /** Removing a listed name keeps the unlisted names in their relative
      order. */
  lemma RemoveFirstKeepsOthers<T(!new)>(s: seq<T>, x: T, names: seq<T>)
    requires x in names
    ensures Filter(RemoveFirst(s, x), NotIn(names)) == Filter(s, NotIn(names))
  {
    if x in s {
      var i := FirstIndex(s, x);
      var pre, post := s[..i], s[i + 1..];
      assert s == pre + [x] + post;
      RemoveAfterPrefix(pre, x, post);
      FilterSkip(pre, x, post, NotIn(names));
    } else {
      RemoveFirstAbsent(s, x);
    }
  }

  /** Every name not on the removal list survives the loop, in its
      original relative order. */
  lemma {:induction false} RemoveEachKeepsOthers<T(!new)>(s: seq<T>, names: seq<T>, all: seq<T>)
    requires forall x :: x in names ==> x in all
    ensures Filter(RemoveEach(s, names), NotIn(all)) == Filter(s, NotIn(all))
  {
    if names != [] {
      var init := names[..|names| - 1];
      assert forall x :: x in init ==> x in names;
      RemoveEachKeepsOthers(s, init, all);
      RemoveFirstKeepsOthers(RemoveEach(s, init), names[|names| - 1], all);
    }
  }

  /** The loop removes one occurrence of each system field present and
      nothing else, keeping the other fields in order. */
  lemma SystemFieldsRemoved(fields: seq<string>, joinField: string)
    ensures multiset(RemoveEach(fields, SystemFields(joinField))) ==
      multiset(fields) - multiset(SystemFields(joinField))
    ensures Filter(RemoveEach(fields, SystemFields(joinField)), NotIn(SystemFields(joinField))) ==
      Filter(fields, NotIn(SystemFields(joinField)))
  {
    RemoveEachMultiset(fields, SystemFields(joinField));
    RemoveEachKeepsOthers(fields, SystemFields(joinField), SystemFields(joinField));
  }

  // ---------------------------------------------------------------------
  // getUniqueValues

  /** `sorted({row[0] for row in cursor})`: the distinct values, ascending. */
  function GetUniqueValues(values: seq<int>): (u: seq<int>)
    ensures StrictlyIncreasing(u)
    ensures forall x :: x in u <==> x in values
  {
    SortedUnique(values)
  }

  /** Two ascending sequences without repeats holding the same values are
      the same sequence. */
  lemma {:induction false} SortedSameSetEqual(a: seq<int>, b: seq<int>)
    requires StrictlyIncreasing(a) && StrictlyIncreasing(b)
    requires forall x :: x in a <==> x in b
    ensures a == b
  {
    assert |a| == 0 || a[0] in a;
    assert |b| == 0 || b[0] in b;
    if a != [] && b != [] {
      SortedHeadIsLeast(a, b[0]);
      SortedHeadIsLeast(b, a[0]);
      forall x
        ensures x in a[1..] <==> x in b[1..]
      {
        SortedTailMembers(a, x);
        SortedTailMembers(b, x);
      }
      SortedSameSetEqual(a[1..], b[1..]);
      assert a == [a[0]] + a[1..] && b == [b[0]] + b[1..];
    }
  }

  /** The head of a strictly increasing sequence is its least element. */
  lemma SortedHeadIsLeast(a: seq<int>, x: int)
    requires StrictlyIncreasing(a) && x in a
    ensures a[0] <= x
  {
    var j :| 0 <= j < |a| && a[j] == x;
    assert j == 0 || a[0] < a[j];
  }

  /** The tail of a strictly increasing sequence is strictly increasing
      and holds every element except the head. */
  lemma SortedTailMembers(a: seq<int>, x: int)
    requires StrictlyIncreasing(a) && a != []
    ensures StrictlyIncreasing(a[1..])
    ensures x in a[1..] <==> x in a && x != a[0]
  {
    assert a == [a[0]] + a[1..];
    if x in a[1..] {
      var k :| 0 <= k < |a| - 1 && a[1..][k] == x;
      assert a[0] < a[k + 1];
    }
  }

  /** Listing the distinct values of a list of distinct values changes
      nothing, and the result does not depend on input order or
      repetition. */
  lemma UniqueValuesCanonical(values: seq<int>, other: seq<int>)
    requires forall x :: x in values <==> x in other
    ensures GetUniqueValues(GetUniqueValues(values)) == GetUniqueValues(values)
    ensures GetUniqueValues(values) == GetUniqueValues(other)
  {
    SortedSameSetEqual(GetUniqueValues(GetUniqueValues(values)), GetUniqueValues(values));
    SortedSameSetEqual(GetUniqueValues(values), GetUniqueValues(other));
  }
}
