/** Generic building blocks shared by the table models: an optional value
    (a pandas cell that may be NaN), left padding, row filters, distinct
    values and a position-based two-way split. */
module Common {

  /** A table cell that is either present or missing (NaN / None). */
  datatype Option<T> = None | Some(value: T) {
    /** The value, or `default` when missing (pandas `fillna(default)`). */
    function GetOr(default: T): T {
      if Some? then value else default
    }
  }

  /** `s` left-padded with `fill` to at least `width` characters
      (pandas `str.pad(width, side='left')`, `str.zfill` on unsigned digits). */
  function PadLeft(s: string, width: nat, fill: char): (r: string)
    ensures |r| == if |s| < width then width else |s|
    ensures r[|r| - |s|..] == s
    ensures forall i :: 0 <= i < |r| - |s| ==> r[i] == fill
  {
    if |s| < width then seq(width - |s|, _ => fill) + s else s
  }

  /** Padding an already padded string changes nothing. */
  lemma PadLeftIdempotent(s: string, width: nat, fill: char)
    ensures PadLeft(PadLeft(s, width, fill), width, fill) == PadLeft(s, width, fill)
  {
  }

  /** Element-wise application of `f`. */
  function Map<A, B>(s: seq<A>, f: A -> B): (r: seq<B>)
    ensures |r| == |s|
    ensures forall i :: 0 <= i < |s| ==> r[i] == f(s[i])
  {
    seq(|s|, i requires 0 <= i < |s| => f(s[i]))
  }

  /** The elements of `s` that satisfy `p`, in their original order
      (a boolean mask `df[mask]`). */
  function Filter<T(!new)>(s: seq<T>, p: T -> bool): (r: seq<T>)
    ensures |r| <= |s|
    ensures forall x :: x in r <==> x in s && p(x)
  {
    if s == [] then [] else (if p(s[0]) then [s[0]] else []) + Filter(s[1..], p)
  }

  /** Filtering commutes with concatenation, so a filter keeps the relative
      order of the rows it keeps. */
  lemma {:induction false} FilterConcat<T(!new)>(a: seq<T>, b: seq<T>, p: T -> bool)
    ensures Filter(a + b, p) == Filter(a, p) + Filter(b, p)
  {
    if a == [] {
      assert a + b == b;
    } else {
      assert (a + b)[1..] == a[1..] + b;
      FilterConcat(a[1..], b, p);
    }
  }

  /** The multiset of a filter grows by the first element exactly when
      that element is kept. */
  lemma FilterStep<T(!new)>(s: seq<T>, p: T -> bool)
    requires s != []
    ensures multiset(Filter(s, p)) ==
      (if p(s[0]) then multiset{s[0]} else multiset{}) + multiset(Filter(s[1..], p))
  {
    var head: seq<T> := if p(s[0]) then [s[0]] else [];
    assert Filter(s, p) == head + Filter(s[1..], p);
    assert multiset(head) == if p(s[0]) then multiset{s[0]} else multiset{};
  }

  /** A non-empty sequence's multiset is its head plus its tail's. */
  lemma MultisetCons<T>(s: seq<T>)
    requires s != []
    ensures multiset(s) == multiset{s[0]} + multiset(s[1..])
  {
    assert s == [s[0]] + s[1..];
  }

  /** A filter keeps every copy of an element it accepts and no copy of
      one it rejects. */
  lemma {:induction false} FilterCount<T(!new)>(s: seq<T>, p: T -> bool, y: T)
    ensures multiset(Filter(s, p))[y] == if p(y) then multiset(s)[y] else 0
  {
    if s != [] {
      var x, rest := s[0], s[1..];
      FilterCount(rest, p, y);
      FilterStep(s, p);
      MultisetCons(s);
      var kept := if p(x) then multiset{x} else multiset{};
      assert multiset(Filter(s, p))[y] == kept[y] + multiset(Filter(rest, p))[y];
      assert multiset(s)[y] == multiset{x}[y] + multiset(rest)[y];
      if x == y {
        assert kept[y] == if p(y) then 1 else 0;
      } else {
        assert kept[y] == 0 && multiset{x}[y] == 0;
      }
    }
  }

  /** A filter and its complement split the rows between them: every row
      lands in exactly one of the two. */
  lemma FilterComplement<T(!new)>(s: seq<T>, p: T -> bool, q: T -> bool)
    requires forall x :: q(x) == !p(x)
    ensures multiset(Filter(s, p)) + multiset(Filter(s, q)) == multiset(s)
  {
    forall y
      ensures (multiset(Filter(s, p)) + multiset(Filter(s, q)))[y] == multiset(s)[y]
    {
      FilterCount(s, p, y);
      FilterCount(s, q, y);
    }
  }

  /** A position holding `x`. */
  lemma IndexOf<T>(s: seq<T>, x: T) returns (k: nat)
    requires x in s
    ensures k < |s| && s[k] == x
  {
    k :| 0 <= k < |s| && s[k] == x;
  }

  /** The distinct elements of `s` in order of first occurrence
      (pandas `Series.unique()`). */
  function Unique<T(==,!new)>(s: seq<T>): (r: seq<T>)
    ensures forall x :: x in r <==> x in s
    ensures forall i, j :: 0 <= i < j < |r| ==> r[i] != r[j]
  {
    if s == [] then []
    else
      var u := Unique(s[..|s| - 1]);
      assert forall x :: x in s <==> x in s[..|s| - 1] || x == s[|s| - 1] by {
        assert s == s[..|s| - 1] + [s[|s| - 1]];
      }
      if s[|s| - 1] in u then u else u + [s[|s| - 1]]
  }

  ghost predicate StrictlyIncreasing(s: seq<int>) {
    forall i, j :: 0 <= i < j < |s| ==> s[i] < s[j]
  }

  /** `x` inserted into a strictly increasing sequence, unless already there. */
  function InsertSorted(x: int, s: seq<int>): (r: seq<int>)
    requires StrictlyIncreasing(s)
    ensures StrictlyIncreasing(r)
    ensures forall y :: y in r <==> y == x || y in s
  {
    if s == [] then [x]
    else if x < s[0] then [x] + s
    else if x == s[0] then s
    else
      var t := InsertSorted(x, s[1..]);
      assert forall y :: y in s <==> y == s[0] || y in s[1..] by {
        assert s == [s[0]] + s[1..];
      }
      assert forall y :: y in t ==> s[0] < y;
      assert forall j :: 0 < j < |[s[0]] + t| ==> ([s[0]] + t)[j] in t;
      [s[0]] + t
  }

  /** The distinct values of `s`, sorted ascending (`sorted(set(s))`). */
  function SortedUnique(s: seq<int>): (r: seq<int>)
    ensures StrictlyIncreasing(r)
    ensures forall y :: y in r <==> y in s
  {
    if s == [] then []
    else
      assert forall y :: y in s <==> y == s[0] || y in s[1..] by {
        assert s == [s[0]] + s[1..];
      }
      InsertSorted(s[0], SortedUnique(s[1..]))
  }

  /** The rows of `s[k..]` split by position: position `i` goes to the second
      (test) part when `inTest(i)` holds and to the first (train) part
      otherwise. Each row lands in exactly one part, and both parts keep the
      rows' relative order. */
  function SplitRows<T>(s: seq<T>, inTest: nat -> bool, k: nat): (r: (seq<T>, seq<T>))
    requires k <= |s|
    ensures multiset(r.0) + multiset(r.1) == multiset(s[k..])
    ensures |r.0| + |r.1| == |s| - k
    decreases |s| - k
  {
    if k == |s| then ([], [])
    else
      var rest := SplitRows(s, inTest, k + 1);
      assert s[k..] == [s[k]] + s[k + 1..];
      if inTest(k) then (rest.0, [s[k]] + rest.1) else ([s[k]] + rest.0, rest.1)
  }

  /** Two sequences that agree wherever `p` holds, and on where it holds,
      filter to the same sequence. */
  lemma {:induction false} FilterPointwise<T(!new)>(s: seq<T>, s': seq<T>, p: T -> bool)
    requires |s| == |s'|
    requires forall i :: 0 <= i < |s| ==> p(s[i]) == p(s'[i]) && (p(s[i]) ==> s[i] == s'[i])
    ensures Filter(s, p) == Filter(s', p)
  {
    if s != [] {
      FilterPointwise(s[1..], s'[1..], p);
    }
  }

  /** A filter that no element satisfies keeps nothing. */
  lemma {:induction false} FilterNone<T(!new)>(s: seq<T>, p: T -> bool)
    requires forall i :: 0 <= i < |s| ==> !p(s[i])
    ensures Filter(s, p) == []
  {
    if s != [] {
      FilterNone(s[1..], p);
    }
  }
}
