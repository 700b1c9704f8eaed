/** Stable sorting by a key order, as Python's `sort` and SQL's `ORDER BY` do it, and the
    lexicographic order on strings they compare text with. */
module Sorting {

  /** `leq` is total and transitive: a comparison of keys. */
  ghost predicate TotalPreorder<T(!new)>(leq: (T, T) -> bool) {
    && (forall x, y :: leq(x, y) || leq(y, x))
    && (forall x, y, z :: leq(x, y) && leq(y, z) ==> leq(x, z))
  }

  ghost predicate SortedBy<T>(leq: (T, T) -> bool, s: seq<T>) {
    forall i, j :: 0 <= i < j < |s| ==> leq(s[i], s[j])
  }

  /** `x` placed before the first element that may follow it. */
  function Insert<T>(leq: (T, T) -> bool, x: T, s: seq<T>): (r: seq<T>)
    ensures multiset(r) == multiset{x} + multiset(s)
    ensures |r| == |s| + 1
  {
    if s == [] then [x]
    else if leq(x, s[0]) then [x] + s
    else
      assert s == [s[0]] + s[1..];
      [s[0]] + Insert(leq, x, s[1..])
  }

  /** The stable sort of `s`: equal keys keep their order. */
  function Sort<T>(leq: (T, T) -> bool, s: seq<T>): (r: seq<T>)
    ensures multiset(r) == multiset(s)
    ensures |r| == |s|
  {
    if s == [] then []
    else
      assert s == [s[0]] + s[1..];
      Insert(leq, s[0], Sort(leq, s[1..]))
  }

  lemma {:induction false} SortSorts<T(!new)>(leq: (T, T) -> bool, s: seq<T>)
    requires TotalPreorder(leq)
    ensures SortedBy(leq, Sort(leq, s))
  {
    if s != [] {
      SortSorts(leq, s[1..]);
      InsertSorts(leq, s[0], Sort(leq, s[1..]));
    }
  }

  lemma {:induction false} InsertSorts<T(!new)>(leq: (T, T) -> bool, x: T, s: seq<T>)
    requires TotalPreorder(leq) && SortedBy(leq, s)
    ensures SortedBy(leq, Insert(leq, x, s))
  {
    if s != [] && !leq(x, s[0]) {
      InsertSorts(leq, x, s[1..]);
      var t := Insert(leq, x, s[1..]);
      forall j | 0 <= j < |t| ensures leq(s[0], t[j]) {
        assert t[j] in multiset(t);
        if t[j] != x {
          assert t[j] in multiset(s[1..]);
          assert t[j] in s[1..];
        }
      }
    }
  }

  /** Sorting keeps exactly the elements. */
  lemma SortKeepsElements<T>(leq: (T, T) -> bool, s: seq<T>)
    ensures forall x :: x in Sort(leq, s) <==> x in s
  {
    forall x ensures x in Sort(leq, s) <==> x in s {
      assert x in Sort(leq, s) <==> x in multiset(Sort(leq, s));
      assert x in s <==> x in multiset(s);
    }
  }

  /** Sorting keeps elements distinct. */
  lemma SortKeepsDistinct<T>(leq: (T, T) -> bool, s: seq<T>)
    requires Distinct(s)
    ensures Distinct(Sort(leq, s))
  {
    DistinctByCount(s);
    CountByDistinct(Sort(leq, s));
  }

  ghost predicate Distinct<T>(s: seq<T>) {
    forall i, j :: 0 <= i < j < |s| ==> s[i] != s[j]
  }

  lemma {:induction false} DistinctByCount<T>(s: seq<T>)
    requires Distinct(s)
    ensures forall x :: multiset(s)[x] <= 1
  {
    if s != [] {
      DistinctByCount(s[1..]);
      assert s == [s[0]] + s[1..];
      assert s[0] !in s[1..];
    }
  }

  lemma CountByDistinct<T>(s: seq<T>)
    requires forall x :: multiset(s)[x] <= 1
    ensures Distinct(s)
  {
    forall i, j | 0 <= i < j < |s| ensures s[i] != s[j] {
      assert s == s[..j] + [s[j]] + s[j + 1..];
      assert s[..j][i] in multiset(s[..j]);
      assert multiset(s)[s[i]] <= 1;
      assert multiset(s) == multiset(s[..j]) + multiset{s[j]} + multiset(s[j + 1..]);
    }
  }

  /** A strictly sorted sequence is determined by its elements. */
  lemma {:induction false} StrictlySortedUnique<T(!new)>(less: (T, T) -> bool, s: seq<T>, t: seq<T>)
    requires SortedBy(less, s) && SortedBy(less, t)
    requires forall x, y :: less(x, y) ==> !less(y, x)
    requires forall x :: x in s <==> x in t
    ensures s == t
  {
    assert |t| > 0 ==> t[0] in t;
    if s != [] {
      assert s[0] in t;
      assert t[0] in s;
      HeadIsLeast(less, s, t[0]);
      HeadIsLeast(less, t, s[0]);
      TailElements(less, s);
      TailElements(less, t);
      StrictlySortedUnique(less, s[1..], t[1..]);
    }
  }

  lemma HeadIsLeast<T(!new)>(less: (T, T) -> bool, s: seq<T>, x: T)
    requires SortedBy(less, s) && x in s
    ensures x == s[0] || less(s[0], x)
  {
    var i :| 0 <= i < |s| && s[i] == x;
    assert i > 0 ==> less(s[0], s[i]);
  }

  lemma TailElements<T(!new)>(less: (T, T) -> bool, s: seq<T>)
    requires s != [] && SortedBy(less, s)
    requires forall x, y :: less(x, y) ==> !less(y, x)
    ensures forall x :: x in s[1..] <==> x in s && x != s[0]
  {
    assert s == [s[0]] + s[1..];
    forall i | 0 <= i < |s[1..]| ensures s[1..][i] != s[0] {
      assert less(s[0], s[i + 1]);
    }
  }

  // --- text ---------------------------------------------------------------------------

  /** Code-point order on strings. */
  predicate TextLess(a: string, b: string) {
    if b == "" then false
    else if a == "" then true
    else a[0] < b[0] || (a[0] == b[0] && TextLess(a[1..], b[1..]))
  }

  lemma {:induction false} TextOrder(a: string, b: string)
    ensures TextLess(a, b) || TextLess(b, a) || a == b
    ensures TextLess(a, b) ==> !TextLess(b, a) && a != b
  {
    if a != "" && b != "" {
      TextOrder(a[1..], b[1..]);
      SameText(a, b);
    }
  }

  lemma SameText(a: string, b: string)
    requires a != "" && b != ""
    ensures a == b <==> a[0] == b[0] && a[1..] == b[1..]
  {
    assert a == [a[0]] + a[1..] && b == [b[0]] + b[1..];
  }

  lemma {:induction false} TextTransitive(a: string, b: string, c: string)
    requires TextLess(a, b) && TextLess(b, c)
    ensures TextLess(a, c)
  {
    if a != "" && a[0] == b[0] == c[0] {
      TextTransitive(a[1..], b[1..], c[1..]);
    }
  }

  predicate IsLeastText(s: set<string>, x: string) {
    x in s && forall y :: y in s ==> x == y || TextLess(x, y)
  }

  lemma {:induction false} LeastTextExists(s: set<string>) returns (x: string)
    requires s != {}
    ensures IsLeastText(s, x)
    ensures forall y :: IsLeastText(s, y) ==> y == x
    decreases |s|
  {
    var z :| z in s;
    if s == {z} {
      x := z;
    } else {
      var w := LeastTextExists(s - {z});
      TextOrder(w, z);
      x := if TextLess(z, w) then z else w;
      forall y | y in s ensures x == y || TextLess(x, y) {
        if y != z && x == z && y != w { TextTransitive(z, w, y); }
      }
    }
    forall y | IsLeastText(s, y) ensures y == x { TextOrder(x, y); }
  }

  /** `sorted(s)`. */
  function SortedTexts(s: set<string>): (r: seq<string>)
    ensures forall x :: x in r <==> x in s
    ensures SortedBy(TextLess, r)
    decreases |s|
  {
    if s == {} then []
    else
      assert exists x :: IsLeastText(s, x) && forall y :: IsLeastText(s, y) ==> y == x by {
        var x := LeastTextExists(s);
      }
      var x :| IsLeastText(s, x);
      [x] + SortedTexts(s - {x})
  }
}
