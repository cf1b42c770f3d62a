/**
 Table scans, filters and ORDER BY over sequences.

 SQLite walks a table in ascending row id, and ORDER BY is taken to be stable, so rows with
 equal keys stay in ascending id.
 */
module Sequences {

  predicate Distinct<T(==)>(s: seq<T>) {
    forall i, j :: 0 <= i < j < |s| ==> s[i] != s[j]
  }

  function Elements<T>(s: seq<T>): set<T> {
    set x | x in s
  }

  lemma ElementsOfConcat<T>(a: seq<T>, b: seq<T>)
    ensures Elements(a + b) == Elements(a) + Elements(b)
  {
  }

  lemma ConcatAssociative<T>(a: seq<T>, b: seq<T>, c: seq<T>)
    ensures (a + b) + c == a + (b + c)
  {
  }

  lemma UnionAssociative<T>(a: set<T>, b: set<T>, c: set<T>)
    ensures (a + b) + c == a + (b + c)
  {
  }

  lemma {:induction false} DistinctCardinality<T>(s: seq<T>)
    requires Distinct(s)
    ensures |Elements(s)| == |s|
  {
    if s != [] {
      var init := s[..|s| - 1];
      DistinctCardinality(init);
      assert s == init + [s[|s| - 1]];
      ElementsOfConcat(init, [s[|s| - 1]]);
      assert Elements([s[|s| - 1]]) == {s[|s| - 1]};
    }
  }

  function Map<A, B>(f: A -> B, s: seq<A>): (r: seq<B>)
    ensures |r| == |s|
    ensures forall k :: 0 <= k < |s| ==> r[k] == f(s[k])
  {
    if s == [] then [] else [f(s[0])] + Map(f, s[1..])
  }

  lemma {:induction false} MapMap<A, B, C>(f: A -> B, g: B -> C, h: A -> C, s: seq<A>)
    requires forall k :: 0 <= k < |s| ==> g(f(s[k])) == h(s[k])
    ensures Map(g, Map(f, s)) == Map(h, s)
  {
  }

  lemma MapAppend<A, B>(f: A -> B, s: seq<A>, t: seq<A>)
    ensures Map(f, s + t) == Map(f, s) + Map(f, t)
  {
  }

  function Filter<T(!new)>(p: T -> bool, s: seq<T>): (r: seq<T>)
    ensures forall x :: x in r <==> x in s && p(x)
  {
    if s == [] then []
    else if p(s[0]) then [s[0]] + Filter(p, s[1..])
    else Filter(p, s[1..])
  }

  lemma {:induction false} FilterAppend<T(!new)>(p: T -> bool, s: seq<T>, t: seq<T>)
    ensures Filter(p, s + t) == Filter(p, s) + Filter(p, t)
  {
    if s == [] {
      assert s + t == t;
    } else {
      assert (s + t)[0] == s[0] && (s + t)[1..] == s[1..] + t;
      FilterAppend(p, s[1..], t);
      ConcatAssociative([s[0]], Filter(p, s[1..]), Filter(p, t));
    }
  }

  function Take<T>(s: seq<T>, n: nat): seq<T> {
    if |s| <= n then s else s[..n]
  }

  // ---------- ascending scans ----------

  ghost predicate Ascending(s: seq<int>) {
    forall i, j :: 0 <= i < j < |s| ==> s[i] < s[j]
  }

  ghost function Pick<T>(s: set<T>): (x: T)
    requires s != {}
    ensures x in s
  {
    var x :| x in s;
    x
  }

  lemma {:induction false} LeastExists(s: set<int>)
    requires s != {}
    ensures exists x :: x in s && forall y :: y in s ==> x <= y
  {
    var x := Pick(s);
    var rest := s - {x};
    if rest == {} {
      assert forall y :: y in s ==> y in rest || y == x;
    } else {
      LeastExists(rest);
      var z :| z in rest && forall y :: y in rest ==> z <= y;
      var least := if z <= x then z else x;
      assert forall y :: y in s ==> y in rest || y == x;
      assert least in s && forall y :: y in s ==> least <= y;
    }
  }

  function Least(s: set<int>): (x: int)
    requires s != {}
    ensures x in s && forall y :: y in s ==> x <= y
  {
    LeastExists(s);
    var x :| x in s && forall y :: y in s ==> x <= y;
    x
  }

  /** The row ids of a table, in the order SQLite walks them. */
  function Scan(s: set<int>): (r: seq<int>)
    ensures Ascending(r)
    ensures forall x :: x in r <==> x in s
    ensures |r| == |s|
  {
    if s == {} then [] else
    var x := Least(s);
    assert forall y :: y in s <==> y == x || y in s - {x};
    [x] + Scan(s - {x})
  }

  lemma {:induction false} AscendingUnique(a: seq<int>, b: seq<int>)
    requires Ascending(a) && Ascending(b)
    requires forall x :: x in a <==> x in b
    ensures a == b
  {
    assert |a| > 0 ==> a[0] in a && a[0] in b;
    assert |b| > 0 ==> b[0] in b && b[0] in a;
    if a != [] {
      assert a[0] == b[0];
      forall x
        ensures x in a[1..] <==> x in b[1..]
      {
        assert x in a[1..] <==> x in a && x != a[0];
        assert x in b[1..] <==> x in b && x != b[0];
      }
      AscendingUnique(a[1..], b[1..]);
    }
  }

  lemma ScanAppend(s: set<int>, n: int)
    requires forall x :: x in s ==> x < n
    ensures Scan(s + {n}) == Scan(s) + [n]
  {
    var scan := Scan(s);
    assert forall k :: 0 <= k < |scan| ==> scan[k] in s;
    var r := scan + [n];
    assert Ascending(r);
    AscendingUnique(Scan(s + {n}), r);
  }

  // ---------- ORDER BY ----------

  /** What ORDER BY needs of a comparison: a total preorder. */
  ghost predicate Order<T(!new)>(le: (T, T) -> bool) {
    && (forall a, b :: le(a, b) || le(b, a))
    && (forall a, b, c :: le(a, b) && le(b, c) ==> le(a, c))
  }

  ghost predicate Sorted<T>(le: (T, T) -> bool, s: seq<T>) {
    forall i, j :: 0 <= i < j < |s| ==> le(s[i], s[j])
  }

  function Insert<T(!new)>(le: (T, T) -> bool, x: T, s: seq<T>): (r: seq<T>)
    ensures multiset(r) == multiset(s) + multiset{x}
    ensures |r| == |s| + 1
    ensures forall y :: y in r <==> y == x || y in s
  {
    if s == [] then [x]
    else if le(x, s[0]) then [x] + s
    else
      assert s == [s[0]] + s[1..];
      [s[0]] + Insert(le, x, s[1..])
  }

  /** The stable sort by `le`: equal rows keep the order they came in. */
  function SortBy<T(!new)>(le: (T, T) -> bool, s: seq<T>): (r: seq<T>)
    ensures multiset(r) == multiset(s)
    ensures |r| == |s|
    ensures forall y :: y in r <==> y in s
  {
    if s == [] then []
    else
      assert s == [s[0]] + s[1..];
      Insert(le, s[0], SortBy(le, s[1..]))
  }

  lemma {:induction false} InsertSorted<T(!new)>(le: (T, T) -> bool, x: T, s: seq<T>)
    requires Order(le) && Sorted(le, s)
    ensures Sorted(le, Insert(le, x, s))
  {
    if s != [] && !le(x, s[0]) {
      InsertSorted(le, x, s[1..]);
      var r := Insert(le, x, s[1..]);
      forall y | y in r
        ensures le(s[0], y)
      {
      }
    }
  }

  lemma {:induction false} SortBySorted<T(!new)>(le: (T, T) -> bool, s: seq<T>)
    requires Order(le)
    ensures Sorted(le, SortBy(le, s))
  {
    if s != [] {
      SortBySorted(le, s[1..]);
      InsertSorted(le, s[0], SortBy(le, s[1..]));
    }
  }

  /** Sorting rows that are in order already moves nothing. */
  lemma {:induction false} SortBySortedIdentity<T(!new)>(le: (T, T) -> bool, s: seq<T>)
    requires Sorted(le, s)
    ensures SortBy(le, s) == s
  {
    if s != [] {
      SortBySortedIdentity(le, s[1..]);
      assert s == [s[0]] + s[1..];
      assert |s| > 1 ==> le(s[0], s[1]);
    }
  }

  lemma SortByIdempotent<T(!new)>(le: (T, T) -> bool, s: seq<T>)
    requires Order(le)
    ensures SortBy(le, SortBy(le, s)) == SortBy(le, s)
  {
    SortBySorted(le, s);
    SortBySortedIdentity(le, SortBy(le, s));
  }

  lemma {:induction false} InsertMap<A(!new), B(!new)>(leA: (A, A) -> bool, leB: (B, B) -> bool, f: A -> B, x: A, s: seq<A>)
    requires forall a, b :: leA(a, b) <==> leB(f(a), f(b))
    ensures Map(f, Insert(leA, x, s)) == Insert(leB, f(x), Map(f, s))
  {
    if s != [] && !leA(x, s[0]) {
      InsertMap(leA, leB, f, x, s[1..]);
      assert Map(f, s)[1..] == Map(f, s[1..]);
      assert Map(f, [s[0]] + Insert(leA, x, s[1..])) == [f(s[0])] + Map(f, Insert(leA, x, s[1..]));
    } else if s != [] {
      assert Map(f, [x] + s) == [f(x)] + Map(f, s);
    }
  }

  /** Projecting rows before or after sorting on the projected key is the same. */
  lemma {:induction false} SortByMap<A(!new), B(!new)>(leA: (A, A) -> bool, leB: (B, B) -> bool, f: A -> B, s: seq<A>)
    requires forall a, b :: leA(a, b) <==> leB(f(a), f(b))
    ensures Map(f, SortBy(leA, s)) == SortBy(leB, Map(f, s))
  {
    if s != [] {
      SortByMap(leA, leB, f, s[1..]);
      InsertMap(leA, leB, f, s[0], SortBy(leA, s[1..]));
      assert Map(f, s)[1..] == Map(f, s[1..]);
    }
  }

  lemma {:induction false} InsertFilter<T(!new)>(le: (T, T) -> bool, p: T -> bool, x: T, s: seq<T>)
    requires Order(le) && Sorted(le, s)
    ensures Filter(p, Insert(le, x, s)) == if p(x) then Insert(le, x, Filter(p, s)) else Filter(p, s)
  {
    if s == [] {
    } else if le(x, s[0]) {
      assert ([x] + s)[1..] == s;
      var kept := Filter(p, s);
      if kept != [] {
        assert kept[0] in s;
        assert le(x, kept[0]);
      }
    } else {
      InsertFilter(le, p, x, s[1..]);
      var r := Insert(le, x, s[1..]);
      assert ([s[0]] + r)[1..] == r;
    }
  }

  /** A group picked out of sorted rows is the group, sorted: this is where stability counts. */
  lemma {:induction false} SortByFilter<T(!new)>(le: (T, T) -> bool, p: T -> bool, s: seq<T>)
    requires Order(le)
    ensures Filter(p, SortBy(le, s)) == SortBy(le, Filter(p, s))
  {
    if s != [] {
      SortByFilter(le, p, s[1..]);
      SortBySorted(le, s[1..]);
      InsertFilter(le, p, s[0], SortBy(le, s[1..]));
    }
  }

  lemma {:induction false} InsertSame<T(!new)>(le: (T, T) -> bool, le': (T, T) -> bool, x: T, s: seq<T>)
    requires forall y :: y in s ==> le(x, y) == le'(x, y)
    ensures Insert(le, x, s) == Insert(le', x, s)
  {
    if s != [] {
      InsertSame(le, le', x, s[1..]);
    }
  }

  /** Two orders that agree on the rows at hand sort them alike. */
  lemma {:induction false} SortBySame<T(!new)>(le: (T, T) -> bool, le': (T, T) -> bool, s: seq<T>)
    requires forall x, y :: x in s && y in s ==> le(x, y) == le'(x, y)
    ensures SortBy(le, s) == SortBy(le', s)
  {
    if s != [] {
      SortBySame(le, le', s[1..]);
      InsertSame(le, le', s[0], SortBy(le, s[1..]));
    }
  }

  /** Under an antisymmetric order the sorted arrangement of given rows is unique. */
  lemma {:induction false} SortedUnique<T(!new)>(le: (T, T) -> bool, a: seq<T>, b: seq<T>)
    requires Order(le) && forall x, y :: le(x, y) && le(y, x) ==> x == y
    requires Sorted(le, a) && Sorted(le, b) && multiset(a) == multiset(b)
    ensures a == b
  {
    assert |a| == |multiset(a)| == |multiset(b)| == |b|;
    if a != [] {
      SortedHead(le, a, b[0]);
      SortedHead(le, b, a[0]);
      TailMultiset(a);
      TailMultiset(b);
      SortedUnique(le, a[1..], b[1..]);
      assert a == [a[0]] + a[1..] && b == [b[0]] + b[1..];
    }
  }

  lemma SortedHead<T(!new)>(le: (T, T) -> bool, s: seq<T>, x: T)
    requires Order(le) && Sorted(le, s) && s != []
    ensures x in multiset(s) ==> le(s[0], x)
  {
  }

  lemma TailMultiset<T>(s: seq<T>)
    requires s != []
    ensures s[0] in multiset(s) && multiset(s[1..]) == multiset(s) - multiset{s[0]}
  {
    assert s == [s[0]] + s[1..];
  }

  lemma {:induction false} DistinctMultisetUnique<T>(a: seq<T>, b: seq<T>)
    requires Distinct(a) && Distinct(b) && Elements(a) == Elements(b)
    ensures multiset(a) == multiset(b)
  {
    forall x
      ensures multiset(a)[x] == multiset(b)[x]
    {
      DistinctCount(a, x);
      DistinctCount(b, x);
      assert x in Elements(a) <==> x in a;
      assert x in Elements(b) <==> x in b;
    }
  }

  lemma {:induction false} DistinctCount<T>(s: seq<T>, x: T)
    requires Distinct(s)
    ensures multiset(s)[x] == if x in s then 1 else 0
  {
    if s != [] {
      assert s == [s[0]] + s[1..];
      DistinctCount(s[1..], x);
    }
  }

  lemma {:induction false} CountDistinct<T>(s: seq<T>)
    requires forall x :: multiset(s)[x] <= 1
    ensures Distinct(s)
  {
    if s != [] {
      assert s == [s[0]] + s[1..];
      forall x
        ensures multiset(s[1..])[x] <= 1
      {
        assert multiset(s)[x] <= 1;
      }
      CountDistinct(s[1..]);
      assert multiset(s)[s[0]] == 1 + multiset(s[1..])[s[0]];
    }
  }

  /** Rearranging rows brings in no repeat. */
  lemma PermutationDistinct<T>(a: seq<T>, b: seq<T>)
    requires multiset(a) == multiset(b) && Distinct(a)
    ensures Distinct(b) && Elements(b) == Elements(a)
  {
    forall x
      ensures multiset(b)[x] <= 1
    {
      DistinctCount(a, x);
    }
    CountDistinct(b);
    assert forall x :: x in a <==> x in multiset(a);
    assert forall x :: x in b <==> x in multiset(b);
  }

  lemma SwapMultiset<T>(s: seq<T>, i: nat, j: nat)
    requires i < j < |s|
    ensures multiset(s[i := s[j]][j := s[i]]) == multiset(s)
  {
  }

  // ---------- duplicates dropped, first occurrence kept ----------

  function FirstOccurrences<T(==)>(s: seq<T>): (r: seq<T>)
    ensures Elements(r) == Elements(s)
    ensures Distinct(r)
  {
    if s == [] then [] else
    var init, last := s[..|s| - 1], s[|s| - 1];
    assert s == init + [last];
    assert Elements(s) == Elements(init) + {last};
    var r := FirstOccurrences(init);
    assert last in init <==> last in Elements(r);
    if last in init then r else r + [last]
  }

  /** Dropping repeats changes nothing exactly when there are none. */
  lemma {:induction false} FirstOccurrencesIdentity<T>(s: seq<T>)
    ensures FirstOccurrences(s) == s <==> Distinct(s)
  {
    if s != [] && Distinct(s) {
      var init, last := s[..|s| - 1], s[|s| - 1];
      FirstOccurrencesIdentity(init);
      assert last !in init;
      assert s == init + [last];
    }
  }
}
