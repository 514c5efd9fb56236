/** Strict orders, their lexicographic lift to sequences, stable sorting, and
    the one sorted listing of a finite set. */
module Orders {

  ghost predicate StrictTotal<T(!new)>(less: (T, T) -> bool) {
    && (forall x :: !less(x, x))
    && (forall x, y, z :: less(x, y) && less(y, z) ==> less(x, z))
    && (forall x, y :: x != y ==> less(x, y) || less(y, x))
  }

  ghost predicate StrictTotalOn<T>(less: (T, T) -> bool, s: set<T>) {
    && (forall x | x in s :: !less(x, x))
    && (forall x, y, z | x in s && y in s && z in s :: less(x, y) && less(y, z) ==> less(x, z))
    && (forall x, y | x in s && y in s :: x != y ==> less(x, y) || less(y, x))
  }

  ghost predicate StrictlySorted<T>(less: (T, T) -> bool, s: seq<T>) {
    forall i, j :: 0 <= i < j < |s| ==> less(s[i], s[j])
  }

  /** Lexicographic lift of an element order; a proper prefix comes first. */
  predicate LexLess<T(==)>(less: (T, T) -> bool, a: seq<T>, b: seq<T>) {
    if b == [] then false
    else if a == [] then true
    else less(a[0], b[0]) || (a[0] == b[0] && LexLess(less, a[1..], b[1..]))
  }

  lemma {:induction false} LexIrreflexive<T(!new)>(less: (T, T) -> bool, a: seq<T>)
    requires StrictTotal(less)
    ensures !LexLess(less, a, a)
  {
    if a != [] {
      LexIrreflexive(less, a[1..]);
    }
  }

  lemma {:induction false} LexTransitive<T(!new)>(less: (T, T) -> bool, a: seq<T>, b: seq<T>, c: seq<T>)
    requires StrictTotal(less)
    requires LexLess(less, a, b) && LexLess(less, b, c)
    ensures LexLess(less, a, c)
  {
    if a != [] && a[0] == b[0] && b[0] == c[0] {
      assert !less(a[0], a[0]);
      LexTransitive(less, a[1..], b[1..], c[1..]);
    }
  }

  lemma {:induction false} LexConnected<T(!new)>(less: (T, T) -> bool, a: seq<T>, b: seq<T>)
    requires StrictTotal(less)
    requires a != b
    ensures LexLess(less, a, b) || LexLess(less, b, a)
  {
    if a != [] && b != [] && a[0] == b[0] {
      assert a == [a[0]] + a[1..] && b == [b[0]] + b[1..];
      LexConnected(less, a[1..], b[1..]);
    }
  }

  /** The lift of a strict total order is one, on any set of sequences. */
  lemma LexStrictTotalOn<T(!new)>(less: (T, T) -> bool, lex: (seq<T>, seq<T>) -> bool, s: set<seq<T>>)
    requires StrictTotal(less)
    requires forall a, b | a in s && b in s :: lex(a, b) == LexLess(less, a, b)
    ensures StrictTotalOn(lex, s)
  {
    forall a | a in s ensures !lex(a, a) {
      LexIrreflexive(less, a);
    }
    forall a, b, c | a in s && b in s && c in s && lex(a, b) && lex(b, c) ensures lex(a, c) {
      LexTransitive(less, a, b, c);
    }
    forall a, b | a in s && b in s && a != b ensures lex(a, b) || lex(b, a) {
      LexConnected(less, a, b);
    }
  }

  ghost predicate IsLeast<T>(less: (T, T) -> bool, s: set<T>, m: T) {
    m in s && forall y | y in s :: y != m ==> less(m, y)
  }

  lemma {:induction false} LeastExists<T(!new)>(less: (T, T) -> bool, s: set<T>)
    requires StrictTotalOn(less, s) && s != {}
    ensures exists m :: IsLeast(less, s, m)
    decreases |s|
  {
    var x :| x in s;
    var rest := s - {x};
    if rest == {} {
      assert s == {x};
      assert IsLeast(less, s, x);
    } else {
      LeastExists(less, rest);
      var m :| IsLeast(less, rest, m);
      assert IsLeast(less, s, if less(x, m) then x else m);
    }
  }

  /** The elements of `s` in increasing order. */
  ghost function Listing<T(!new)>(less: (T, T) -> bool, s: set<T>): (r: seq<T>)
    requires StrictTotalOn(less, s)
    ensures StrictlySorted(less, r)
    ensures forall x :: x in r <==> x in s
    ensures |r| == |s|
    decreases |s|
  {
    if s == {} then []
    else
      LeastExists(less, s);
      var m :| IsLeast(less, s, m);
      var rest := Listing(less, s - {m});
      assert forall j | 0 <= j < |rest| :: rest[j] in rest && rest[j] in s - {m};
      [m] + rest
  }

  /** A finite set has only one strictly increasing listing. */
  lemma {:induction false} ListingUnique<T(!new)>(less: (T, T) -> bool, s: set<T>, a: seq<T>, b: seq<T>)
    requires StrictTotalOn(less, s)
    requires StrictlySorted(less, a) && StrictlySorted(less, b)
    requires forall x :: x in a <==> x in s
    requires forall x :: x in b <==> x in s
    ensures a == b
    decreases |a|
  {
    if a == [] {
      assert forall j | 0 <= j < |b| :: b[j] in b;
    } else {
      assert a[0] in b;
      assert b[0] in a;
      assert a[0] == b[0];
      var rest := s - {a[0]};
      forall x ensures x in a[1..] <==> x in rest { TailElements(less, s, a, x); }
      forall x ensures x in b[1..] <==> x in rest { TailElements(less, s, b, x); }
      ListingUnique(less, rest, a[1..], b[1..]);
    }
  }

  lemma TailElements<T(!new)>(less: (T, T) -> bool, s: set<T>, a: seq<T>, x: T)
    requires StrictTotalOn(less, s) && StrictlySorted(less, a) && a != []
    requires forall y :: y in a <==> y in s
    ensures x in a[1..] <==> x in s - {a[0]}
  {
    if x in a[1..] {
      var k :| 0 <= k < |a[1..]| && a[1..][k] == x;
      assert less(a[0], a[k + 1]) && a[k + 1] == x;
    } else {
      assert a == [a[0]] + a[1..];
    }
  }

  lemma EarlierNotAfter<T(!new)>(less: (T, T) -> bool, rows: set<T>, list: seq<T>, m: nat, i: nat)
    requires StrictTotalOn(less, rows) && StrictlySorted(less, list)
    requires forall x :: x in list <==> x in rows
    requires i < m <= |list|
    ensures !less(list[m - 1], list[i])
  {
    assert list[i] in rows && list[m - 1] in rows;
    if i < m - 1 { assert less(list[i], list[m - 1]); }
  }

  lemma RestIndex<T(!new)>(less: (T, T) -> bool, rows: set<T>, list: seq<T>, m: nat, i: nat)
    requires StrictTotalOn(less, rows) && StrictlySorted(less, list)
    requires forall x :: x in list <==> x in rows
    requires 1 <= m <= |list| && i < |list| && less(list[m - 1], list[i])
    ensures i >= m
  {
    if i < m { EarlierNotAfter(less, rows, list, m, i); }
  }

  /** The rows after the m-th of a listing, listed, are the rest of the listing. */
  lemma RestOfListing<T(!new)>(less: (T, T) -> bool, rows: set<T>, list: seq<T>, m: nat, later: set<T>)
    requires StrictTotalOn(less, rows) && StrictlySorted(less, list)
    requires forall x :: x in list <==> x in rows
    requires 1 <= m <= |list| && later == set r | r in rows && less(list[m - 1], r)
    ensures StrictTotalOn(less, later) && Listing(less, later) == list[m..]
  {
    forall x ensures x in list[m..] <==> x in later {
      if x in later {
        var i :| 0 <= i < |list| && list[i] == x;
        RestIndex(less, rows, list, m, i);
        assert list[m..][i - m] == x;
      }
      if x in list[m..] {
        var i :| 0 <= i < |list[m..]| && list[m..][i] == x;
        assert less(list[m - 1], list[m + i]);
      }
    }
    ListingUnique(less, later, Listing(less, later), list[m..]);
  }

  /** An order in which ties are allowed but are transitive. */
  ghost predicate StrictWeak<T(!new)>(less: (T, T) -> bool) {
    && (forall x :: !less(x, x))
    && (forall x, y, z :: less(x, y) && less(y, z) ==> less(x, z))
    && (forall x, y, z :: less(x, z) ==> less(x, y) || less(y, z))
  }

  ghost predicate NonDecreasing<T>(less: (T, T) -> bool, s: seq<T>) {
    forall i, j :: 0 <= i < j < |s| ==> !less(s[j], s[i])
  }

  function InsertInto<T(!new)>(less: (T, T) -> bool, x: T, s: seq<T>): (r: seq<T>)
    ensures multiset(r) == multiset(s) + multiset{x}
    ensures forall y :: y in r <==> y == x || y in s
  {
    if s == [] || less(x, s[0]) then
      assert [x] + s == [x] + s;
      [x] + s
    else
      assert s == [s[0]] + s[1..];
      [s[0]] + InsertInto(less, x, s[1..])
  }

  lemma NotBefore<T(!new)>(less: (T, T) -> bool, x: T, first: T, later: T)
    requires StrictWeak(less) && less(x, first) && !less(later, first)
    ensures !less(later, x)
  {
  }

  lemma {:induction false} InsertKeepsOrder<T(!new)>(less: (T, T) -> bool, x: T, s: seq<T>)
    requires StrictWeak(less) && NonDecreasing(less, s)
    ensures NonDecreasing(less, InsertInto(less, x, s))
  {
    if s != [] {
      if less(x, s[0]) {
        forall j | 0 <= j < |s| ensures !less(s[j], x) {
          NotBefore(less, x, s[0], s[j]);
        }
      } else {
        InsertKeepsOrder(less, x, s[1..]);
        var rest := InsertInto(less, x, s[1..]);
        forall j | 0 <= j < |rest| ensures !less(rest[j], s[0]) {
          assert rest[j] in rest;
          if rest[j] != x {
            var k :| 0 <= k < |s[1..]| && s[1..][k] == rest[j];
            assert s[k + 1] == rest[j];
          }
        }
      }
    }
  }

  /** Stable sort: elements that tie keep the order they came in. */
  function SortBy<T(!new)>(less: (T, T) -> bool, s: seq<T>): (r: seq<T>)
    ensures multiset(r) == multiset(s)
    ensures forall y :: y in r <==> y in s
  {
    if s == [] then []
    else
      var n := |s| - 1;
      assert s == s[..n] + [s[n]];
      InsertInto(less, s[n], SortBy(less, s[..n]))
  }

  lemma {:induction false} SortBySorts<T(!new)>(less: (T, T) -> bool, s: seq<T>)
    requires StrictWeak(less)
    ensures NonDecreasing(less, SortBy(less, s))
  {
    if s != [] {
      SortBySorts(less, s[..|s| - 1]);
      InsertKeepsOrder(less, s[|s| - 1], SortBy(less, s[..|s| - 1]));
    }
  }

  lemma FirstDoesNotFollow<T(!new)>(less: (T, T) -> bool, a: seq<T>, b: seq<T>)
    requires NonDecreasing(less, a) && multiset(a) == multiset(b) && a != [] && b != []
    requires !less(a[0], a[0])
    ensures !less(b[0], a[0])
  {
    assert b[0] in multiset(a);
    var j :| 0 <= j < |a| && a[j] == b[0];
  }

  lemma SameTails<T(!new)>(a: seq<T>, b: seq<T>)
    requires multiset(a) == multiset(b) && a != [] && b != [] && a[0] == b[0]
    ensures multiset(a[1..]) == multiset(b[1..])
  {
    assert a == [a[0]] + a[1..] && b == [b[0]] + b[1..];
    assert multiset(a[1..]) == multiset(a) - multiset{a[0]} == multiset(b[1..]);
  }

  /** Two sorted arrangements of one collection agree when only equal elements tie. */
  lemma {:induction false} SortedUnique<T(!new)>(less: (T, T) -> bool, a: seq<T>, b: seq<T>)
    requires NonDecreasing(less, a) && NonDecreasing(less, b)
    requires multiset(a) == multiset(b) && forall x :: !less(x, x)
    requires forall x, y | x in a && y in a && !less(x, y) && !less(y, x) :: x == y
    ensures a == b
    decreases |a|
  {
    assert |a| == |multiset(a)| == |multiset(b)| == |b|;
    if a != [] {
      FirstDoesNotFollow(less, a, b);
      FirstDoesNotFollow(less, b, a);
      assert a[0] == b[0] by { assert b[0] in multiset(a) && a[0] in a && b[0] in a; }
      SameTails(a, b);
      assert forall x | x in a[1..] :: x in a;
      SortedUnique(less, a[1..], b[1..]);
      assert a == [a[0]] + a[1..] && b == [b[0]] + b[1..];
    }
  }
}
