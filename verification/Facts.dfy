/** Facts as the store hands them out, the operations of a transaction, and
    filtering of fact lists. */
module Facts {

  datatype Option<+T> = None | Some(value: T)

  type Instant = int  // epoch milliseconds

  datatype Value =
    | StringValue(text: string)
    | NumberValue(number: real)
    | BooleanValue(flag: bool)
    | DateTimeValue(instant: Instant)
    | RefValue(target: string)
    | JsonValue(canonical: string)
    | BlobValue(hash: string, mimeType: string, size: int, filename: Option<string>)
    | SealedValue(valueType: string, keyId: string, ciphertext: string, blind: Option<string>)

  datatype Triple = Triple(
    id: string,
    entityId: string,
    attribute: string,
    value: Value,
    entityType: Option<string>,
    validFrom: Instant,
    validTo: Option<Instant>)

  datatype Pattern = Pattern(
    entityId: Option<string>,
    attribute: Option<string>,
    entityType: Option<string>,
    value: Option<Value>)

  datatype Op =
    | Assert(entityId: string, attribute: string, value: Value, entityType: Option<string>,
             validFrom: Option<Instant>, validTo: Option<Instant>)
    | Retract(id: string)
    | RetractPattern(pattern: Pattern)

  predicate ValidAt(validFrom: Instant, validTo: Option<Instant>, at: Instant) {
    validFrom <= at && (validTo.None? || validTo.value > at)
  }

  predicate VisibleAt(fact: Triple, at: Instant) {
    ValidAt(fact.validFrom, fact.validTo, at)
  }

  /** What makes two values the same value: sealed values compare by blind token
      only, and an unblinded sealed value is comparable to nothing else. */
  datatype ValueIdentity =
    | PlainIdentity(value: Value)
    | BlindIdentity(token: string)
    | UnblindedIdentity(factId: string)

  function IdentityOfValue(fact: Triple): ValueIdentity {
    match fact.value
    case SealedValue(_, _, _, Some(token)) => BlindIdentity(token)
    case SealedValue(_, _, _, None) => UnblindedIdentity(fact.id)
    case _ => PlainIdentity(fact.value)
  }

  ghost predicate DistinctIds(facts: seq<Triple>) {
    forall i, j :: 0 <= i < j < |facts| ==> facts[i].id != facts[j].id
  }

  ghost predicate Distinct<T>(s: seq<T>) {
    forall i, j :: 0 <= i < j < |s| ==> s[i] != s[j]
  }

  function Filter<T(!new)>(s: seq<T>, keep: T -> bool): (r: seq<T>)
    ensures forall x :: x in r <==> x in s && keep(x)
    ensures |r| <= |s|
  {
    if s == [] then []
    else if keep(s[0]) then [s[0]] + Filter(s[1..], keep)
    else Filter(s[1..], keep)
  }

  lemma {:induction false} FilterMultiset<T(!new)>(s: seq<T>, keep: T -> bool, x: T)
    ensures multiset(Filter(s, keep))[x] == if keep(x) then multiset(s)[x] else 0
  {
    if s != [] {
      assert s == [s[0]] + s[1..];
      FilterMultiset(s[1..], keep, x);
    }
  }

  lemma {:induction false} FilterAppend<T(!new)>(a: seq<T>, b: seq<T>, keep: T -> bool)
    ensures Filter(a + b, keep) == Filter(a, keep) + Filter(b, keep)
  {
    if a == [] {
      assert a + b == b;
    } else {
      assert (a + b)[1..] == a[1..] + b;
      FilterAppend(a[1..], b, keep);
    }
  }

  lemma FilterNext<T(!new)>(s: seq<T>, x: T, keep: T -> bool)
    ensures Filter(s + [x], keep) == Filter(s, keep) + if keep(x) then [x] else []
  {
    FilterAppend(s, [x], keep);
  }

  lemma FilterCons<T(!new)>(x: T, rest: seq<T>, keep: T -> bool)
    ensures Filter([x] + rest, keep) == if keep(x) then [x] + Filter(rest, keep) else Filter(rest, keep)
  {
    assert ([x] + rest)[1..] == rest;
  }

  lemma {:induction false} FilterTwice<T(!new)>(s: seq<T>, first: T -> bool, second: T -> bool, both: T -> bool)
    requires forall x | x in s :: both(x) == (first(x) && second(x))
    ensures Filter(Filter(s, first), second) == Filter(s, both)
  {
    if s != [] {
      FilterTwice(s[1..], first, second, both);
      assert s[0] in s;
      if first(s[0]) {
        FilterCons(s[0], Filter(s[1..], first), second);
      }
    }
  }

  lemma {:induction false} FilterNone<T(!new)>(s: seq<T>, keep: T -> bool)
    requires forall x | x in s :: !keep(x)
    ensures Filter(s, keep) == []
  {
    if s != [] {
      FilterNone(s[1..], keep);
    }
  }

  lemma {:induction false} FilterAll<T(!new)>(s: seq<T>, keep: T -> bool)
    requires forall x | x in s :: keep(x)
    ensures Filter(s, keep) == s
  {
    if s != [] {
      assert s[0] in s;
      FilterAll(s[1..], keep);
    }
  }

  lemma {:induction false} FilterSamePredicate<T(!new)>(s: seq<T>, p: T -> bool, q: T -> bool)
    requires forall x | x in s :: p(x) == q(x)
    ensures Filter(s, p) == Filter(s, q)
  {
    if s != [] {
      assert s[0] in s;
      FilterSamePredicate(s[1..], p, q);
    }
  }

  lemma FilterSameMultiset<T(!new)>(a: seq<T>, b: seq<T>, keep: T -> bool)
    requires multiset(a) == multiset(b)
    ensures multiset(Filter(a, keep)) == multiset(Filter(b, keep))
    ensures |Filter(a, keep)| == |Filter(b, keep)|
  {
    var ka, kb := Filter(a, keep), Filter(b, keep);
    forall x ensures multiset(ka)[x] == multiset(kb)[x] {
      FilterMultiset(a, keep, x);
      FilterMultiset(b, keep, x);
    }
    assert multiset(ka) == multiset(kb);
    assert |ka| == |multiset(ka)|;
    assert |kb| == |multiset(kb)|;
  }

  /** Filtering a list that has `extra` more elements leaves at most `extra` more. */
  lemma FilterExtra<T(!new)>(a: seq<T>, b: seq<T>, extra: multiset<T>, keep: T -> bool) returns (left: multiset<T>)
    requires multiset(a) == multiset(b) + extra
    ensures left <= extra
    ensures multiset(Filter(a, keep)) == multiset(Filter(b, keep)) + left
    ensures forall x :: x in left ==> keep(x)
  {
    left := multiset(Filter(a, keep)) - multiset(Filter(b, keep));
    forall x ensures left[x] == if keep(x) then extra[x] else 0 {
      FilterMultiset(a, keep, x);
      FilterMultiset(b, keep, x);
    }
    forall x ensures multiset(Filter(a, keep))[x] == (multiset(Filter(b, keep)) + left)[x] {
      FilterMultiset(a, keep, x);
      FilterMultiset(b, keep, x);
    }
  }

  /** The places below `n` that are wanted, in increasing order. */
  ghost predicate PlacesIn(places: seq<nat>, n: nat, wanted: nat -> bool) {
    && (forall i, j :: 0 <= i < j < |places| ==> places[i] < places[j])
    && (forall i: nat :: i in places <==> i < n && wanted(i))
  }

  lemma NextPlaces(places: seq<nat>, n: nat, wanted: nat -> bool)
    requires PlacesIn(places, n, wanted)
    ensures PlacesIn(if wanted(n) then places + [n] else places, n + 1, wanted)
  {
    forall i | 0 <= i < |places| ensures places[i] < n {
      assert places[i] in places;
    }
  }

  /** Each element once, in the order of its first occurrence. */
  function Deduplicate<T(!new)(==)>(s: seq<T>): (r: seq<T>)
    ensures forall x :: x in r <==> x in s
  {
    if s == [] then []
    else
      var n := |s| - 1;
      var earlier := Deduplicate(s[..n]);
      if s[n] in earlier then earlier else earlier + [s[n]]
  }
}
