/** What Go's `sort` package promises for a key of byte strings: a permutation in ascending order.
    Nothing is said about the order of equal keys. */
module Sorting {
  import opened Text

  predicate Ascending<T>(key: T -> string, items: seq<T>) {
    forall i, j :: 0 <= i < j < |items| ==> NotAfter(key(items[i]), key(items[j]))
  }

  function Inserted<T>(key: T -> string, x: T, sorted: seq<T>): seq<T> {
    if sorted == [] || NotAfter(key(x), key(sorted[0])) then [x] + sorted
    else [sorted[0]] + Inserted(key, x, sorted[1..])
  }

  lemma {:induction false} InsertedKeepsItems<T>(key: T -> string, x: T, sorted: seq<T>)
    ensures multiset(Inserted(key, x, sorted)) == multiset(sorted) + multiset{x}
  {
    if sorted != [] {
      InsertedKeepsItems(key, x, sorted[1..]);
      assert sorted == [sorted[0]] + sorted[1..];
    }
  }

  /** An item in front of an ascending list that does not come after any of it. */
  lemma FrontAscends<T>(key: T -> string, x: T, rest: seq<T>)
    requires Ascending(key, rest)
    requires forall k :: 0 <= k < |rest| ==> NotAfter(key(x), key(rest[k]))
    ensures Ascending(key, [x] + rest)
  {
  }

  lemma LeastOfAscending<T>(key: T -> string, x: T, sorted: seq<T>)
    requires Ascending(key, sorted)
    requires sorted == [] || NotAfter(key(x), key(sorted[0]))
    ensures forall k :: 0 <= k < |sorted| ==> NotAfter(key(x), key(sorted[k]))
  {
    forall k | 1 <= k < |sorted| ensures NotAfter(key(x), key(sorted[k])) {
      NotAfterTransitive(key(x), key(sorted[0]), key(sorted[k]));
    }
  }

  lemma {:induction false} InsertedAscends<T>(key: T -> string, x: T, sorted: seq<T>)
    requires Ascending(key, sorted)
    ensures Ascending(key, Inserted(key, x, sorted))
  {
    if sorted == [] || NotAfter(key(x), key(sorted[0])) {
      LeastOfAscending(key, x, sorted);
      FrontAscends(key, x, sorted);
    } else {
      var rest := Inserted(key, x, sorted[1..]);
      InsertedAscends(key, x, sorted[1..]);
      InsertedKeepsItems(key, x, sorted[1..]);
      BeforeTotal(key(x), key(sorted[0]));
      forall k | 0 <= k < |rest| ensures NotAfter(key(sorted[0]), key(rest[k])) {
        assert rest[k] in multiset(rest);
        assert rest[k] == x || rest[k] in sorted[1..];
      }
      FrontAscends(key, sorted[0], rest);
    }
  }

  /** Stands for `sort.Slice` and `sort.Strings`. */
  method SortBy<T>(key: T -> string, items: seq<T>) returns (sorted: seq<T>)
    ensures multiset(sorted) == multiset(items) && Ascending(key, sorted)
  {
    sorted := [];
    for i := 0 to |items|
      invariant multiset(sorted) == multiset(items[..i]) && Ascending(key, sorted)
    {
      InsertedAscends(key, items[i], sorted);
      InsertedKeepsItems(key, items[i], sorted);
      assert items[..i + 1] == items[..i] + [items[i]];
      sorted := Inserted(key, items[i], sorted);
    }
    assert items[..|items|] == items;
  }
}
