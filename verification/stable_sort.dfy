/** A stable sort by descending key, as the standard library's `sort_by_key`
    with `Reverse` gives it. */
module StableSort {

  /** A value with the number it is sorted by. */
  datatype Keyed<T> = Keyed(key: nat, value: T)

  function InsertDescending<T>(x: Keyed<T>, s: seq<Keyed<T>>): (r: seq<Keyed<T>>)
    ensures |r| == |s| + 1
  {
    if s == [] || x.key >= s[0].key then [x] + s else [s[0]] + InsertDescending(x, s[1..])
  }

  function SortDescending<T>(s: seq<Keyed<T>>): (r: seq<Keyed<T>>)
    ensures |r| == |s|
  {
    if s == [] then [] else InsertDescending(s[0], SortDescending(s[1..]))
  }

  predicate Descending<T>(s: seq<Keyed<T>>) {
    forall i, j :: 0 <= i < j < |s| ==> s[i].key >= s[j].key
  }

  lemma {:induction false} InsertPermutes<T>(x: Keyed<T>, s: seq<Keyed<T>>)
    ensures multiset(InsertDescending(x, s)) == multiset(s) + multiset{x}
  {
    if s != [] && x.key < s[0].key {
      InsertPermutes(x, s[1..]);
      assert s == [s[0]] + s[1..];
    }
  }

  lemma InsertedFrom<T>(x: Keyed<T>, s: seq<Keyed<T>>, i: nat)
    requires i < |s| + 1
    ensures var y := InsertDescending(x, s)[i]; y == x || y in s
  {
    InsertPermutes(x, s);
    assert InsertDescending(x, s)[i] in multiset(InsertDescending(x, s));
  }

  lemma {:induction false} InsertSorts<T>(x: Keyed<T>, s: seq<Keyed<T>>)
    requires Descending(s)
    ensures Descending(InsertDescending(x, s))
  {
    if s != [] && x.key < s[0].key {
      var rest := InsertDescending(x, s[1..]);
      InsertSorts(x, s[1..]);
      forall i | 0 <= i < |rest|
        ensures rest[i].key <= s[0].key
      {
        InsertedFrom(x, s[1..], i);
      }
    }
  }

  lemma {:induction false} Sorts<T>(s: seq<Keyed<T>>)
    ensures Descending(SortDescending(s))
    ensures multiset(SortDescending(s)) == multiset(s)
  {
    if s != [] {
      Sorts(s[1..]);
      InsertSorts(s[0], SortDescending(s[1..]));
      InsertPermutes(s[0], SortDescending(s[1..]));
      assert s == [s[0]] + s[1..];
    }
  }

  function WithKey<T>(s: seq<Keyed<T>>, key: nat): seq<Keyed<T>> {
    if s == [] then []
    else (if s[0].key == key then [s[0]] else []) + WithKey(s[1..], key)
  }

  lemma {:induction false} InsertIsStable<T>(x: Keyed<T>, s: seq<Keyed<T>>, key: nat)
    requires Descending(s)
    ensures WithKey(InsertDescending(x, s), key) == WithKey([x] + s, key)
  {
    assert ([x] + s)[1..] == s;
    if s == [] || x.key >= s[0].key {
    } else {
      InsertIsStable(x, s[1..], key);
      var tail := InsertDescending(x, s[1..]);
      assert ([s[0]] + tail)[1..] == tail;
      assert ([x] + s[1..])[1..] == s[1..];
    }
  }

  /** Values with equal keys keep their order. */
  lemma {:induction false} SortIsStable<T>(s: seq<Keyed<T>>, key: nat)
    ensures WithKey(SortDescending(s), key) == WithKey(s, key)
  {
    if s != [] {
      var tail := SortDescending(s[1..]);
      SortIsStable(s[1..], key);
      Sorts(s[1..]);
      InsertIsStable(s[0], tail, key);
      assert ([s[0]] + tail)[1..] == tail;
    }
  }

  /** The first of a sorted list is the first of the largest. */
  lemma {:induction false} HeadIsFirstLargest<T>(s: seq<Keyed<T>>) returns (i: nat)
    requires s != []
    ensures i < |s| && SortDescending(s) != [] && SortDescending(s)[0] == s[i]
    ensures forall j :: 0 <= j < |s| ==> s[j].key <= s[i].key
    ensures forall j :: 0 <= j < i ==> s[j].key < s[i].key
  {
    i := 0;
    if |s| > 1 {
      var k := HeadIsFirstLargest(s[1..]);
      assert forall j :: 0 < j < |s| ==> s[j] == s[1..][j - 1];
      if s[0].key < s[k + 1].key {
        i := k + 1;
      }
    }
  }
}
