/** LINQ's `OrderByDescending` as the tool uses it: a stable sort by a descending integer key.
    Each item is paired with a rank that strictly increases along the input, so that "stable"
    can be stated as "equal keys keep increasing rank". */
module Ranking {

  /** An item with its sort key and its position-like rank in the input. */
  datatype Ranked<T> = Ranked(key: int, rank: int, item: T)

  /** `a` is ordered before `b`: the larger key first, and for equal keys the earlier rank first. */
  predicate Ahead<T>(a: Ranked<T>, b: Ranked<T>) {
    a.key > b.key || (a.key == b.key && a.rank < b.rank)
  }

  /** The ranks strictly increase along `s`. */
  predicate RankIncreasing<T>(s: seq<Ranked<T>>) {
    forall i, j :: 0 <= i < j < |s| ==> s[i].rank < s[j].rank
  }

  /** Every element is ordered before every later one. */
  predicate Descending<T>(s: seq<Ranked<T>>) {
    forall i, j :: 0 <= i < j < |s| ==> Ahead(s[i], s[j])
  }

  function SumKeys<T>(s: seq<Ranked<T>>): int {
    if |s| == 0 then 0 else s[0].key + SumKeys(s[1..])
  }

  /** One step of the stable insertion sort: `x` goes after every element whose key is at least
      its own, i.e. before the first element with a smaller key. */
  function Insert<T>(x: Ranked<T>, s: seq<Ranked<T>>): seq<Ranked<T>> {
    if |s| == 0 then [x]
    else if s[0].key >= x.key then [s[0]] + Insert(x, s[1..])
    else [x] + s
  }

  /** Stable sort by descending key: each element in input order is inserted behind the ones
      already placed that have a key at least as large. */
  function SortDescending<T>(s: seq<Ranked<T>>): seq<Ranked<T>> {
    if |s| == 0 then [] else Insert(s[|s| - 1], SortDescending(s[..|s| - 1]))
  }

  lemma {:induction false} InsertKeepsElements<T>(x: Ranked<T>, s: seq<Ranked<T>>)
    ensures multiset(Insert(x, s)) == multiset(s) + multiset{x}
    ensures SumKeys(Insert(x, s)) == SumKeys(s) + x.key
  {
    if |s| > 0 && s[0].key >= x.key {
      InsertKeepsElements(x, s[1..]);
      assert s == [s[0]] + s[1..];
    }
  }

  /** Inserting an element of larger rank than all the others keeps the order. */
  lemma {:induction false} InsertDescending<T>(x: Ranked<T>, s: seq<Ranked<T>>)
    requires Descending(s)
    requires forall i :: 0 <= i < |s| ==> s[i].rank < x.rank
    ensures Descending(Insert(x, s))
  {
    if |s| == 0 {
    } else if s[0].key >= x.key {
      InsertDescending(x, s[1..]);
      HeadAheadOfInsert(x, s);
      ConsDescending(s[0], Insert(x, s[1..]));
    } else {
      forall j | 0 <= j < |s|
        ensures Ahead(x, s[j])
      {
        assert j > 0 ==> Ahead(s[0], s[j]);
      }
      ConsDescending(x, s);
    }
  }

  /** An element ahead of every element of a descending sequence can be put in front of it. */
  lemma ConsDescending<T>(a: Ranked<T>, rest: seq<Ranked<T>>)
    requires Descending(rest)
    requires forall j :: 0 <= j < |rest| ==> Ahead(a, rest[j])
    ensures Descending([a] + rest)
  {
    var s := [a] + rest;
    forall i, j | 0 <= i < j < |s|
      ensures Ahead(s[i], s[j])
    {
      assert s[j] == rest[j - 1];
      assert i > 0 ==> s[i] == rest[i - 1];
    }
  }

  /** The head of a descending sequence stays ahead of everything when a later-ranked element with
      no larger key is inserted into its tail. */
  lemma HeadAheadOfInsert<T>(x: Ranked<T>, s: seq<Ranked<T>>)
    requires |s| > 0 && Descending(s) && s[0].key >= x.key
    requires forall i :: 0 <= i < |s| ==> s[i].rank < x.rank
    ensures forall j :: 0 <= j < |Insert(x, s[1..])| ==> Ahead(s[0], Insert(x, s[1..])[j])
  {
    var rest := Insert(x, s[1..]);
    InsertKeepsElements(x, s[1..]);
    forall j | 0 <= j < |rest|
      ensures Ahead(s[0], rest[j])
    {
      assert rest[j] in multiset(rest);
      if rest[j] != x {
        assert rest[j] in multiset(s[1..]);
        var k :| 0 <= k < |s| - 1 && s[1..][k] == rest[j];
        assert s[k + 1] == rest[j];
      }
    }
  }

  lemma SumKeysAppend<T>(s: seq<Ranked<T>>, x: Ranked<T>)
    ensures SumKeys(s + [x]) == SumKeys(s) + x.key
  {
    if |s| > 0 {
      assert (s + [x])[1..] == s[1..] + [x];
    }
  }

  /** The sort is a permutation that keeps the sum of the keys and leaves the sequence in
      descending key order with equal keys in increasing rank, i.e. in input order. */
  lemma {:induction false} SortDescendingCorrect<T>(s: seq<Ranked<T>>)
    requires RankIncreasing(s)
    ensures multiset(SortDescending(s)) == multiset(s)
    ensures |SortDescending(s)| == |s|
    ensures Descending(SortDescending(s))
    ensures SumKeys(SortDescending(s)) == SumKeys(s)
  {
    if |s| > 0 {
      var init, last := s[..|s| - 1], s[|s| - 1];
      assert s == init + [last];
      assert RankIncreasing(init);
      var sorted := SortDescending(init);
      SortDescendingCorrect(init);
      forall i | 0 <= i < |sorted|
        ensures sorted[i].rank < last.rank
      {
        assert sorted[i] in multiset(init);
        var k :| 0 <= k < |init| && init[k] == sorted[i];
        assert s[k] == init[k];
      }
      InsertKeepsElements(last, sorted);
      InsertDescending(last, sorted);
      assert multiset(s) == multiset(init) + multiset{last};
      SumKeysAppend(init, last);
    }
  }
}
