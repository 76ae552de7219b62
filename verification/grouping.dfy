/** LINQ's `GroupBy(key).OrderByDescending(g => g.Count())` over a sequence of string keys: the
    groups come out in first-occurrence order, each with its size, and are then ranked by size
    with ties left in first-occurrence order. */
module Grouping {
  import opened Ranking

  /** How many times `k` occurs in `keys`. */
  function CountOf(keys: seq<string>, k: string): (r: nat)
    ensures r > 0 <==> k in keys
    ensures r <= |keys|
  {
    if |keys| == 0 then 0
    else CountOf(keys[..|keys| - 1], k) + (if keys[|keys| - 1] == k then 1 else 0)
  }

  /** The position of the first occurrence of `k`. */
  function FirstIndex(keys: seq<string>, k: string): (r: nat)
    requires k in keys
    ensures r < |keys| && keys[r] == k && k !in keys[..r]
  {
    if k in keys[..|keys| - 1] then FirstIndex(keys[..|keys| - 1], k) else |keys| - 1
  }

  /** One group: its key, its size and the position where the key first occurs. */
  datatype Group = Group(key: string, count: nat, firstSeen: nat)

  function SumCounts(gs: seq<Group>): nat {
    if |gs| == 0 then 0 else gs[0].count + SumCounts(gs[1..])
  }

  /** Each group describes its key exactly. */
  ghost predicate Exact(keys: seq<string>, gs: seq<Group>) {
    forall i :: 0 <= i < |gs| ==>
      && gs[i].key in keys
      && gs[i].count == CountOf(keys, gs[i].key)
      && gs[i].firstSeen == FirstIndex(keys, gs[i].key)
  }

  /** Every key of the input has a group. */
  ghost predicate Covers(keys: seq<string>, gs: seq<Group>) {
    forall k :: k in keys ==> exists i :: 0 <= i < |gs| && gs[i].key == k
  }

  /** `gs` is what `GroupBy` yields: exact groups covering every key, in first-occurrence order. */
  ghost predicate GroupsOf(keys: seq<string>, gs: seq<Group>) {
    && Exact(keys, gs)
    && Covers(keys, gs)
    && (forall i, j :: 0 <= i < j < |gs| ==> gs[i].firstSeen < gs[j].firstSeen)
  }

  /** Counts one more occurrence of `k`, seen at position `pos`: the first group of `k` grows by
      one, or a new group is appended at the end. */
  function Bump(gs: seq<Group>, k: string, pos: nat): (r: seq<Group>)
    ensures SumCounts(r) == SumCounts(gs) + 1
  {
    if |gs| == 0 then [Group(k, 1, pos)]
    else if gs[0].key == k then [gs[0].(count := gs[0].count + 1)] + gs[1..]
    else [gs[0]] + Bump(gs[1..], k, pos)
  }

  /** A key without a group gets a new group of size one at the end. */
  lemma {:induction false} BumpNew(gs: seq<Group>, k: string, pos: nat)
    requires forall i :: 0 <= i < |gs| ==> gs[i].key != k
    ensures Bump(gs, k, pos) == gs + [Group(k, 1, pos)]
  {
    if |gs| > 0 {
      BumpNew(gs[1..], k, pos);
      assert gs == [gs[0]] + gs[1..];
    }
  }

  /** A key whose first group is at `i` grows that group and changes nothing else. */
  lemma {:induction false} BumpFound(gs: seq<Group>, k: string, pos: nat, i: nat)
    requires i < |gs| && gs[i].key == k
    requires forall j :: 0 <= j < i ==> gs[j].key != k
    ensures Bump(gs, k, pos) == gs[i := gs[i].(count := gs[i].count + 1)]
  {
    if i > 0 {
      assert gs[0].key != k;
      BumpFound(gs[1..], k, pos, i - 1);
      UpdateBehindHead(gs, i, gs[i].(count := gs[i].count + 1));
    }
  }

  /** Updating past the head is updating the tail. */
  lemma UpdateBehindHead(gs: seq<Group>, i: nat, g: Group)
    requires 0 < i < |gs|
    ensures gs[i := g] == [gs[0]] + gs[1..][i - 1 := g]
  {
    var l, r := gs[i := g], [gs[0]] + gs[1..][i - 1 := g];
    assert |l| == |r|;
    forall j | 0 <= j < |l|
      ensures l[j] == r[j]
    {
      if j > 0 {
        assert r[j] == gs[1..][i - 1 := g][j - 1];
      }
    }
  }

  /** The groups of `keys` in order of first occurrence (`GroupBy`); their sizes add up to the
      number of keys. */
  function GroupBy(keys: seq<string>): (gs: seq<Group>)
    ensures GroupsOf(keys, gs)
    ensures SumCounts(gs) == |keys|
  {
    if |keys| == 0 then []
    else
      var prev := GroupBy(keys[..|keys| - 1]);
      BumpGroups(keys, prev);
      Bump(prev, keys[|keys| - 1], |keys| - 1)
  }

  /** Appending `k` to `init` leaves the count and the first position of every other key alone. */
  lemma AppendOther(init: seq<string>, k: string, x: string)
    requires x != k && x in init
    ensures CountOf(init + [k], x) == CountOf(init, x)
    ensures FirstIndex(init + [k], x) == FirstIndex(init, x)
  {
    assert (init + [k])[..|init|] == init;
  }

  /** Appending `k` to `init` adds one to its count and keeps its first position when it was
      already there. */
  lemma AppendSame(init: seq<string>, k: string)
    ensures CountOf(init + [k], k) == CountOf(init, k) + 1
    ensures k in init ==> FirstIndex(init + [k], k) == FirstIndex(init, k)
    ensures k !in init ==> FirstIndex(init + [k], k) == |init|
  {
    assert (init + [k])[..|init|] == init;
  }

  /** Counting the last key into the groups of the other keys gives the groups of all keys. */
  lemma BumpGroups(keys: seq<string>, gs: seq<Group>)
    requires |keys| > 0 && GroupsOf(keys[..|keys| - 1], gs)
    ensures GroupsOf(keys, Bump(gs, keys[|keys| - 1], |keys| - 1))
  {
    var init, k, pos := keys[..|keys| - 1], keys[|keys| - 1], |keys| - 1;
    assert keys == init + [k];
    AppendSame(init, k);
    if k in init {
      var i :| 0 <= i < |gs| && gs[i].key == k;
      BumpExisting(init, k, gs, i);
    } else {
      BumpFresh(init, k, gs);
    }
  }

  lemma BumpExisting(init: seq<string>, k: string, gs: seq<Group>, i: nat)
    requires GroupsOf(init, gs) && i < |gs| && gs[i].key == k
    ensures GroupsOf(init + [k], Bump(gs, k, |init|))
  {
    DistinctKeys(init, gs);
    BumpFound(gs, k, |init|, i);
    GrownExact(init, k, gs, i);
    GrownCovers(init, k, gs, i);
    GrownOrdered(gs, i);
  }

  /** Groups are in first-occurrence order, so no two have the same key. */
  lemma DistinctKeys(keys: seq<string>, gs: seq<Group>)
    requires GroupsOf(keys, gs)
    ensures forall a, b :: 0 <= a < |gs| && 0 <= b < |gs| && a != b ==> gs[a].key != gs[b].key
  {
    forall a, b | 0 <= a < |gs| && 0 <= b < |gs| && a != b
      ensures gs[a].key != gs[b].key
    {
      assert gs[a].firstSeen != gs[b].firstSeen;
    }
  }

  lemma GrownOrdered(gs: seq<Group>, i: nat)
    requires i < |gs|
    requires forall a, b :: 0 <= a < b < |gs| ==> gs[a].firstSeen < gs[b].firstSeen
    ensures var r := gs[i := gs[i].(count := gs[i].count + 1)];
      forall a, b :: 0 <= a < b < |r| ==> r[a].firstSeen < r[b].firstSeen
  {
    var r := gs[i := gs[i].(count := gs[i].count + 1)];
    assert forall a :: 0 <= a < |r| ==> r[a].firstSeen == gs[a].firstSeen;
  }

  lemma GrownExact(init: seq<string>, k: string, gs: seq<Group>, i: nat)
    requires Exact(init, gs) && i < |gs| && gs[i].key == k
    requires forall j :: 0 <= j < |gs| && j != i ==> gs[j].key != k
    ensures Exact(init + [k], gs[i := gs[i].(count := gs[i].count + 1)])
  {
    var r := gs[i := gs[i].(count := gs[i].count + 1)];
    AppendSame(init, k);
    forall j | 0 <= j < |r|
      ensures r[j].key in init + [k]
      ensures r[j].count == CountOf(init + [k], r[j].key) && r[j].firstSeen == FirstIndex(init + [k], r[j].key)
    {
      if j != i {
        AppendOther(init, k, gs[j].key);
      }
    }
  }

  lemma GrownCovers(init: seq<string>, k: string, gs: seq<Group>, i: nat)
    requires Covers(init, gs) && i < |gs| && gs[i].key == k
    ensures Covers(init + [k], gs[i := gs[i].(count := gs[i].count + 1)])
  {
    var r := gs[i := gs[i].(count := gs[i].count + 1)];
    forall x | x in init + [k]
      ensures exists j :: 0 <= j < |r| && r[j].key == x
    {
      if x in init {
        var j :| 0 <= j < |gs| && gs[j].key == x;
        assert r[j].key == x;
      } else {
        assert r[i].key == x;
      }
    }
  }

  lemma BumpFresh(init: seq<string>, k: string, gs: seq<Group>)
    requires GroupsOf(init, gs) && k !in init
    ensures GroupsOf(init + [k], Bump(gs, k, |init|))
  {
    assert forall i :: 0 <= i < |gs| ==> gs[i].key != k;
    BumpNew(gs, k, |init|);
    AppendedExact(init, k, gs);
    AppendedCovers(init, k, gs);
    AppendedOrdered(init, k, gs);
  }

  lemma AppendedExact(init: seq<string>, k: string, gs: seq<Group>)
    requires Exact(init, gs) && k !in init
    ensures Exact(init + [k], gs + [Group(k, 1, |init|)])
  {
    var r := gs + [Group(k, 1, |init|)];
    AppendSame(init, k);
    forall j | 0 <= j < |gs|
      ensures r[j].key in init + [k]
      ensures r[j].count == CountOf(init + [k], r[j].key) && r[j].firstSeen == FirstIndex(init + [k], r[j].key)
    {
      AppendOther(init, k, gs[j].key);
    }
  }

  lemma AppendedCovers(init: seq<string>, k: string, gs: seq<Group>)
    requires Covers(init, gs)
    ensures Covers(init + [k], gs + [Group(k, 1, |init|)])
  {
    var r := gs + [Group(k, 1, |init|)];
    forall x | x in init + [k]
      ensures exists j :: 0 <= j < |r| && r[j].key == x
    {
      if x in init {
        var j :| 0 <= j < |gs| && gs[j].key == x;
        assert r[j].key == x;
      } else {
        assert r[|gs|].key == x;
      }
    }
  }

  lemma AppendedOrdered(init: seq<string>, k: string, gs: seq<Group>)
    requires Exact(init, gs)
    requires forall a, b :: 0 <= a < b < |gs| ==> gs[a].firstSeen < gs[b].firstSeen
    ensures var r := gs + [Group(k, 1, |init|)];
      forall a, b :: 0 <= a < b < |r| ==> r[a].firstSeen < r[b].firstSeen
  {
    var r := gs + [Group(k, 1, |init|)];
    forall a, b | 0 <= a < b < |r|
      ensures r[a].firstSeen < r[b].firstSeen
    {
      if b < |gs| {
        assert gs[a].firstSeen < gs[b].firstSeen;
      } else {
        assert r[a].firstSeen == FirstIndex(init, gs[a].key) < |init|;
      }
    }
  }

  /** `gs` lists the groups of `keys` by decreasing size, equal sizes in first-occurrence order. */
  ghost predicate RankedGroupsOf(keys: seq<string>, gs: seq<Group>) {
    && Exact(keys, gs)
    && Covers(keys, gs)
    && (forall a, b :: 0 <= a < b < |gs| ==>
          gs[a].count > gs[b].count || (gs[a].count == gs[b].count && gs[a].firstSeen < gs[b].firstSeen))
    && SumCounts(gs) == |keys|
  }

  function AsRanked(gs: seq<Group>): (r: seq<Ranked<Group>>)
    ensures |r| == |gs|
    ensures forall i :: 0 <= i < |gs| ==> r[i] == Ranked(gs[i].count, gs[i].firstSeen, gs[i])
  {
    if |gs| == 0 then [] else [Ranked(gs[0].count, gs[0].firstSeen, gs[0])] + AsRanked(gs[1..])
  }

  function Items(rs: seq<Ranked<Group>>): (r: seq<Group>)
    ensures |r| == |rs|
    ensures forall i :: 0 <= i < |rs| ==> r[i] == rs[i].item
  {
    if |rs| == 0 then [] else [rs[0].item] + Items(rs[1..])
  }

  /** The groups of `keys` ranked by size, stably (`GroupBy(...).OrderByDescending(g => g.Count())`). */
  function CountRanking(keys: seq<string>): (gs: seq<Group>)
    ensures RankedGroupsOf(keys, gs)
  {
    var groups := GroupBy(keys);
    var sorted := SortDescending(AsRanked(groups));
    CountRankingCorrect(keys, groups, sorted);
    Items(sorted)
  }

  lemma CountRankingCorrect(keys: seq<string>, groups: seq<Group>, sorted: seq<Ranked<Group>>)
    requires GroupsOf(keys, groups) && SumCounts(groups) == |keys|
    requires sorted == SortDescending(AsRanked(groups))
    ensures RankedGroupsOf(keys, Items(sorted))
  {
    var rs := AsRanked(groups);
    assert RankIncreasing(rs);
    SortDescendingCorrect(rs);
    SortedEntries(groups, sorted);
    SortedExact(keys, groups, sorted);
    SortedCovers(keys, groups, sorted);
    SortedOrder(sorted);
    SortedSum(groups, sorted);
  }

  lemma SortedExact(keys: seq<string>, groups: seq<Group>, sorted: seq<Ranked<Group>>)
    requires Exact(keys, groups)
    requires forall i :: 0 <= i < |sorted| ==> sorted[i].item in groups
    ensures Exact(keys, Items(sorted))
  {
  }

  lemma SortedSum(groups: seq<Group>, sorted: seq<Ranked<Group>>)
    requires SumKeys(sorted) == SumKeys(AsRanked(groups))
    requires forall i :: 0 <= i < |sorted| ==> sorted[i].key == sorted[i].item.count
    ensures SumCounts(Items(sorted)) == SumCounts(groups)
  {
    var rs := AsRanked(groups);
    SumCountsOfItems(sorted);
    SumCountsOfItems(rs);
    assert Items(rs) == groups;
  }

  /** Every entry of the sorted sequence is the ranked form of one of the groups. */
  lemma SortedEntries(groups: seq<Group>, sorted: seq<Ranked<Group>>)
    requires multiset(sorted) == multiset(AsRanked(groups))
    ensures forall i :: 0 <= i < |sorted| ==>
      sorted[i].key == sorted[i].item.count && sorted[i].rank == sorted[i].item.firstSeen && sorted[i].item in groups
  {
    var rs := AsRanked(groups);
    forall i | 0 <= i < |sorted|
      ensures sorted[i].key == sorted[i].item.count && sorted[i].rank == sorted[i].item.firstSeen
      ensures sorted[i].item in groups
    {
      assert sorted[i] in multiset(rs);
      var j :| 0 <= j < |rs| && rs[j] == sorted[i];
    }
  }

  lemma SortedCovers(keys: seq<string>, groups: seq<Group>, sorted: seq<Ranked<Group>>)
    requires Covers(keys, groups)
    requires multiset(sorted) == multiset(AsRanked(groups))
    ensures Covers(keys, Items(sorted))
  {
    var rs := AsRanked(groups);
    var out := Items(sorted);
    forall k | k in keys
      ensures exists i :: 0 <= i < |out| && out[i].key == k
    {
      var j :| 0 <= j < |groups| && groups[j].key == k;
      assert rs[j] in multiset(sorted);
      var i :| 0 <= i < |sorted| && sorted[i] == rs[j];
      assert out[i].key == k;
    }
  }

  lemma SortedOrder(sorted: seq<Ranked<Group>>)
    requires Descending(sorted)
    requires forall i :: 0 <= i < |sorted| ==> sorted[i].key == sorted[i].item.count && sorted[i].rank == sorted[i].item.firstSeen
    ensures var gs := Items(sorted);
      forall a, b :: 0 <= a < b < |gs| ==>
        gs[a].count > gs[b].count || (gs[a].count == gs[b].count && gs[a].firstSeen < gs[b].firstSeen)
  {
    var gs := Items(sorted);
    forall a, b | 0 <= a < b < |gs|
      ensures gs[a].count > gs[b].count || (gs[a].count == gs[b].count && gs[a].firstSeen < gs[b].firstSeen)
    {
      assert Ahead(sorted[a], sorted[b]);
    }
  }

  lemma {:induction false} SumCountsOfItems(rs: seq<Ranked<Group>>)
    requires forall i :: 0 <= i < |rs| ==> rs[i].key == rs[i].item.count
    ensures SumCounts(Items(rs)) == SumKeys(rs)
  {
    if |rs| > 0 {
      SumCountsOfItems(rs[1..]);
      assert Items(rs)[1..] == Items(rs[1..]);
    }
  }
}
