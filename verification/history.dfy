/** The query history: saving an entry, clearing, the console's delete-by-number prompt, and the
    windows' history grid, which shows the newest 100 entries. */
module History {
  import opened Prelude
  import opened Text
  import opened Dns
  import opened Ranking

  /** `SaveToHistory`: one entry at the end, stamped with the caller's clock reading `now`. */
  function SaveToHistory(h: seq<HistoryEntry>, recordType: string, query: string, elapsedMs: int, details: string, now: int): (r: seq<HistoryEntry>)
    ensures |r| == |h| + 1 && r[..|h|] == h
    ensures r[|h|].recordType == recordType && r[|h|].query == query && r[|h|].details == details
    ensures r[|h|].timestamp == now && r[|h|].elapsedMs == elapsedMs
  {
    h + [HistoryEntry(recordType, query, now, elapsedMs, details)]
  }

  /** The "Clear History" button. */
  function Clear(h: seq<HistoryEntry>): (r: seq<HistoryEntry>)
    ensures |r| == 0
  {
    []
  }

  /** The history without the entry at position `p`; the others keep their order. */
  function RemoveAt(h: seq<HistoryEntry>, p: nat): (r: seq<HistoryEntry>)
    requires p < |h|
    ensures |r| == |h| - 1
    ensures forall i :: 0 <= i < p ==> r[i] == h[i]
    ensures forall i :: p <= i < |r| ==> r[i] == h[i + 1]
    ensures multiset(r) + multiset{h[p]} == multiset(h)
  {
    assert h == h[..p] + [h[p]] + h[p + 1..];
    h[..p] + h[p + 1..]
  }

  /** The number the console's history listing prints in front of the entry at position `i`. */
  function ListingLabel(i: nat): nat {
    i + 1
  }

  /** The console's delete prompt: a number `k` with 1 <= k <= Count removes the entry at position
      Count - k; anything else, an empty line or end of input included, changes nothing. An empty
      history is listed as empty and not prompted for. */
  function DeleteByLabel(h: seq<HistoryEntry>, input: Option<string>): (r: seq<HistoryEntry>)
    ensures |r| == |h| || |r| == |h| - 1
    ensures |r| == |h| <==> r == h
    ensures |r| < |h| <==> exists k :: 1 <= k <= |h| && TryParseInt(input) == Some(k)
    ensures forall k :: 1 <= k <= |h| && TryParseInt(input) == Some(k) ==> r == RemoveAt(h, |h| - k)
  {
    if |h| == 0 then h
    else
      match TryParseInt(input)
      case Some(k) => if 1 <= k <= |h| then RemoveAt(h, |h| - k) else h
      case None => h
  }

  /** Saving an entry and then typing 1 at the delete prompt gives the history back. */
  lemma DeleteOneUndoesSave(h: seq<HistoryEntry>, recordType: string, query: string, elapsedMs: int, details: string, now: int)
    ensures DeleteByLabel(SaveToHistory(h, recordType, query, elapsedMs, details, now), Some("1")) == h
  {
    TryParseIntOfNatToString(1);
    assert NatToString(1) == "1";
  }

  /** As written, typing the number printed in front of entry `i` deletes the entry on the mirror
      position, Count - 1 - i. */
  lemma ShownLabelDeletesMirrorEntry(h: seq<HistoryEntry>, i: nat)
    requires i < |h| <= Int32Max
    ensures DeleteByLabel(h, Some(NatToString(ListingLabel(i)))) == RemoveAt(h, |h| - 1 - i)
  {
    TryParseIntOfNatToString(i + 1);
  }

  /** With two different entries, typing the "2" printed in front of the newer one deletes the
      older one. */
  lemma ShownLabelDeletesWrongEntry(older: HistoryEntry, newer: HistoryEntry)
    requires older != newer
    ensures ListingLabel(1) == 2
    ensures DeleteByLabel([older, newer], Some("2")) == [newer]
    ensures DeleteByLabel([older, newer], Some("2")) != RemoveAt([older, newer], 1)
  {
    TryParseIntOfNatToString(2);
    assert NatToString(2) == "2";
  }

  /** The delete prompt as the listing presents it: the number `k` printed in front of an entry
      removes that entry, at position k - 1. */
  function DeleteByShownLabel(h: seq<HistoryEntry>, input: Option<string>): (r: seq<HistoryEntry>)
    ensures |r| == |h| || |r| == |h| - 1
    ensures |r| == |h| <==> r == h
    ensures |r| < |h| <==> exists k :: 1 <= k <= |h| && TryParseInt(input) == Some(k)
    ensures forall k :: 1 <= k <= |h| && TryParseInt(input) == Some(k) ==> r == RemoveAt(h, k - 1)
  {
    if |h| == 0 then h
    else
      match TryParseInt(input)
      case Some(k) => if 1 <= k <= |h| then RemoveAt(h, k - 1) else h
      case None => h
  }

  /** Typing the number printed in front of entry `i` removes exactly entry `i`. */
  lemma ShownLabelDeletesThatEntry(h: seq<HistoryEntry>, i: nat)
    requires i < |h| <= Int32Max
    ensures DeleteByShownLabel(h, Some(NatToString(ListingLabel(i)))) == RemoveAt(h, i)
  {
    TryParseIntOfNatToString(i + 1);
  }

  /** How many rows the history grid shows at most. */
  const ViewLimit: nat := 100

  /** In the grid, the entry at position `p` comes before the one at `q`: newer timestamp first,
      and for equal timestamps the earlier position first (OrderByDescending is stable). */
  predicate ShownBefore(h: seq<HistoryEntry>, p: nat, q: nat)
    requires p < |h| && q < |h|
  {
    h[p].timestamp > h[q].timestamp || (h[p].timestamp == h[q].timestamp && p < q)
  }

  /** Each position of the history, keyed by its timestamp and ranked by the position itself. */
  function Indexed(h: seq<HistoryEntry>): (r: seq<Ranked<nat>>)
    ensures |r| == |h|
    ensures forall i :: 0 <= i < |h| ==> r[i] == Ranked(h[i].timestamp, i, i)
  {
    seq(|h|, i requires 0 <= i < |h| => Ranked(h[i].timestamp, i, i))
  }

  function ItemsOf(rs: seq<Ranked<nat>>): (r: seq<nat>)
    ensures |r| == |rs| && forall k :: 0 <= k < |rs| ==> r[k] == rs[k].item
  {
    seq(|rs|, k requires 0 <= k < |rs| => rs[k].item)
  }

  /** The positions of `OrderByDescending(h => h.Timestamp).Take(100)`. */
  function RecentPositions(h: seq<HistoryEntry>): (ps: seq<nat>)
    ensures |ps| == Min(ViewLimit, |h|)
    ensures forall i :: 0 <= i < |ps| ==> ps[i] < |h|
    ensures forall i, j :: 0 <= i < j < |ps| ==> ShownBefore(h, ps[i], ps[j])
    ensures forall p: nat, i :: p < |h| && p !in ps && 0 <= i < |ps| ==> ShownBefore(h, ps[i], p)
    ensures |h| <= ViewLimit ==> forall p: nat :: p < |h| ==> p in ps
  {
    var sorted := SortDescending(Indexed(h));
    SortedPositions(h, sorted);
    var all := ItemsOf(sorted);
    var ps := Take(all, ViewLimit);
    RecentPositionsCorrect(h, sorted, all, ps);
    ps
  }

  /** The stable sort of the indexed history holds every position once, each with its own
      timestamp, in grid order. */
  lemma SortedPositions(h: seq<HistoryEntry>, sorted: seq<Ranked<nat>>)
    requires sorted == SortDescending(Indexed(h))
    ensures |sorted| == |h|
    ensures forall k :: 0 <= k < |sorted| ==> sorted[k].item < |h| && sorted[k] == Indexed(h)[sorted[k].item]
    ensures forall p: nat :: p < |h| ==> p in ItemsOf(sorted)
    ensures Descending(sorted)
  {
    var ix := Indexed(h);
    assert RankIncreasing(ix);
    SortDescendingCorrect(ix);
    forall k | 0 <= k < |sorted|
      ensures sorted[k].item < |h| && sorted[k] == ix[sorted[k].item]
    {
      assert sorted[k] in multiset(ix);
      var i :| 0 <= i < |ix| && ix[i] == sorted[k];
    }
    forall p: nat | p < |h|
      ensures p in ItemsOf(sorted)
    {
      assert ix[p] in multiset(sorted);
      var k :| 0 <= k < |sorted| && sorted[k] == ix[p];
      assert ItemsOf(sorted)[k] == p;
    }
  }

  lemma RecentPositionsCorrect(h: seq<HistoryEntry>, sorted: seq<Ranked<nat>>, all: seq<nat>, ps: seq<nat>)
    requires |sorted| == |h|
    requires forall k :: 0 <= k < |sorted| ==> sorted[k].item < |h| && sorted[k] == Indexed(h)[sorted[k].item]
    requires forall p: nat :: p < |h| ==> p in ItemsOf(sorted)
    requires Descending(sorted)
    requires all == ItemsOf(sorted)
    requires ps == Take(all, ViewLimit)
    ensures forall i :: 0 <= i < |ps| ==> ps[i] < |h|
    ensures forall i, j :: 0 <= i < j < |ps| ==> ShownBefore(h, ps[i], ps[j])
    ensures forall p: nat, i :: p < |h| && p !in ps && 0 <= i < |ps| ==> ShownBefore(h, ps[i], p)
    ensures |h| <= ViewLimit ==> forall p: nat :: p < |h| ==> p in ps
  {
    forall a, b | 0 <= a < b < |sorted|
      ensures ShownBefore(h, all[a], all[b])
    {
      assert Ahead(sorted[a], sorted[b]);
    }
    forall p: nat, i | p < |h| && p !in ps && 0 <= i < |ps|
      ensures ShownBefore(h, ps[i], p)
    {
      assert p in all;
      var k :| 0 <= k < |all| && all[k] == p;
      assert all[k] == p;
    }
    if |h| <= ViewLimit {
      forall p: nat | p < |h|
        ensures p in ps
      {
        assert p in all;
        var k :| 0 <= k < |all| && all[k] == p;
        assert ps[k] == p;
      }
    }
  }

  /** `RefreshHistory`: the rows of the history grid. */
  function RecentView(h: seq<HistoryEntry>): (rows: seq<HistoryEntry>)
    ensures |rows| == Min(ViewLimit, |h|)
    ensures forall i :: 0 <= i < |rows| ==> rows[i] in h
    ensures forall i, j :: 0 <= i < j < |rows| ==> rows[i].timestamp >= rows[j].timestamp
    ensures |h| <= ViewLimit ==> forall e :: e in h ==> e in rows
    ensures forall i :: 0 <= i < |rows| ==> rows[i] == h[RecentPositions(h)[i]]
  {
    var ps := RecentPositions(h);
    var rows := seq(|ps|, i requires 0 <= i < |ps| => h[ps[i]]);
    RowsCoverSmallHistory(h, ps, rows);
    rows
  }

  lemma RowsCoverSmallHistory(h: seq<HistoryEntry>, ps: seq<nat>, rows: seq<HistoryEntry>)
    requires forall i :: 0 <= i < |ps| ==> ps[i] < |h|
    requires |h| <= ViewLimit ==> forall p: nat :: p < |h| ==> p in ps
    requires rows == seq(|ps|, i requires 0 <= i < |ps| => h[ps[i]])
    ensures |h| <= ViewLimit ==> forall e :: e in h ==> e in rows
  {
    if |h| <= ViewLimit {
      forall e | e in h
        ensures e in rows
      {
        var p: nat :| p < |h| && h[p] == e;
        assert p in ps;
        var i :| 0 <= i < |ps| && ps[i] == p;
        assert rows[i] == e;
      }
    }
  }

  /** An entry newer than every other one is the first row of the grid. */
  lemma NewestShownFirst(h: seq<HistoryEntry>, e: HistoryEntry)
    requires forall i :: 0 <= i < |h| ==> h[i].timestamp < e.timestamp
    ensures RecentView(h + [e])[0] == e
  {
    var h' := h + [e];
    var ps := RecentPositions(h');
    assert |h| !in ps ==> ShownBefore(h', ps[0], |h|);
    assert forall j :: 0 < j < |ps| ==> ShownBefore(h', ps[0], ps[j]);
    assert ps[0] == |h|;
  }

  /** A cleared history shows an empty grid. */
  lemma ClearedViewIsEmpty(h: seq<HistoryEntry>)
    ensures RecentView(Clear(h)) == []
  {
  }
}
