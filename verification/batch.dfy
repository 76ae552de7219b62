/** Batch lookup: one A query per non-blank line of a file, each success recorded in the history,
    with the windows' progress bar advancing once per line. */
module Batch {
  import opened Prelude
  import opened Text
  import opened Dns
  import opened History
  import opened Lookups

  /** `Select(l => l.Trim())`. */
  function TrimAll(lines: seq<string>): (r: seq<string>)
    ensures |r| == |lines| && forall i :: 0 <= i < |lines| ==> r[i] == Trim(lines[i])
  {
    seq(|lines|, i requires 0 <= i < |lines| => Trim(lines[i]))
  }

  /** `Where(l => !string.IsNullOrWhiteSpace(l))`: the non-blank lines, in their order. */
  function NonBlank(xs: seq<string>): (r: seq<string>)
    ensures |r| <= |xs|
    ensures forall j :: 0 <= j < |r| ==> !IsBlank(r[j]) && r[j] in xs
    ensures forall i :: 0 <= i < |xs| && !IsBlank(xs[i]) ==> xs[i] in r
  {
    if |xs| == 0 then []
    else
      var init := NonBlank(xs[..|xs| - 1]);
      assert forall x :: x in xs[..|xs| - 1] ==> x in xs;
      if IsBlank(xs[|xs| - 1]) then init else init + [xs[|xs| - 1]]
  }

  /** The batch's input lines: trimmed, and blank ones dropped. Every kept line is the trimmed form
      of an input line, and every input line with something on it is kept. */
  function PrepareLines(lines: seq<string>): (r: seq<string>)
    ensures |r| <= |lines|
    ensures forall j :: 0 <= j < |r| ==> !IsBlank(r[j]) && Trim(r[j]) == r[j]
    ensures forall i :: 0 <= i < |lines| && !IsBlank(lines[i]) ==> Trim(lines[i]) in r
    ensures forall j :: 0 <= j < |r| ==> exists i :: 0 <= i < |lines| && Trim(lines[i]) == r[j]
  {
    var trimmed := TrimAll(lines);
    PrepareLinesFacts(lines, trimmed);
    NonBlank(trimmed)
  }

  lemma PrepareLinesFacts(lines: seq<string>, trimmed: seq<string>)
    requires trimmed == TrimAll(lines)
    ensures forall j :: 0 <= j < |NonBlank(trimmed)| ==> Trim(NonBlank(trimmed)[j]) == NonBlank(trimmed)[j]
    ensures forall i :: 0 <= i < |lines| && !IsBlank(lines[i]) ==> Trim(lines[i]) in NonBlank(trimmed)
    ensures forall j :: 0 <= j < |NonBlank(trimmed)| ==>
      exists i :: 0 <= i < |lines| && Trim(lines[i]) == NonBlank(trimmed)[j]
  {
    var r := NonBlank(trimmed);
    forall i | 0 <= i < |lines|
      ensures Trim(trimmed[i]) == trimmed[i]
      ensures IsBlank(trimmed[i]) <==> IsBlank(lines[i])
    {
      TrimIdempotent(lines[i]);
      BlankTrim(lines[i]);
    }
    forall j | 0 <= j < |r|
      ensures Trim(r[j]) == r[j] && exists i :: 0 <= i < |lines| && Trim(lines[i]) == r[j]
    {
      var i :| 0 <= i < |trimmed| && trimmed[i] == r[j];
    }
  }

  /** Keeping the non-blank lines is compositional over concatenation. */
  lemma {:induction false} NonBlankAppend(a: seq<string>, b: seq<string>)
    ensures NonBlank(a + b) == NonBlank(a) + NonBlank(b)
  {
    if |b| > 0 {
      var b0 := b[..|b| - 1];
      NonBlankAppend(a, b0);
      assert (a + b)[..|a + b| - 1] == a + b0;
      assert (a + b)[|a + b| - 1] == b[|b| - 1];
    } else {
      assert a + b == a;
    }
  }

  /** Preparing is compositional over concatenation. */
  lemma PrepareLinesAppend(a: seq<string>, b: seq<string>)
    ensures PrepareLines(a + b) == PrepareLines(a) + PrepareLines(b)
  {
    TrimAllAppend(a, b);
    NonBlankAppend(TrimAll(a), TrimAll(b));
  }

  lemma TrimAllAppend(a: seq<string>, b: seq<string>)
    ensures TrimAll(a + b) == TrimAll(a) + TrimAll(b)
  {
    var l, r := TrimAll(a + b), TrimAll(a) + TrimAll(b);
    assert |l| == |r|;
    forall i | 0 <= i < |l|
      ensures l[i] == r[i]
    {
      if i < |a| {
        assert l[i] == Trim((a + b)[i]) == Trim(a[i]);
      } else {
        assert l[i] == Trim((a + b)[i]) == Trim(b[i - |a|]);
      }
    }
  }

  /** Lines that are all non-blank are kept as they are. */
  lemma {:induction false} NonBlankKeepsAll(xs: seq<string>)
    requires forall j :: 0 <= j < |xs| ==> !IsBlank(xs[j])
    ensures NonBlank(xs) == xs
  {
    if |xs| > 0 {
      NonBlankKeepsAll(xs[..|xs| - 1]);
      assert xs == xs[..|xs| - 1] + [xs[|xs| - 1]];
    }
  }

  /** Preparing already prepared lines changes nothing. */
  lemma PrepareLinesIdempotent(lines: seq<string>)
    ensures PrepareLines(PrepareLines(lines)) == PrepareLines(lines)
  {
    var r := PrepareLines(lines);
    assert TrimAll(r) == r;
    NonBlankKeepsAll(r);
  }

  /** Which front end runs the batch; they differ only in the details of an empty answer. */
  datatype Front = Windows | Console

  /** The text the windows record for an answer with no A record. */
  const NoResultsText: string := "No results"

  /** The details recorded for one line: the addresses joined with ", "; the windows write
      "No results" instead of nothing. */
  function Details(front: Front, addrs: seq<string>): (d: string)
    ensures |addrs| > 0 ==> d == Join(", ", addrs)
    ensures |addrs| == 0 ==> (front.Windows? <==> d == NoResultsText)
  {
    if front.Windows? && |addrs| == 0 then NoResultsText else Join(", ", addrs)
  }

  /** The entry recorded for a line that resolved. */
  function BatchEntry(front: Front, query: string, outcome: ResolveOutcome, now: int): (e: HistoryEntry)
    requires outcome.Resolved?
    ensures e.recordType == "A" && e.query == query && e.timestamp == now && e.elapsedMs == outcome.elapsedMs
  {
    HistoryEntry("A", query, now, outcome.elapsedMs, Details(front, Addresses(outcome.answers)))
  }

  /** What the history becomes after the first `n` queries: line `i` is answered by `resolve(i)`
      and, when it resolved, recorded at clock reading `clock(i)`. */
  function Recorded(front: Front, h: seq<HistoryEntry>, queries: seq<string>, n: nat,
                    resolve: nat -> ResolveOutcome, clock: nat -> int): (r: seq<HistoryEntry>)
    requires n <= |queries|
    ensures |h| <= |r| <= |h| + n && r[..|h|] == h
  {
    if n == 0 then h
    else
      var prev := Recorded(front, h, queries, n - 1, resolve, clock);
      match resolve(n - 1)
      case Failed(_) => prev
      case Resolved(answers, ms) =>
        SaveToHistory(prev, "A", queries[n - 1], ms, Details(front, Addresses(answers)), clock(n - 1))
  }

  /** How many of the first `n` lines resolved. */
  function Successes(resolve: nat -> ResolveOutcome, n: nat): nat {
    if n == 0 then 0 else Successes(resolve, n - 1) + (if resolve(n - 1).Resolved? then 1 else 0)
  }

  /** The batch adds exactly one "A" entry per line that resolved, each for a line of the file, in
      the order of the lines, and removes or changes nothing already there. */
  lemma {:induction false} RecordedShape(front: Front, h: seq<HistoryEntry>, queries: seq<string>, n: nat,
                                         resolve: nat -> ResolveOutcome, clock: nat -> int)
    requires n <= |queries|
    ensures var r := Recorded(front, h, queries, n, resolve, clock);
      && |r| == |h| + Successes(resolve, n)
      && forall j :: |h| <= j < |r| ==> r[j].recordType == "A" && r[j].query in queries[..n]
  {
    if n > 0 {
      RecordedShape(front, h, queries, n - 1, resolve, clock);
      var prev := Recorded(front, h, queries, n - 1, resolve, clock);
      assert forall q :: q in queries[..n - 1] ==> q in queries[..n];
      assert queries[n - 1] in queries[..n];
    }
  }

  /** The batch adds one entry per line that resolved. */
  lemma {:induction false} RecordedLength(front: Front, h: seq<HistoryEntry>, queries: seq<string>, n: nat,
                                          resolve: nat -> ResolveOutcome, clock: nat -> int)
    requires n <= |queries|
    ensures |Recorded(front, h, queries, n, resolve, clock)| == |h| + Successes(resolve, n)
  {
    if n > 0 {
      RecordedLength(front, h, queries, n - 1, resolve, clock);
    }
  }

  /** One more line: the history grows by that line's entry exactly when it resolved. */
  lemma RecordedStep(front: Front, h: seq<HistoryEntry>, queries: seq<string>, n: nat,
                     resolve: nat -> ResolveOutcome, clock: nat -> int)
    requires 0 < n <= |queries|
    ensures resolve(n - 1).Failed? ==>
      Recorded(front, h, queries, n, resolve, clock) == Recorded(front, h, queries, n - 1, resolve, clock)
    ensures resolve(n - 1).Resolved? ==>
      Recorded(front, h, queries, n, resolve, clock) == Recorded(front, h, queries, n - 1, resolve, clock)
        + [BatchEntry(front, queries[n - 1], resolve(n - 1), clock(n - 1))]
  {
  }

  /** Every line that resolved leaves an entry for it with its elapsed time and details, at its
      own position among the new entries. */
  lemma {:induction false} RecordedEntry(front: Front, h: seq<HistoryEntry>, queries: seq<string>, n: nat,
                                         resolve: nat -> ResolveOutcome, clock: nat -> int, i: nat)
    requires i < n <= |queries| && resolve(i).Resolved?
    ensures var r := Recorded(front, h, queries, n, resolve, clock);
      var k := |h| + Successes(resolve, i);
      && k < |r|
      && r[k] == BatchEntry(front, queries[i], resolve(i), clock(i))
  {
    var prev := Recorded(front, h, queries, n - 1, resolve, clock);
    var k := |h| + Successes(resolve, i);
    RecordedStep(front, h, queries, n, resolve, clock);
    RecordedLength(front, h, queries, n - 1, resolve, clock);
    var r := Recorded(front, h, queries, n, resolve, clock);
    if i < n - 1 {
      RecordedEntry(front, h, queries, n - 1, resolve, clock, i);
      SuccessesGrow(resolve, i, n - 1);
      if resolve(n - 1).Resolved? {
        assert r[k] == (prev + [BatchEntry(front, queries[n - 1], resolve(n - 1), clock(n - 1))])[k] == prev[k];
      }
    } else {
      assert k == |prev|;
      assert r[k] == (prev + [BatchEntry(front, queries[i], resolve(i), clock(i))])[k];
    }
  }

  lemma {:induction false} SuccessesMonotone(resolve: nat -> ResolveOutcome, m: nat, n: nat)
    requires m <= n
    ensures Successes(resolve, m) <= Successes(resolve, n)
  {
    if m < n {
      SuccessesMonotone(resolve, m, n - 1);
    }
  }

  /** A line that resolved counts among the successes of every longer prefix. */
  lemma SuccessesGrow(resolve: nat -> ResolveOutcome, i: nat, m: nat)
    requires i < m && resolve(i).Resolved?
    ensures Successes(resolve, i) < Successes(resolve, m)
  {
    SuccessesMonotone(resolve, i + 1, m);
  }

  /** The windows and the console record the same entries wherever some A record came back. */
  lemma {:induction false} FrontsAgreeOnAddresses(h: seq<HistoryEntry>, queries: seq<string>, n: nat,
                                                  resolve: nat -> ResolveOutcome, clock: nat -> int)
    requires n <= |queries|
    requires forall i :: 0 <= i < n && resolve(i).Resolved? ==> |Addresses(resolve(i).answers)| > 0
    ensures Recorded(Windows, h, queries, n, resolve, clock) == Recorded(Console, h, queries, n, resolve, clock)
  {
    if n > 0 {
      FrontsAgreeOnAddresses(h, queries, n - 1, resolve, clock);
    }
  }

  /** The loop over the prepared lines: query each, record each success, advance the bar. */
  method QueryAll(front: Front, h: seq<HistoryEntry>, queries: seq<string>,
                  resolve: nat -> ResolveOutcome, clock: nat -> int)
    returns (r: seq<HistoryEntry>, progress: seq<nat>)
    ensures r == Recorded(front, h, queries, |queries|, resolve, clock)
    ensures |progress| == |queries|
    ensures forall i :: 0 <= i < |progress| ==> progress[i] == i + 1
  {
    r := h;
    progress := [];
    var i := 0;
    while i < |queries|
      invariant 0 <= i <= |queries|
      invariant r == Recorded(front, h, queries, i, resolve, clock)
      invariant |progress| == i
      invariant forall j :: 0 <= j < i ==> progress[j] == j + 1
    {
      var outcome := resolve(i);
      if outcome.Resolved? {
        r := SaveToHistory(r, "A", queries[i], outcome.elapsedMs, Details(front, Addresses(outcome.answers)), clock(i));
      }
      progress := progress + [i + 1];
      i := i + 1;
    }
  }

  /** `BtnProcessBatch_Click` and the console's `BatchProcess`. `file` is the file's lines, or
      `None` when the path is blank or names no file, in which case nothing happens. The windows'
      progress bar gets the number of prepared lines as its maximum and, after each line, the
      number of lines done; `progress` lists those values in order. */
  method RunBatch(front: Front, h: seq<HistoryEntry>, file: Option<seq<string>>,
                  resolve: nat -> ResolveOutcome, clock: nat -> int)
    returns (r: seq<HistoryEntry>, maximum: nat, progress: seq<nat>)
    ensures file.None? ==> r == h && maximum == 0 && progress == []
    ensures file.Some? ==>
      var queries := PrepareLines(file.value);
      && r == Recorded(front, h, queries, |queries|, resolve, clock)
      && maximum == |queries|
      && |progress| == maximum
      && forall i :: 0 <= i < |progress| ==> progress[i] == i + 1 <= maximum
  {
    if file.None? {
      return h, 0, [];
    }
    var queries := PrepareLines(file.value);
    maximum := |queries|;
    r, progress := QueryAll(front, h, queries, resolve, clock);
  }
}
