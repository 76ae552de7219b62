/** The console's "measure response time" command: it reads a domain and a sample count, queries the
    domain that many times, records -1 for an attempt that failed, and summarises the valid samples. */
module Sampler {
  import opened Prelude
  import opened Text
  import opened Stats

  /** The sample count used when the count prompt is left blank. */
  const DefaultSamples: int := 5
  /** The bounds the typed sample count is clamped into. */
  const MinSamples: int := 1
  const MaxSamples: int := 50

  /** The number of attempts: 5 for a blank answer; otherwise the parsed number, or 0 when it does
      not parse (the value `int.TryParse` leaves behind), clamped into [1, 50]. */
  function SampleCount(timesText: Option<string>): (n: int)
    ensures MinSamples <= n <= MaxSamples
    ensures IsNullOrWhiteSpace(timesText) ==> n == DefaultSamples
    ensures !IsNullOrWhiteSpace(timesText) && TryParseInt(timesText).None? ==> n == MinSamples
  {
    if IsNullOrWhiteSpace(timesText) then DefaultSamples
    else Clamp(TryParseInt(timesText).GetOr(0), MinSamples, MaxSamples)
  }

  /** A count typed within [1, 50] is used as typed; a larger one is cut down to 50. */
  lemma SampleCountOfTypedNumber(k: nat)
    requires k <= Int32Max
    ensures MinSamples <= k <= MaxSamples ==> SampleCount(Some(NatToString(k))) == k
    ensures MaxSamples < k ==> SampleCount(Some(NatToString(k))) == MaxSamples
    ensures k == 0 ==> SampleCount(Some(NatToString(k))) == MinSamples
  {
    TryParseIntOfNatToString(k);
    var s := NatToString(k);
    assert !IsWhiteSpace(s[0]);
  }

  /** What one attempt gives: the elapsed milliseconds, or a failure (the query threw). */
  datatype Probe = Answered(elapsedMs: nat) | ProbeFailed

  /** The number stored for one attempt: its elapsed time, or -1 for a failure. */
  function SampleOf(p: Probe): (r: int)
    ensures r >= 0 <==> p.Answered?
    ensures p.Answered? ==> r == p.elapsedMs
  {
    match p
    case Answered(ms) => ms
    case ProbeFailed => -1
  }

  /** The summary printed after the samples: mean, fastest and slowest valid sample. */
  datatype Summary = Summary(averageMs: real, minMs: int, maxMs: int)

  /** The summary of a run: absent when no sample is valid; otherwise the mean of the valid samples
      with the fastest and slowest of them, each of which is a valid sample bounding all the others. */
  function Summarize(samples: seq<int>): (r: Option<Summary>)
    ensures r.Some? <==> exists i :: 0 <= i < |samples| && samples[i] >= 0
    ensures r.Some? ==>
      var s := r.value;
      && s.averageMs == Average(ValidSamples(samples))
      && s.minMs as real <= s.averageMs <= s.maxMs as real
      && (exists i :: 0 <= i < |samples| && samples[i] >= 0 && samples[i] == s.minMs)
      && (exists i :: 0 <= i < |samples| && samples[i] >= 0 && samples[i] == s.maxMs)
      && forall i :: 0 <= i < |samples| && samples[i] >= 0 ==> s.minMs <= samples[i] <= s.maxMs
  {
    var valid := ValidSamples(samples);
    if |valid| > 0 then
      assert valid[0] in samples;
      var lo, hi := Minimum(valid), Maximum(valid);
      assert forall j :: 0 <= j < |samples| && samples[j] >= 0 ==> samples[j] in valid;
      assert lo in samples && hi in samples;
      Some(Summary(Average(valid), lo, hi))
    else
      assert forall j :: 0 <= j < |samples| ==> samples[j] < 0;
      None
  }

  /** The outcome of the command: the domain was rejected, or the samples and, when at least one
      sample is valid, their summary. */
  datatype Measurement = InvalidDomain | Measured(samples: seq<int>, summary: Option<Summary>)

  /** `MeasureResponseTime`. `probe(i)` is the outcome of attempt `i`. A blank domain is rejected
      before any attempt. Otherwise there are exactly `SampleCount` attempts, each recorded in
      order, and a summary exists exactly when some attempt succeeded; it then lies within the
      valid samples: their mean (the sum over the count), with min <= average <= max. */
  method MeasureResponseTime(domainLine: Option<string>, timesText: Option<string>, probe: nat -> Probe)
    returns (m: Measurement)
    ensures m.InvalidDomain? <==> domainLine.None? || IsBlank(Trim(domainLine.value))
    ensures m.Measured? ==> |m.samples| == SampleCount(timesText)
    ensures m.Measured? ==> forall i :: 0 <= i < |m.samples| ==> m.samples[i] == SampleOf(probe(i))
    ensures m.Measured? ==> (m.summary.Some? <==> exists i :: 0 <= i < |m.samples| && probe(i).Answered?)
    ensures m.Measured? && m.summary.Some? ==>
      var s := m.summary.value;
      && s.averageMs == Average(ValidSamples(m.samples))
      && s.minMs as real <= s.averageMs <= s.maxMs as real
      && (exists i :: 0 <= i < |m.samples| && probe(i).Answered? && m.samples[i] == s.minMs)
      && (exists i :: 0 <= i < |m.samples| && probe(i).Answered? && m.samples[i] == s.maxMs)
      && forall i :: 0 <= i < |m.samples| && probe(i).Answered? ==> s.minMs <= m.samples[i] <= s.maxMs
  {
    if domainLine.None? || IsBlank(Trim(domainLine.value)) {
      return InvalidDomain;
    }
    var times := SampleCount(timesText);
    var samples: seq<int> := [];
    var i := 0;
    while i < times
      invariant 0 <= i <= times
      invariant |samples| == i
      invariant forall j :: 0 <= j < i ==> samples[j] == SampleOf(probe(j))
    {
      samples := samples + [SampleOf(probe(i))];
      i := i + 1;
    }
    assert forall j :: 0 <= j < |samples| ==> (samples[j] >= 0 <==> probe(j).Answered?);
    m := Measured(samples, Summarize(samples));
  }
}
