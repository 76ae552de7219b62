/** The three interactive lookups (forward, reverse, multi-type) as the windows and the console
    run them, reduced to what they leave behind: the history entry each adds, and for the console
    the result the export command will write. The resolver's answer is a parameter, and so is the
    clock. */
module Lookups {
  import opened Prelude
  import opened Text
  import opened Dns
  import opened Formatting
  import opened Selectors
  import opened History
  import opened Exports

  /** `Answers.OfType<ARecord>().Select(r => r.Address.ToString())`: the addresses of the A
      records, in answer order. */
  function Addresses(answers: seq<RecordValue>): (r: seq<string>)
    ensures |r| <= |answers|
    ensures forall i :: 0 <= i < |r| ==> ARecord(r[i]) in answers
    ensures forall i :: 0 <= i < |answers| && answers[i].ARecord? ==> answers[i].address in r
    ensures |answers| == 1 ==> r == (if answers[0].ARecord? then [answers[0].address] else [])
  {
    if |answers| == 0 then []
    else
      var init := Addresses(answers[..|answers| - 1]);
      var last := answers[|answers| - 1];
      assert forall a :: a in answers[..|answers| - 1] ==> a in answers;
      if last.ARecord? then init + [last.address] else init
  }

  /** The addresses of two runs of answers are those of the first run followed by those of the
      second: with the one-answer case, every A record contributes its address once, in answer
      order, and nothing else contributes. */
  lemma {:induction false} AddressesAppend(a: seq<RecordValue>, b: seq<RecordValue>)
    ensures Addresses(a + b) == Addresses(a) + Addresses(b)
  {
    if |b| > 0 {
      var b0 := b[..|b| - 1];
      AddressesAppend(a, b0);
      assert (a + b)[..|a + b| - 1] == a + b0;
      assert (a + b)[|a + b| - 1] == b[|b| - 1];
    } else {
      assert a + b == a;
    }
  }

  /** `Answers.OfType<PtrRecord>().FirstOrDefault()?.PtrDomainName`: the name of the first PTR
      record, if any. */
  function FirstPtr(answers: seq<RecordValue>): (r: Option<string>)
    ensures r.None? <==> forall i :: 0 <= i < |answers| ==> !answers[i].PtrRecord?
    ensures r.Some? ==>
      exists i :: 0 <= i < |answers| && answers[i] == PtrRecord(r.value) && forall j :: 0 <= j < i ==> !answers[j].PtrRecord?
  {
    if |answers| == 0 then None
    else if answers[0].PtrRecord? then Some(answers[0].ptrDomainName)
    else
      var r := FirstPtr(answers[1..]);
      assert forall j :: 1 <= j < |answers| ==> answers[j] == answers[1..][j - 1];
      if r.Some? then
        var k :|
          0 <= k < |answers[1..]| && answers[1..][k] == PtrRecord(r.value) && forall j :: 0 <= j < k ==> !answers[1..][j].PtrRecord?;
        assert answers[k + 1] == PtrRecord(r.value);
        r
      else r
  }

  /** Formatting every answer in turn, as the loops over `result.Answers` do: the first answer that
      cannot be cast aborts the whole lookup. */
  function FormatAll(f: RecordValue -> Result<string, Fault>, answers: seq<RecordValue>): (r: Result<seq<string>, Fault>)
    ensures r.Ok? <==> forall i :: 0 <= i < |answers| ==> f(answers[i]).Ok?
    ensures r.Ok? ==> |r.value| == |answers| && forall i :: 0 <= i < |answers| ==> r.value[i] == f(answers[i]).value
  {
    if |answers| == 0 then Ok([])
    else
      match f(answers[0])
      case Err(e) => Err(e)
      case Ok(line) =>
        match FormatAll(f, answers[1..])
        case Err(e) => Err(e)
        case Ok(rest) =>
          assert forall i :: 1 <= i < |answers| ==> answers[i] == answers[1..][i - 1];
          Ok([line] + rest)
  }

  /** A lookup that reaches the point of saving: it resolved with at least one answer. */
  predicate Answered(outcome: ResolveOutcome) {
    outcome.Resolved? && |outcome.answers| > 0
  }

  // ---------------------------------------------------------------------------------------------
  // Windows

  /** `BtnLookupDomain_Click`. A blank box, a failed query and an empty answer add nothing;
      otherwise one "A/AAAA" entry for the trimmed domain, listing the A addresses. */
  function ForwardLookup(h: seq<HistoryEntry>, text: string, outcome: ResolveOutcome, now: int): (r: seq<HistoryEntry>)
    ensures |r| == |h| + 1 <==> !IsBlank(text) && Answered(outcome)
    ensures |r| == |h| ==> r == h
    ensures |r| > |h| ==>
      && Answered(outcome)
      && r == SaveToHistory(h, "A/AAAA", Trim(text), outcome.elapsedMs, Join(", ", Addresses(outcome.answers)), now)
    ensures |r| > |h| ==> r[|h|].query == Trim(text) && !IsBlank(r[|h|].query)
  {
    var domain := Trim(text);
    if IsBlank(domain) || !Answered(outcome) then h
    else SaveToHistory(h, "A/AAAA", domain, outcome.elapsedMs, Join(", ", Addresses(outcome.answers)), now)
  }

  /** The text the reverse lookup records when the answer holds no PTR record. */
  const NotFoundText: string := "Not found"

  /** `BtnReverseIp_Click`. Text that is not an address and a failed query add nothing; any answer,
      even an empty one, adds a "PTR" entry for the address with the first PTR name or
      "Not found". `parseIp` stands for `IPAddress.TryParse`. */
  function ReverseLookup(h: seq<HistoryEntry>, text: string, parseIp: string -> Option<IpAddress>,
                         outcome: ResolveOutcome, now: int): (r: seq<HistoryEntry>)
    ensures |r| == |h| + 1 <==> parseIp(Trim(text)).Some? && outcome.Resolved?
    ensures |r| == |h| ==> r == h
    ensures |r| > |h| ==>
      && parseIp(Trim(text)).Some?
      && outcome.Resolved?
      && r == SaveToHistory(h, "PTR", parseIp(Trim(text)).value.text, outcome.elapsedMs,
                            FirstPtr(outcome.answers).GetOr(NotFoundText), now)
  {
    match parseIp(Trim(text))
    case None => h
    case Some(ip) =>
      if outcome.Failed? then h
      else SaveToHistory(h, "PTR", ip.text, outcome.elapsedMs, FirstPtr(outcome.answers).GetOr(NotFoundText), now)
  }

  /** `BtnQueryMulti_Click`. The type comes from the combo box (its selection, or "A" when none).
      A blank box, a failed query, an empty answer, and an answer holding any record of another
      type (its cast throws) add nothing; otherwise one entry named after the type, with empty
      details. */
  function MultiLookup(h: seq<HistoryEntry>, text: string, selected: Option<string>,
                       outcome: ResolveOutcome, now: int): (r: seq<HistoryEntry>)
    ensures var t := QueryTypeFromLabel(selected.GetOr("A"));
      |r| == |h| + 1 <==>
        !IsBlank(text) && Answered(outcome) && forall i :: 0 <= i < |outcome.answers| ==> KindOf(outcome.answers[i]) == t
    ensures |r| == |h| ==> r == h
    ensures |r| > |h| ==>
      var t := QueryTypeFromLabel(selected.GetOr("A"));
      Answered(outcome) && r == SaveToHistory(h, TypeName(t), Trim(text), outcome.elapsedMs, "", now)
  {
    var query := Trim(text);
    var t := QueryTypeFromLabel(selected.GetOr("A"));
    if IsBlank(query) || !Answered(outcome) then h
    else
      match FormatAll(a => FormatRecord(t, a), outcome.answers)
      case Err(_) => h
      case Ok(_) => SaveToHistory(h, TypeName(t), query, outcome.elapsedMs, "", now)
  }

  /** Blank inside, blank after trimming. */
  lemma BlankTrim(s: string)
    ensures IsBlank(Trim(s)) <==> IsBlank(s)
  {
    if !IsBlank(s) {
      assert Trim(s) != "";
      assert !IsWhiteSpace(Trim(s)[0]);
    }
  }

  /** A CNAME in the answer to an A query (what a resolver returns for an aliased name) stops the
      windows' multi-type query from recording anything. */
  lemma AliasAnswerRecordsNothing(h: seq<HistoryEntry>, text: string, canonical: string, address: string,
                                  elapsedMs: nat, now: int)
    ensures MultiLookup(h, text, Some("A"), Resolved([CNameRecord(canonical), ARecord(address)], elapsedMs), now) == h
  {
    assert KindOf(CNameRecord(canonical)) != A;
  }

  // ---------------------------------------------------------------------------------------------
  // Console

  /** What the console's lookups leave behind: the history and the last result of each kind. */
  datatype Session = Session(history: seq<HistoryEntry>, lastDomain: Option<DomainResult>,
                             lastReverse: Option<ReverseResult>, lastMulti: Option<MultiResult>)

  /** The line read by a console prompt, trimmed; `None` at end of input. */
  function Answer(line: Option<string>): (r: Option<string>)
    ensures r.None? <==> line.None?
  {
    if line.None? then None else Some(Trim(line.value))
  }

  /** `ResolveDomain`. Like the windows' forward lookup, and it also remembers the result for
      export; nothing else changes. */
  function ConsoleResolve(s: Session, line: Option<string>, outcome: ResolveOutcome, now: int): (r: Session)
    ensures r.lastReverse == s.lastReverse && r.lastMulti == s.lastMulti
    ensures r.history == s.history <==> r == s
    ensures r != s <==> !IsNullOrWhiteSpace(Answer(line)) && Answered(outcome)
    ensures r != s ==>
      var domain := Answer(line).value;
      var addrs := Addresses(outcome.answers);
      && r.history == SaveToHistory(s.history, "A/AAAA", domain, outcome.elapsedMs, Join(", ", addrs), now)
      && r.lastDomain == Some(DomainResult(domain, now, outcome.elapsedMs, addrs))
  {
    var domain := Answer(line);
    if IsNullOrWhiteSpace(domain) || !Answered(outcome) then s
    else
      var addrs := Addresses(outcome.answers);
      s.(history := SaveToHistory(s.history, "A/AAAA", domain.value, outcome.elapsedMs, Join(", ", addrs), now),
         lastDomain := Some(DomainResult(domain.value, now, outcome.elapsedMs, addrs)))
  }

  /** The text the console records when the answer holds no PTR record ("not found"). */
  const ConsoleNotFoundText: string := "Không tìm thấy"

  /** `ReverseLookup` (console). End of input is not an address. */
  function ConsoleReverse(s: Session, line: Option<string>, parseIp: string -> Option<IpAddress>,
                          outcome: ResolveOutcome, now: int): (r: Session)
    ensures r.lastDomain == s.lastDomain && r.lastMulti == s.lastMulti
    ensures r != s <==> line.Some? && parseIp(Trim(line.value)).Some? && outcome.Resolved?
    ensures r != s ==>
      var ip := parseIp(Trim(line.value)).value.text;
      var host := FirstPtr(outcome.answers).GetOr(ConsoleNotFoundText);
      && r.history == SaveToHistory(s.history, "PTR", ip, outcome.elapsedMs, host, now)
      && r.lastReverse == Some(ReverseResult(ip, host, now, outcome.elapsedMs))
  {
    match Answer(line)
    case None => s
    case Some(text) =>
      match parseIp(text)
      case None => s
      case Some(ip) =>
        if outcome.Failed? then s
        else
          var host := FirstPtr(outcome.answers).GetOr(ConsoleNotFoundText);
          s.(history := SaveToHistory(s.history, "PTR", ip.text, outcome.elapsedMs, host, now),
             lastReverse := Some(ReverseResult(ip.text, host, now, outcome.elapsedMs)))
  }

  /** The multi-type query (console). The record menu answer is read untrimmed. Every answer is
      formatted in the console's style, and the entry's details join them with "; ". */
  function ConsoleMulti(s: Session, line: Option<string>, choice: Option<string>,
                        outcome: ResolveOutcome, now: int): (r: Session)
    ensures r.lastDomain == s.lastDomain && r.lastReverse == s.lastReverse
    ensures var t := QueryTypeFromChoice(choice);
      r != s <==>
        !IsNullOrWhiteSpace(Answer(line)) && Answered(outcome)
        && forall i :: 0 <= i < |outcome.answers| ==> KindOf(outcome.answers[i]) == t
    ensures r != s ==>
      var t := QueryTypeFromChoice(choice);
      && r.lastMulti.Some?
      && |r.lastMulti.value.records| == |outcome.answers|
      && (forall i :: 0 <= i < |outcome.answers| ==>
            r.lastMulti.value.records[i] == ConsoleFormatRecord(t, outcome.answers[i]).value)
      && r.history == SaveToHistory(s.history, TypeName(t), Answer(line).value, outcome.elapsedMs,
                                    Join("; ", r.lastMulti.value.records), now)
  {
    var query := Answer(line);
    var t := QueryTypeFromChoice(choice);
    if IsNullOrWhiteSpace(query) || !Answered(outcome) then s
    else
      match FormatAll(a => ConsoleFormatRecord(t, a), outcome.answers)
      case Err(_) => s
      case Ok(records) =>
        s.(history := SaveToHistory(s.history, TypeName(t), query.value, outcome.elapsedMs, Join("; ", records), now),
           lastMulti := Some(MultiResult(query.value, TypeName(t), now, outcome.elapsedMs, records)))
  }

  // ---------------------------------------------------------------------------------------------
  // Windows and console side by side

  /** The two forward lookups record the same entry for the same typed text. */
  lemma ForwardAgrees(s: Session, text: string, outcome: ResolveOutcome, now: int)
    ensures ConsoleResolve(s, Some(text), outcome, now).history == ForwardLookup(s.history, text, outcome, now)
  {
    BlankTrim(text);
  }

  /** The two reverse lookups differ only in the text recorded when no PTR record came back. */
  lemma ReverseDiffersOnlyInFallback(s: Session, text: string, parseIp: string -> Option<IpAddress>,
                                     outcome: ResolveOutcome, now: int)
    ensures outcome.Resolved? ==> FirstPtr(outcome.answers).Some? ==>
      ConsoleReverse(s, Some(text), parseIp, outcome, now).history == ReverseLookup(s.history, text, parseIp, outcome, now)
    ensures outcome.Failed? ==>
      ConsoleReverse(s, Some(text), parseIp, outcome, now).history == ReverseLookup(s.history, text, parseIp, outcome, now)
    ensures outcome.Resolved? && FirstPtr(outcome.answers).None? && parseIp(Trim(text)).Some? ==>
      var c := ConsoleReverse(s, Some(text), parseIp, outcome, now).history;
      var w := ReverseLookup(s.history, text, parseIp, outcome, now);
      var n := |s.history|;
      && |c| == |w| == n + 1
      && c[..n] == w[..n]
      && w[n].details == NotFoundText
      && c[n] == w[n].(details := ConsoleNotFoundText)
  {
  }

  /** The two multi-type queries record an entry under exactly the same conditions when the console
      menu digit and the combo label name the same type. */
  lemma MultiAgreesOnWhenToRecord(s: Session, text: string, i: nat, outcome: ResolveOutcome, now: int)
    requires i < 8
    ensures (ConsoleMulti(s, Some(text), Some(MenuDigits[i]), outcome, now) != s)
        <==> (|MultiLookup(s.history, text, Some(ComboLabels[i]), outcome, now)| > |s.history|)
  {
    BlankTrim(text);
  }
}
