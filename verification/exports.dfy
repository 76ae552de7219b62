/** The console's export command: the last result of each kind of lookup, the lines written for
    it, and the checks made before anything is written. */
module Exports {
  import opened Prelude
  import opened Text

  /** The last forward lookup (`ResultSet`); addresses as their `ToString()` text. */
  datatype DomainResult = DomainResult(domain: string, timestamp: int, elapsedMs: nat, addresses: seq<string>)

  /** The last reverse lookup (`ReverseResult`); the aliases are always empty and never written. */
  datatype ReverseResult = ReverseResult(ip: string, hostName: string, timestamp: int, elapsedMs: nat)

  /** The last multi-type query (`MultiRecordResult`): one formatted line per answer. */
  datatype MultiResult = MultiResult(query: string, recordType: string, timestamp: int, elapsedMs: nat, records: seq<string>)

  const DomainLabel: string := "Domain: "
  const IpLabel: string := "IP: "
  const HostnameLabel: string := "Hostname: "
  const QueryLabel: string := "Query: "
  const TypeLabel: string := "Type: "
  const TimestampLabel: string := "Timestamp: "
  const ElapsedLabel: string := "ElapsedMs: "

  /** What a file read back yields: each labelled field with its tag removed, the timestamp as the
      text it was rendered to, and the trailing lines. */
  datatype DomainExport = DomainExport(domain: string, stamp: string, elapsedMs: nat, addresses: seq<string>)
  datatype ReverseExport = ReverseExport(ip: string, hostName: string, stamp: string, elapsedMs: nat)
  datatype MultiExport = MultiExport(query: string, recordType: string, stamp: string, elapsedMs: nat, records: seq<string>)

  /** The rest of `line` after `tag`, if it starts with it. */
  function After(tag: string, line: string): (r: Option<string>)
    ensures r.Some? <==> tag <= line
    ensures r.Some? ==> line == tag + r.value
  {
    if tag <= line then Some(line[|tag|..]) else None
  }

  lemma AfterLabel(tag: string, value: string)
    ensures After(tag, tag + value) == Some(value)
  {
    assert (tag + value)[|tag|..] == value;
  }

  /** A labelled decimal field. */
  function NumberAfter(tag: string, line: string): (r: Option<nat>)
    ensures r.Some? ==> tag <= line
  {
    match After(tag, line)
    case None => None
    case Some(digits) => ParseNat(digits)
  }

  lemma NumberAfterLabel(tag: string, n: nat)
    ensures NumberAfter(tag, tag + NatToString(n)) == Some(n)
  {
    AfterLabel(tag, NatToString(n));
    ParseNatRoundTrip(n);
  }

  // ---------------------------------------------------------------------------------------------
  // Line builders. `render` is `DateTime.ToString()` under the current culture.

  /** `WriteDomainResults`: three labelled lines, then one line per address. */
  function DomainLines(r: DomainResult, render: int -> string): (lines: seq<string>)
    ensures |lines| == 3 + |r.addresses|
    ensures lines[3..] == r.addresses
  {
    [DomainLabel + r.domain, TimestampLabel + render(r.timestamp), ElapsedLabel + NatToString(r.elapsedMs)]
      + r.addresses
  }

  /** `WriteReverseResults`: four labelled lines. */
  function ReverseLines(r: ReverseResult, render: int -> string): (lines: seq<string>)
    ensures |lines| == 4
  {
    [IpLabel + r.ip, HostnameLabel + r.hostName, TimestampLabel + render(r.timestamp),
     ElapsedLabel + NatToString(r.elapsedMs)]
  }

  /** `WriteMultiResults`: four labelled lines, then one line per record. */
  function MultiLines(r: MultiResult, render: int -> string): (lines: seq<string>)
    ensures |lines| == 4 + |r.records|
    ensures lines[4..] == r.records
  {
    [QueryLabel + r.query, TypeLabel + r.recordType, TimestampLabel + render(r.timestamp),
     ElapsedLabel + NatToString(r.elapsedMs)]
      + r.records
  }

  // ---------------------------------------------------------------------------------------------
  // Readers: the inverse of each builder.

  function ParseDomainLines(lines: seq<string>): (r: Option<DomainExport>)
    ensures r.Some? ==> |lines| == 3 + |r.value.addresses| && lines[3..] == r.value.addresses
  {
    if |lines| < 3 then None
    else
      match (After(DomainLabel, lines[0]), After(TimestampLabel, lines[1]), NumberAfter(ElapsedLabel, lines[2]))
      case (Some(d), Some(t), Some(n)) => Some(DomainExport(d, t, n, lines[3..]))
      case _ => None
  }

  function ParseReverseLines(lines: seq<string>): (r: Option<ReverseExport>)
    ensures r.Some? ==> |lines| == 4
  {
    if |lines| != 4 then None
    else
      match (After(IpLabel, lines[0]), After(HostnameLabel, lines[1]), After(TimestampLabel, lines[2]),
             NumberAfter(ElapsedLabel, lines[3]))
      case (Some(ip), Some(host), Some(t), Some(n)) => Some(ReverseExport(ip, host, t, n))
      case _ => None
  }

  function ParseMultiLines(lines: seq<string>): (r: Option<MultiExport>)
    ensures r.Some? ==> |lines| == 4 + |r.value.records| && lines[4..] == r.value.records
  {
    if |lines| < 4 then None
    else
      match (After(QueryLabel, lines[0]), After(TypeLabel, lines[1]), After(TimestampLabel, lines[2]),
             NumberAfter(ElapsedLabel, lines[3]))
      case (Some(q), Some(ty), Some(t), Some(n)) => Some(MultiExport(q, ty, t, n, lines[4..]))
      case _ => None
  }

  /** Every field of a forward result, and every address, can be read back from its export. */
  lemma DomainLinesRoundTrip(r: DomainResult, render: int -> string)
    ensures ParseDomainLines(DomainLines(r, render))
         == Some(DomainExport(r.domain, render(r.timestamp), r.elapsedMs, r.addresses))
  {
    var lines := DomainLines(r, render);
    AfterLabel(DomainLabel, r.domain);
    AfterLabel(TimestampLabel, render(r.timestamp));
    NumberAfterLabel(ElapsedLabel, r.elapsedMs);
    assert lines[0] == DomainLabel + r.domain;
    assert lines[1] == TimestampLabel + render(r.timestamp);
    assert lines[2] == ElapsedLabel + NatToString(r.elapsedMs);
  }

  /** Every field of a reverse result can be read back from its export. */
  lemma ReverseLinesRoundTrip(r: ReverseResult, render: int -> string)
    ensures ParseReverseLines(ReverseLines(r, render))
         == Some(ReverseExport(r.ip, r.hostName, render(r.timestamp), r.elapsedMs))
  {
    AfterLabel(IpLabel, r.ip);
    AfterLabel(HostnameLabel, r.hostName);
    AfterLabel(TimestampLabel, render(r.timestamp));
    NumberAfterLabel(ElapsedLabel, r.elapsedMs);
  }

  /** Every field of a multi-type result, and every record line, can be read back from its export. */
  lemma MultiLinesRoundTrip(r: MultiResult, render: int -> string)
    ensures ParseMultiLines(MultiLines(r, render))
         == Some(MultiExport(r.query, r.recordType, render(r.timestamp), r.elapsedMs, r.records))
  {
    var lines := MultiLines(r, render);
    AfterLabel(QueryLabel, r.query);
    AfterLabel(TypeLabel, r.recordType);
    AfterLabel(TimestampLabel, render(r.timestamp));
    NumberAfterLabel(ElapsedLabel, r.elapsedMs);
    assert lines[0] == QueryLabel + r.query;
    assert lines[1] == TypeLabel + r.recordType;
    assert lines[2] == TimestampLabel + render(r.timestamp);
    assert lines[3] == ElapsedLabel + NatToString(r.elapsedMs);
  }

  // ---------------------------------------------------------------------------------------------
  // The command

  /** The result of the export command: the path is blank, the chosen kind has no result yet, the
      choice is not 1, 2 or 3, or these lines are written. */
  datatype ExportOutcome = InvalidPath | NothingToExport | InvalidChoice | Written(lines: seq<string>)

  /** `ExportResults`. The path (trimmed) is checked first; the choice is compared untrimmed. */
  function Export(choice: Option<string>, path: Option<string>, lastDomain: Option<DomainResult>,
                  lastReverse: Option<ReverseResult>, lastMulti: Option<MultiResult>, render: int -> string)
    : (r: ExportOutcome)
    ensures r.InvalidPath? <==> IsNullOrWhiteSpace(path)
    ensures r.InvalidChoice? <==> !IsNullOrWhiteSpace(path) && choice != Some("1") && choice != Some("2") && choice != Some("3")
    ensures r.Written? && choice == Some("1") ==> lastDomain.Some? && r.lines == DomainLines(lastDomain.value, render)
    ensures r.Written? && choice == Some("2") ==> lastReverse.Some? && r.lines == ReverseLines(lastReverse.value, render)
    ensures r.Written? && choice == Some("3") ==> lastMulti.Some? && r.lines == MultiLines(lastMulti.value, render)
    ensures r.NothingToExport? <==>
      !IsNullOrWhiteSpace(path)
      && ((choice == Some("1") && lastDomain.None?) || (choice == Some("2") && lastReverse.None?)
          || (choice == Some("3") && lastMulti.None?))
  {
    if path.None? || IsBlank(Trim(path.value)) then InvalidPath
    else
      match choice
      case Some("1") => if lastDomain.None? then NothingToExport else Written(DomainLines(lastDomain.value, render))
      case Some("2") => if lastReverse.None? then NothingToExport else Written(ReverseLines(lastReverse.value, render))
      case Some("3") => if lastMulti.None? then NothingToExport else Written(MultiLines(lastMulti.value, render))
      case _ => InvalidChoice
  }

  /** A blank-padded "1" is not accepted: only the exact digit selects an export. */
  lemma ChoiceIsNotTrimmed(lastDomain: Option<DomainResult>, lastReverse: Option<ReverseResult>,
                           lastMulti: Option<MultiResult>, render: int -> string)
    ensures Export(Some(" 1"), Some("out.txt"), lastDomain, lastReverse, lastMulti, render) == InvalidChoice
  {
    assert !IsWhiteSpace("out.txt"[0]);
  }
}
