/** The data the tool works on: record types, the typed answers a resolver returns, the outcome of
    one resolver call, and the entries of the query history. */
module Dns {
  import opened Prelude

  /** DnsClient's `QueryType`: the eight types the tool offers, and any other code of that enumeration. */
  datatype QueryType = A | AAAA | PTR | MX | CNAME | TXT | NS | SOA | OtherType(code: nat) {
    /** One of the eight types the menus and the combo box offer. */
    predicate Offered() {
      !OtherType?
    }
  }

  /** The eight offered types, in menu order. */
  const OfferedTypes: seq<QueryType> := [A, AAAA, PTR, MX, CNAME, TXT, NS, SOA]

  /** `QueryType.ToString()` of an offered type: the enumeration member's name. */
  function TypeName(t: QueryType): (r: string)
    requires t.Offered()
  {
    match t
    case A => "A"
    case AAAA => "AAAA"
    case PTR => "PTR"
    case MX => "MX"
    case CNAME => "CNAME"
    case TXT => "TXT"
    case NS => "NS"
    case SOA => "SOA"
  }

  /** An `IPAddress`; `text` is what its `ToString()` shows. Parsing is supplied by the caller as a
      function `string -> Option<IpAddress>` standing for `IPAddress.TryParse`. */
  datatype IpAddress = IpAddress(text: string)

  /** One resource record of an answer, by its runtime class in DnsClient.Protocol. Names and
      addresses are held as the text their `ToString()` shows. */
  datatype RecordValue =
    | ARecord(address: string)
    | AaaaRecord(address: string)
    | PtrRecord(ptrDomainName: string)
    | MxRecord(exchange: string, preference: nat)
    | CNameRecord(canonicalName: string)
    | TxtRecord(text: seq<string>)
    | NsRecord(nsdName: string)
    | SoaRecord(mName: string, rName: string, serial: nat)
    | OtherRecord(code: nat)

  /** The record type a record belongs to. */
  function KindOf(r: RecordValue): (t: QueryType)
    ensures t.Offered() <==> !r.OtherRecord?
  {
    match r
    case ARecord(_) => A
    case AaaaRecord(_) => AAAA
    case PtrRecord(_) => PTR
    case MxRecord(_, _) => MX
    case CNameRecord(_) => CNAME
    case TxtRecord(_) => TXT
    case NsRecord(_) => NS
    case SoaRecord(_, _, _) => SOA
    case OtherRecord(c) => OtherType(c)
  }

  /** What one resolver call gives back: the answer section and the elapsed milliseconds the
      stopwatch measured, or a failure (the call threw). */
  datatype ResolveOutcome = Resolved(answers: seq<RecordValue>, elapsedMs: nat) | Failed(message: string)

  /** A runtime failure the source does not catch where it happens: an invalid cast of a record, or
      a null dereference. */
  datatype Fault = InvalidCast | NullReference

  /** One row of the query history (`HistoryEntry`). `timestamp` is `DateTime.Now` at the time of
      saving, as a tick count; `elapsedMs` is a C# `long`, and a history file may hold negative values. */
  datatype HistoryEntry = HistoryEntry(recordType: string, query: string, timestamp: int, elapsedMs: int, details: string)
}
