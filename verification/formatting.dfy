/** Rendering one answer record as a line of text. Both windows share one rule per record type;
    the console's multi-record lookup has its own wording for MX and SOA. Every rule casts the
    record to the class of the requested type first, so a record of another class is a cast
    failure, not a wrong line. */
module Formatting {
  import opened Prelude
  import opened Text
  import opened Dns

  const UnknownRecordText: string := "Unknown record type"
  const PreferenceLabel: string := " (Preference: "
  /** The console's wording for the same MX field. */
  const PriorityLabel: string := " (Priority: "
  /** The start of the console's SOA line, before the primary name server. */
  const SoaPrimaryLabel: string := "SOA: Primary: "

  /** `FormatRecord(type, answer)` of the two windows. */
  function FormatRecord(t: QueryType, answer: RecordValue): (r: Result<string, Fault>)
    ensures t.OtherType? ==> r == Ok(UnknownRecordText)
    ensures t.Offered() ==> (r.Ok? <==> KindOf(answer) == t)
    ensures r.Err? ==> r.error == InvalidCast
    ensures t.Offered() && r.Ok? ==> TypeName(t) + ": " <= r.value
    ensures r.Ok? ==> (r.value == UnknownRecordText <==> t.OtherType?)
    ensures t == SOA && r.Ok? ==> |r.value| >= 5 && r.value[5..] == answer.mName
  {
    if t.OtherType? then Ok(UnknownRecordText)
    else if KindOf(answer) != t then Err(InvalidCast)
    else
      var line :=
        match answer
        case ARecord(address) => "A: " + address
        case AaaaRecord(address) => "AAAA: " + address
        case PtrRecord(name) => "PTR: " + name
        case MxRecord(exchange, preference) => "MX: " + exchange + PreferenceLabel + NatToString(preference) + ")"
        case CNameRecord(name) => "CNAME: " + name
        case TxtRecord(segments) => "TXT: " + Join(" ", segments)
        case NsRecord(name) => "NS: " + name
        case SoaRecord(mName, _, _) => "SOA: " + mName;
      assert line[0] == TypeName(t)[0] != UnknownRecordText[0];
      Ok(line)
  }

  /** The record formatting of the console's multi-record lookup. Its `switch` has no default arm,
      so a type outside the eight leaves the line empty. */
  function ConsoleFormatRecord(t: QueryType, answer: RecordValue): (r: Result<string, Fault>)
    ensures t.OtherType? ==> r == Ok("")
    ensures t.Offered() ==> (r.Ok? <==> KindOf(answer) == t)
    ensures r.Err? ==> r.error == InvalidCast
    ensures t.Offered() && r.Ok? ==> TypeName(t) + ": " <= r.value
  {
    if t.OtherType? then Ok("")
    else if KindOf(answer) != t then Err(InvalidCast)
    else
      var line :=
        match answer
        case ARecord(address) => "A: " + address
        case AaaaRecord(address) => "AAAA: " + address
        case PtrRecord(name) => "PTR: " + name
        case MxRecord(exchange, preference) => "MX: " + exchange + " (Priority: " + NatToString(preference) + ")"
        case CNameRecord(name) => "CNAME: " + name
        case TxtRecord(segments) => "TXT: " + Join(" ", segments)
        case NsRecord(name) => "NS: " + name
        case SoaRecord(mName, rName, serial) =>
          "SOA: Primary: " + mName + ", Responsible: " + rName + ", Serial: " + NatToString(serial);
      Ok(line)
  }

  /** The two renderings differ only for MX and SOA. */
  lemma ConsoleAgreesExceptMxAndSoa(t: QueryType, answer: RecordValue)
    requires t.Offered() && t != MX && t != SOA
    ensures ConsoleFormatRecord(t, answer) == FormatRecord(t, answer)
  {
  }

  /** An MX line ends with the preference in parentheses. */
  lemma MxLineEndsWithPreference(exchange: string, preference: nat)
    ensures var r := FormatRecord(MX, MxRecord(exchange, preference));
      && r.Ok?
      && |r.value| >= |PreferenceLabel| + 1
      && r.value[|r.value| - 1] == ')'
      && exists k :: 0 <= k <= |r.value| && r.value[k..] == PreferenceLabel + NatToString(preference) + ")"
  {
    var r := FormatRecord(MX, MxRecord(exchange, preference));
    var k := |"MX: " + exchange|;
    assert r.value == ("MX: " + exchange) + (PreferenceLabel + NatToString(preference) + ")");
    assert r.value[k..] == PreferenceLabel + NatToString(preference) + ")";
  }

  /** An SOA line shows the primary name server only: SOA records that share it print the same. */
  lemma SoaShowsOnlyPrimary(a: RecordValue, b: RecordValue)
    requires a.SoaRecord? && b.SoaRecord? && a.mName == b.mName
    ensures FormatRecord(SOA, a) == FormatRecord(SOA, b)
    ensures FormatRecord(SOA, a).value[5..] == a.mName
    ensures a.serial != b.serial ==> ConsoleFormatRecord(SOA, a) != ConsoleFormatRecord(SOA, b)
  {
    if ConsoleFormatRecord(SOA, a) == ConsoleFormatRecord(SOA, b) {
      var ra := SoaAfterPrimary(a.rName, a.serial);
      var rb := SoaAfterPrimary(b.rName, b.serial);
      ConsoleSoaText(a);
      ConsoleSoaText(b);
      PrefixCancels(SoaPrimaryLabel, a.mName + ra, b.mName + rb);
      PrefixCancels(a.mName, ra, rb);
      SoaAfterPrimaryInjective(a.rName, a.serial, b.rName, b.serial);
    }
  }

  /** When both strings end in a separator that is not a digit, an equal concatenation with a
      trailing run of digits splits the same way. */
  lemma DigitsTailInjective(x1: string, d1: string, x2: string, d2: string)
    requires |x1| > 0 && |x2| > 0 && !IsDigit(x1[|x1| - 1]) && !IsDigit(x2[|x2| - 1])
    requires AllDigits(d1) && AllDigits(d2)
    requires x1 + d1 == x2 + d2
    ensures x1 == x2 && d1 == d2
  {
    var s := x1 + d1;
    assert forall i :: |x1| <= i < |s| ==> IsDigit(s[i]);
    assert forall i :: |x2| <= i < |s| ==> IsDigit(s[i]);
    assert !IsDigit(s[|x1| - 1]) && !IsDigit(s[|x2| - 1]);
    assert x1 == s[..|x1|] == x2;
    assert d1 == s[|x1|..] == d2;
  }

  /** For A, AAAA, PTR, MX, CNAME and NS the line determines the record: formatting loses nothing. */
  lemma FormatRecordInjective(t: QueryType, a: RecordValue, b: RecordValue)
    requires t in {A, AAAA, PTR, MX, CNAME, NS}
    requires KindOf(a) == t && KindOf(b) == t
    requires FormatRecord(t, a) == FormatRecord(t, b)
    ensures a == b
  {
    var sa := FormatRecord(t, a).value;
    var sb := FormatRecord(t, b).value;
    match a
    case MxRecord(x1, p1) =>
      MxLineInjective(x1, p1, b.exchange, b.preference);
    case ARecord(x) =>
      assert x == sa[3..] == sb[3..] == b.address;
    case AaaaRecord(x) =>
      assert x == sa[6..] == sb[6..] == b.address;
    case PtrRecord(x) =>
      assert x == sa[5..] == sb[5..] == b.ptrDomainName;
    case CNameRecord(x) =>
      assert x == sa[7..] == sb[7..] == b.canonicalName;
    case NsRecord(x) =>
      assert x == sa[4..] == sb[4..] == b.nsdName;
  }

  /** An MX line determines both the exchange and the preference. */
  lemma MxLineInjective(x1: string, p1: nat, x2: string, p2: nat)
    requires FormatRecord(MX, MxRecord(x1, p1)) == FormatRecord(MX, MxRecord(x2, p2))
    ensures x1 == x2 && p1 == p2
  {
    MxTextInjective(PreferenceLabel, x1, p1, x2, p2);
  }

  /** The console's MX line determines both the exchange and the preference, too. */
  lemma ConsoleMxLineInjective(x1: string, p1: nat, x2: string, p2: nat)
    requires ConsoleFormatRecord(MX, MxRecord(x1, p1)) == ConsoleFormatRecord(MX, MxRecord(x2, p2))
    ensures x1 == x2 && p1 == p2
  {
    MxTextInjective(PriorityLabel, x1, p1, x2, p2);
  }

  /** "MX: exchange" + label + preference + ")" can be read back when the label ends in a space. */
  lemma MxTextInjective(tag: string, x1: string, p1: nat, x2: string, p2: nat)
    requires |tag| > 0 && tag[|tag| - 1] == ' '
    requires "MX: " + x1 + tag + NatToString(p1) + ")" == "MX: " + x2 + tag + NatToString(p2) + ")"
    ensures x1 == x2 && p1 == p2
  {
    var sa := "MX: " + x1 + tag + NatToString(p1) + ")";
    var sb := "MX: " + x2 + tag + NatToString(p2) + ")";
    var u1 := "MX: " + x1 + tag;
    var u2 := "MX: " + x2 + tag;
    assert sa[..|sa| - 1] == u1 + NatToString(p1);
    assert sb[..|sb| - 1] == u2 + NatToString(p2);
    assert u1[|u1| - 1] == ' ' && u2[|u2| - 1] == ' ';
    DigitsTailInjective(u1, NatToString(p1), u2, NatToString(p2));
    ParseNatRoundTrip(p1);
    ParseNatRoundTrip(p2);
    assert "MX: " + x1 == u1[..|u1| - |tag|];
    assert "MX: " + x2 == u2[..|u2| - |tag|];
    assert x1 == ("MX: " + x1)[4..] == ("MX: " + x2)[4..] == x2;
  }

  /** The console's MX line ends with the preference, worded as a priority. */
  lemma ConsoleMxLineEndsWithPriority(exchange: string, preference: nat)
    ensures var r := ConsoleFormatRecord(MX, MxRecord(exchange, preference));
      var tail := PriorityLabel + NatToString(preference) + ")";
      && r.Ok?
      && "MX: " + exchange <= r.value
      && |r.value| >= |tail|
      && r.value[|r.value| - |tail|..] == tail
  {
    var r := ConsoleFormatRecord(MX, MxRecord(exchange, preference));
    var tail := PriorityLabel + NatToString(preference) + ")";
    assert r.value == ("MX: " + exchange) + tail;
  }

  /** The console's SOA line names the primary server first, then the responsible mailbox, and
      ends with the serial. */
  lemma ConsoleSoaLineFields(a: RecordValue)
    requires a.SoaRecord?
    ensures var r := ConsoleFormatRecord(SOA, a);
      var tail := ", Serial: " + NatToString(a.serial);
      && r.Ok?
      && SoaPrimaryLabel + a.mName + ", Responsible: " + a.rName <= r.value
      && |r.value| >= |tail|
      && r.value[|r.value| - |tail|..] == tail
  {
    var r := ConsoleFormatRecord(SOA, a);
    var tail := ", Serial: " + NatToString(a.serial);
    assert r.value == (SoaPrimaryLabel + a.mName + ", Responsible: " + a.rName) + tail;
  }

  /** When the primary name server holds no comma, the console's SOA line determines the whole
      record: the primary, the responsible mailbox and the serial can all be read back. */
  lemma ConsoleSoaLineInjective(a: RecordValue, b: RecordValue)
    requires a.SoaRecord? && b.SoaRecord? && ',' !in a.mName && ',' !in b.mName
    requires ConsoleFormatRecord(SOA, a) == ConsoleFormatRecord(SOA, b)
    ensures a == b
  {
    var ra := SoaAfterPrimary(a.rName, a.serial);
    var rb := SoaAfterPrimary(b.rName, b.serial);
    ConsoleSoaText(a);
    ConsoleSoaText(b);
    PrefixCancels(SoaPrimaryLabel, a.mName + ra, b.mName + rb);
    CommaFreePrefix(a.mName, ra, b.mName, rb);
    SoaAfterPrimaryInjective(a.rName, a.serial, b.rName, b.serial);
  }

  lemma ConsoleSoaText(a: RecordValue)
    requires a.SoaRecord?
    ensures ConsoleFormatRecord(SOA, a) == Ok(SoaPrimaryLabel + (a.mName + SoaAfterPrimary(a.rName, a.serial)))
  {
    var n := NatToString(a.serial);
    assert ConsoleFormatRecord(SOA, a) ==
      Ok("SOA: Primary: " + a.mName + ", Responsible: " + a.rName + ", Serial: " + n);
    SoaRegroup(a.mName, a.rName, n);
  }

  lemma SoaRegroup(m: string, r: string, n: string)
    ensures "SOA: Primary: " + m + ", Responsible: " + r + ", Serial: " + n
         == SoaPrimaryLabel + (m + (", Responsible: " + r + ", Serial: " + n))
  {
  }

  lemma PrefixCancels(p: string, x: string, y: string)
    requires p + x == p + y
    ensures x == y
  {
    assert x == (p + x)[|p|..];
  }

  /** The console's SOA text after the primary name server. */
  function SoaAfterPrimary(rName: string, serial: nat): (r: string)
    ensures |r| > 0 && r[0] == ','
  {
    ", Responsible: " + rName + ", Serial: " + NatToString(serial)
  }

  /** The text after the primary determines the mailbox and the serial. */
  lemma SoaAfterPrimaryInjective(n1: string, s1: nat, n2: string, s2: nat)
    requires SoaAfterPrimary(n1, s1) == SoaAfterPrimary(n2, s2)
    ensures n1 == n2 && s1 == s2
  {
    var r := SoaAfterPrimary(n1, s1);
    var t1, t2 := n1 + ", Serial: ", n2 + ", Serial: ";
    assert r == ", Responsible: " + (t1 + NatToString(s1));
    assert r == ", Responsible: " + (t2 + NatToString(s2));
    assert t1 + NatToString(s1) == r[15..] == t2 + NatToString(s2);
    DigitsTailInjective(t1, NatToString(s1), t2, NatToString(s2));
    ParseNatRoundTrip(s1);
    ParseNatRoundTrip(s2);
    assert n1 == t1[..|t1| - 10] == t2[..|t2| - 10] == n2;
  }

  /** A comma-free word followed by a text that starts with a comma splits only one way. */
  lemma CommaFreePrefix(x1: string, y1: string, x2: string, y2: string)
    requires ',' !in x1 && ',' !in x2 && |y1| > 0 && |y2| > 0 && y1[0] == ',' && y2[0] == ','
    requires x1 + y1 == x2 + y2
    ensures x1 == x2 && y1 == y2
  {
    var s := x1 + y1;
    CommaAt(x1, y1);
    CommaAt(x2, y2);
    assert |x1| == |x2|;
    assert x1 == s[..|x1|] && x2 == s[..|x2|];
    assert y1 == s[|x1|..] && y2 == s[|x2|..];
  }

  /** In a comma-free word followed by a comma, the first comma is right after the word. */
  lemma CommaAt(x: string, y: string)
    requires ',' !in x && |y| > 0 && y[0] == ','
    ensures (x + y)[|x|] == ',' && forall i :: 0 <= i < |x| ==> (x + y)[i] != ','
  {
    assert forall i :: 0 <= i < |x| ==> (x + y)[i] == x[i];
  }

  /** A TXT line joins the segments with single spaces: when no segment holds a space, splitting
      the text after "TXT: " on spaces gives the segments back. */
  lemma TxtSegmentsRecoverable(segments: seq<string>)
    requires |segments| >= 1
    requires forall i :: 0 <= i < |segments| ==> ' ' !in segments[i]
    ensures var s := FormatRecord(TXT, TxtRecord(segments)).value;
      |s| >= 5 && Split(s[5..], ' ') == segments
  {
    var s := FormatRecord(TXT, TxtRecord(segments)).value;
    assert s[5..] == Join(" ", segments);
    SplitJoin(segments, ' ');
  }
}
