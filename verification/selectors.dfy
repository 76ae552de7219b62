/** How the user's choice of record type becomes a `QueryType`: the console menu digits and the
    combo-box labels of the two windows (one with a `switch`, one with an `if` chain). */
module Selectors {
  import opened Prelude
  import opened Dns

  /** The answers the console record-type menu accepts, in menu order. */
  const MenuDigits: seq<string> := ["1", "2", "3", "4", "5", "6", "7", "8"]

  /** The items of the record-type combo box, in display order. */
  const ComboLabels: seq<string> := ["A", "AAAA", "PTR", "MX", "CNAME", "TXT", "NS", "SOA"]

  /** `GetQueryTypeFromChoice` of the console: digit i selects the i-th offered type, and anything
      else, a null line included, selects A. */
  function QueryTypeFromChoice(choice: Option<string>): (t: QueryType)
    ensures t.Offered()
    ensures forall i :: 0 <= i < 8 && choice == Some(MenuDigits[i]) ==> t == OfferedTypes[i]
    ensures (choice.None? || choice.value !in MenuDigits) ==> t == A
  {
    match choice
    case Some("1") => A
    case Some("2") => AAAA
    case Some("3") => PTR
    case Some("4") => MX
    case Some("5") => CNAME
    case Some("6") => TXT
    case Some("7") => NS
    case Some("8") => SOA
    case _ => A
  }

  /** `GetQueryType` of the .NET 6 window (a `switch` expression). */
  function QueryTypeFromLabel(item: string): (t: QueryType)
    ensures t.Offered()
    ensures forall i :: 0 <= i < 8 && item == ComboLabels[i] ==> t == OfferedTypes[i]
    ensures item !in ComboLabels ==> t == A
  {
    match item
    case "AAAA" => AAAA
    case "PTR" => PTR
    case "MX" => MX
    case "CNAME" => CNAME
    case "TXT" => TXT
    case "NS" => NS
    case "SOA" => SOA
    case _ => A
  }

  /** `GetQueryType` of the .NET Framework 4.7.2 window (an `if` chain); it agrees with the
      `switch` version on every string. */
  function QueryTypeFromLabelChain(item: string): (t: QueryType)
    ensures t == QueryTypeFromLabel(item)
  {
    if item == "AAAA" then AAAA
    else if item == "PTR" then PTR
    else if item == "MX" then MX
    else if item == "CNAME" then CNAME
    else if item == "TXT" then TXT
    else if item == "NS" then NS
    else if item == "SOA" then SOA
    else A
  }

  /** The i-th offered type is named by the i-th combo item. */
  lemma OfferedTypeName(i: nat)
    requires i < 8
    ensures TypeName(OfferedTypes[i]) == ComboLabels[i]
  {
    if i == 0 {} else if i == 1 {} else if i == 2 {} else if i == 3 {}
    else if i == 4 {} else if i == 5 {} else if i == 6 {} else {}
  }

  /** Every combo item names its own type: item -> type -> name gives the item back, and the
      name of every offered type selects that type again. */
  lemma LabelRoundTrip()
    ensures forall i :: 0 <= i < 8 ==> TypeName(QueryTypeFromLabel(ComboLabels[i])) == ComboLabels[i]
    ensures forall t: QueryType :: t.Offered() ==> QueryTypeFromLabel(TypeName(t)) == t
  {
    forall i | 0 <= i < 8
      ensures TypeName(QueryTypeFromLabel(ComboLabels[i])) == ComboLabels[i]
    {
      assert QueryTypeFromLabel(ComboLabels[i]) == OfferedTypes[i];
      OfferedTypeName(i);
    }
    forall t: QueryType | t.Offered()
      ensures QueryTypeFromLabel(TypeName(t)) == t
    {
      NameSelectsType(t);
    }
  }

  /** The name of an offered type, chosen in the combo box, selects that type. */
  lemma NameSelectsType(t: QueryType)
    requires t.Offered()
    ensures QueryTypeFromLabel(TypeName(t)) == t
  {
    match t
    case A =>
    case AAAA =>
    case PTR =>
    case MX =>
    case CNAME =>
    case TXT =>
    case NS =>
    case SOA =>
  }
}
