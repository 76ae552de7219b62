/** The two security switches (`ForceTcpOnly`, `EnableDnsSec`), how the console's menu and the
    settings tab change them, and how they are written to and read back from the settings
    document. */
module Security {
  import opened Prelude
  import opened Text

  /** The switches. Both start off. */
  datatype Flags = Flags(forceTcpOnly: bool, enableDnsSec: bool)

  const Defaults: Flags := Flags(false, false)

  // ---------------------------------------------------------------------------------------------
  // Console menu

  /** The menu answer as the console reads it: the line, trimmed, or `None` at end of input. */
  function Choice(input: Option<string>): (c: Option<string>)
    ensures c.None? <==> input.None?
    ensures c.Some? ==> |c.value| <= |input.value|
  {
    match input
    case None => None
    case Some(line) => Some(Trim(line))
  }

  /** `ConfigureSecurity`'s switch: "1" flips the TCP switch, "2" flips the DNSSEC switch, "3"
      turns both off; any other answer, a blank one included, changes nothing. */
  function ApplyChoice(f: Flags, input: Option<string>): (r: Flags)
    ensures Choice(input) == Some("1") ==> r.forceTcpOnly != f.forceTcpOnly && r.enableDnsSec == f.enableDnsSec
    ensures Choice(input) == Some("2") ==> r.enableDnsSec != f.enableDnsSec && r.forceTcpOnly == f.forceTcpOnly
    ensures Choice(input) == Some("3") ==> r == Defaults
    ensures Choice(input) != Some("1") && Choice(input) != Some("2") && Choice(input) != Some("3") ==> r == f
  {
    match Choice(input)
    case Some("1") => f.(forceTcpOnly := !f.forceTcpOnly)
    case Some("2") => f.(enableDnsSec := !f.enableDnsSec)
    case Some("3") => Defaults
    case _ => f
  }

  /** Choosing the same toggle twice puts both switches back as they were. */
  lemma ToggleTwiceRestores(f: Flags, input: Option<string>)
    requires Choice(input) == Some("1") || Choice(input) == Some("2")
    ensures ApplyChoice(ApplyChoice(f, input), input) == f
  {
  }

  /** Choosing reset a second time changes nothing more. */
  lemma ResetIdempotent(f: Flags, input: Option<string>)
    requires Choice(input) == Some("3")
    ensures ApplyChoice(ApplyChoice(f, input), input) == ApplyChoice(f, input)
  {
  }

  // ---------------------------------------------------------------------------------------------
  // Settings tab

  /** What the user does on the settings tab: tick or untick a box, or press "Reset to Defaults". */
  datatype SettingsEvent = ForceTcpChecked(checked: bool) | DnsSecChecked(checked: bool) | ResetClicked

  /** The settings tab's handlers: a box sets its own switch to its state and leaves the other one
      alone; reset turns both off. */
  function Handle(f: Flags, ev: SettingsEvent): (r: Flags)
    ensures ev.ForceTcpChecked? ==> r.forceTcpOnly == ev.checked && r.enableDnsSec == f.enableDnsSec
    ensures ev.DnsSecChecked? ==> r.enableDnsSec == ev.checked && r.forceTcpOnly == f.forceTcpOnly
    ensures ev.ResetClicked? ==> r == Defaults
  {
    match ev
    case ForceTcpChecked(c) => f.(forceTcpOnly := c)
    case DnsSecChecked(c) => f.(enableDnsSec := c)
    case ResetClicked => Defaults
  }

  /** The reset button and the console's option 3 leave the same switches. */
  lemma ResetAgreesWithConsole(f: Flags, g: Flags, input: Option<string>)
    requires Choice(input) == Some("3")
    ensures Handle(f, ResetClicked) == ApplyChoice(g, input)
  {
  }

  /** Ticking a box when it shows the opposite of its switch does what the console toggle does. */
  lemma CheckboxAgreesWithToggle(f: Flags, input: Option<string>)
    requires Choice(input) == Some("1")
    ensures Handle(f, ForceTcpChecked(!f.forceTcpOnly)) == ApplyChoice(f, input)
  {
  }

  // ---------------------------------------------------------------------------------------------
  // Settings document

  /** A JSON value as the JSON library hands it over; an object keeps its members in document
      order, duplicates included. */
  datatype Json =
    | JNull
    | JBool(b: bool)
    | JNumber(n: int)
    | JString(s: string)
    | JArray(items: seq<Json>)
    | JObject(members: seq<(string, Json)>)

  /** The settings file at start-up: absent, unreadable or not JSON (the deserializer throws), or
      parsed. An empty file deserializes to a null node, written `Parsed(JNull)`. */
  datatype SettingsFile = Missing | Malformed | Parsed(node: Json)

  /** A member of an object by exact name; of duplicate names the last one wins. */
  function Member(members: seq<(string, Json)>, name: string): (r: Option<Json>)
    ensures r.Some? <==> exists i :: 0 <= i < |members| && members[i].0 == name
    ensures r.Some? ==>
      exists i :: 0 <= i < |members| && members[i] == (name, r.value) && forall j :: i < j < |members| ==> members[j].0 != name
  {
    if |members| == 0 then None
    else if members[|members| - 1].0 == name then Some(members[|members| - 1].1)
    else
      var init := members[..|members| - 1];
      var r := Member(init, name);
      MemberOfInit(members, name, r);
      r
  }

  /** When the last member has another name, the answer for the other members is the answer. */
  lemma MemberOfInit(members: seq<(string, Json)>, name: string, r: Option<Json>)
    requires |members| > 0 && members[|members| - 1].0 != name
    requires var init := members[..|members| - 1];
      && (r.Some? <==> exists i :: 0 <= i < |init| && init[i].0 == name)
      && (r.Some? ==>
            exists i :: 0 <= i < |init| && init[i] == (name, r.value) && forall j :: i < j < |init| ==> init[j].0 != name)
    ensures r.Some? <==> exists i :: 0 <= i < |members| && members[i].0 == name
    ensures r.Some? ==>
      exists i :: 0 <= i < |members| && members[i] == (name, r.value) && forall j :: i < j < |members| ==> members[j].0 != name
  {
    var init := members[..|members| - 1];
    if r.Some? {
      var i :| 0 <= i < |init| && init[i] == (name, r.value) && forall j :: i < j < |init| ==> init[j].0 != name;
      assert members[i] == init[i];
      assert forall j :: i < j < |members| - 1 ==> members[j] == init[j];
    }
    if exists i :: 0 <= i < |members| && members[i].0 == name {
      var i :| 0 <= i < |members| && members[i].0 == name;
      assert init[i] == members[i];
    }
  }

  /** `node.Name == true`: only a boolean `true` counts; a missing member counts as false. */
  predicate IsTrue(v: Option<Json>) {
    v == Some(JBool(true))
  }

  /** A member that is set to boolean `true`. */
  predicate SetTrue(node: Json, name: string) {
    node.JObject? && IsTrue(Member(node.members, name))
  }

  /** `LoadSecuritySettings`. A missing file or a null node leaves the switches as they are; an
      object sets each switch from its member; anything the deserializer or the member access throws
      on turns both off. A switch ends up on only if it was on and the file said nothing, or the
      file sets it to `true`. */
  function Load(current: Flags, file: SettingsFile): (r: Flags)
    ensures file.Missing? || file == Parsed(JNull) ==> r == current
    ensures file.Malformed? ==> r == Defaults
    ensures file.Parsed? && !file.node.JNull? && !file.node.JObject? ==> r == Defaults
    ensures r.forceTcpOnly <==>
      ((file.Missing? || file == Parsed(JNull)) && current.forceTcpOnly)
      || (file.Parsed? && SetTrue(file.node, "ForceTcpOnly"))
    ensures r.enableDnsSec <==>
      ((file.Missing? || file == Parsed(JNull)) && current.enableDnsSec)
      || (file.Parsed? && SetTrue(file.node, "EnableDnsSec"))
  {
    match file
    case Missing => current
    case Malformed => Defaults
    case Parsed(node) =>
      match node
      case JNull => current
      case JObject(members) =>
        Flags(IsTrue(Member(members, "ForceTcpOnly")), IsTrue(Member(members, "EnableDnsSec")))
      case _ => Defaults
  }

  /** `SaveSecuritySettings`: an object with one boolean member per switch. */
  function Save(f: Flags): (j: Json)
    ensures j.JObject? && |j.members| == 2
    ensures forall i :: 0 <= i < |j.members| ==> j.members[i].1.JBool?
  {
    JObject([("ForceTcpOnly", JBool(f.forceTcpOnly)), ("EnableDnsSec", JBool(f.enableDnsSec))])
  }

  /** Whatever was in effect before, loading a saved document restores exactly the saved switches. */
  lemma LoadAfterSave(current: Flags, f: Flags)
    ensures Load(current, Parsed(Save(f))) == f
  {
    var m := Save(f).members;
    assert Member(m, "EnableDnsSec") == Some(JBool(f.enableDnsSec));
    assert Member(m[..1], "ForceTcpOnly") == Some(JBool(f.forceTcpOnly));
  }

  /** One run of the console's security command: load, apply the answer, save. The document it
      writes, loaded at the next start, gives back the switches the command left. */
  function ConfigureSecurity(current: Flags, file: SettingsFile, input: Option<string>): (r: (Flags, Json))
    ensures r.0 == ApplyChoice(Load(current, file), input)
    ensures forall g: Flags :: Load(g, Parsed(r.1)) == r.0
  {
    var f := ApplyChoice(Load(current, file), input);
    forall g: Flags ensures Load(g, Parsed(Save(f))) == f {
      LoadAfterSave(g, f);
    }
    (f, Save(f))
  }
}
