/** Which DNS server the lookups go to: the console's "set DNS server" prompt, the desktop
    application's server dialog, and the resolver options built from the chosen server. */
module Servers {
  import opened Prelude
  import opened Text
  import opened Dns
  import Security

  // ---------------------------------------------------------------------------------------------
  // Resolver options

  /** The per-query timeout, in seconds, and the retry count every resolver is built with. */
  const TimeoutSeconds: nat := 5
  const Retries: nat := 3

  /** What `CreateLookupClient` hands to the resolver: the override server, if any, and the fixed
      timeout and retry count. */
  datatype LookupOptions = LookupOptions(server: Option<IpAddress>, timeoutSeconds: nat, retries: nat)

  /** `CreateLookupClient`. The security switches are in scope but not consulted. */
  function CreateLookupOptions(server: Option<IpAddress>, flags: Security.Flags): (o: LookupOptions)
    ensures o.server == server
    ensures o.timeoutSeconds == TimeoutSeconds && o.retries == Retries
  {
    LookupOptions(server, TimeoutSeconds, Retries)
  }

  /** The security switches have no effect on how queries are sent: two settings that differ only
      in them give the same resolver options. */
  lemma SecurityFlagsDoNotReachResolver(server: Option<IpAddress>, a: Security.Flags, b: Security.Flags)
    ensures CreateLookupOptions(server, a) == CreateLookupOptions(server, b)
  {
  }

  // ---------------------------------------------------------------------------------------------
  // Console prompt

  /** `ConfigureDnsServer`. The trimmed answer "default" (exactly, in lower case) removes the
      override; an answer that parses as an address becomes the override; anything else, end of
      input included, leaves it as it was. `parseIp` stands for `IPAddress.TryParse`. */
  function ConsoleServer(current: Option<IpAddress>, input: Option<string>, parseIp: string -> Option<IpAddress>)
    : (r: Option<IpAddress>)
    ensures input.Some? && Trim(input.value) == "default" ==> r.None?
    ensures input.Some? && Trim(input.value) != "default" && parseIp(Trim(input.value)).Some? ==>
      r == parseIp(Trim(input.value))
    ensures input.None? || (Trim(input.value) != "default" && parseIp(Trim(input.value)).None?) ==> r == current
  {
    match input
    case None => current
    case Some(line) =>
      var answer := Trim(line);
      if answer == "default" then None
      else if parseIp(answer).Some? then parseIp(answer)
      else current
  }

  /** Giving the same answer twice has the effect of giving it once. */
  lemma ConsoleServerIdempotent(current: Option<IpAddress>, input: Option<string>, parseIp: string -> Option<IpAddress>)
    ensures ConsoleServer(ConsoleServer(current, input, parseIp), input, parseIp) == ConsoleServer(current, input, parseIp)
  {
  }

  /** Whatever was set before, "default" brings back the system resolver. */
  lemma DefaultUndoesConsoleServer(current: Option<IpAddress>, input: Option<string>, parseIp: string -> Option<IpAddress>)
    ensures ConsoleServer(ConsoleServer(current, input, parseIp), Some("default"), parseIp).None?
  {
    assert Trim("default") == "default";
  }

  /** The console prompt's choice is what the next lookup is sent with: "default" leaves the
      resolver without a server (the system's servers are used), a parsed address becomes the
      resolver's server, and any other answer leaves the options as they were. */
  lemma ConsoleChoiceReachesResolver(current: Option<IpAddress>, input: Option<string>,
                                     parseIp: string -> Option<IpAddress>, flags: Security.Flags)
    ensures input.Some? && Trim(input.value) == "default" ==>
      CreateLookupOptions(ConsoleServer(current, input, parseIp), flags).server.None?
    ensures input.Some? && Trim(input.value) != "default" && parseIp(Trim(input.value)).Some? ==>
      CreateLookupOptions(ConsoleServer(current, input, parseIp), flags).server == parseIp(Trim(input.value))
    ensures input.None? || (Trim(input.value) != "default" && parseIp(Trim(input.value)).None?) ==>
      CreateLookupOptions(ConsoleServer(current, input, parseIp), flags) == CreateLookupOptions(current, flags)
    ensures CreateLookupOptions(ConsoleServer(current, input, parseIp), flags).timeoutSeconds == TimeoutSeconds
  {
  }

  // ---------------------------------------------------------------------------------------------
  // Server dialog

  /** The dialog while it is open: the server it was given and the text in its box. */
  datatype Dialog = Dialog(server: Option<IpAddress>, text: string)

  /** What the user does in the box before closing the dialog. */
  datatype DialogEdit = Typed(text: string) | DefaultPressed

  /** An edit: typing replaces the box's text; "Default" empties it. */
  function ApplyEdit(d: Dialog, e: DialogEdit): (r: Dialog)
    ensures r.server == d.server
    ensures e.DefaultPressed? ==> r.text == ""
    ensures e.Typed? ==> r.text == e.text
  {
    match e
    case Typed(t) => d.(text := t)
    case DefaultPressed => d.(text := "")
  }

  /** A run of edits, in order; only the last one decides the box's text. */
  function ApplyEdits(d: Dialog, es: seq<DialogEdit>): (r: Dialog)
    ensures r.server == d.server
    ensures |es| == 0 ==> r == d
    ensures |es| > 0 ==> r == ApplyEdit(d, es[|es| - 1])
  {
    if |es| == 0 then d else ApplyEdit(ApplyEdits(d, es[..|es| - 1]), es[|es| - 1])
  }

  /** `BtnOk_Click`: a blank box (after trimming) removes the override; an address becomes it;
      anything else shows an error and keeps the server the dialog was given, which the caller
      copies back because the button closes the dialog with OK in either case. */
  function Accept(d: Dialog, parseIp: string -> Option<IpAddress>): (r: Option<IpAddress>)
    ensures IsBlank(d.text) ==> r.None?
    ensures !IsBlank(d.text) && parseIp(Trim(d.text)).Some? ==> r == parseIp(Trim(d.text))
    ensures !IsBlank(d.text) && parseIp(Trim(d.text)).None? ==> r == d.server
  {
    var input := Trim(d.text);
    if IsBlank(input) then None
    else if parseIp(input).Some? then parseIp(input)
    else d.server
  }

  /** `BtnConfigDns_Click`, with the dialog as the constructor actually opens it: the box is filled
      while `InitializeComponent` runs, before the caller's initializer has set `DnsServer`, so it
      always starts empty. */
  function OpenAsWritten(current: Option<IpAddress>): (d: Dialog)
    ensures d.server == current && d.text == ""
  {
    Dialog(current, "")
  }

  /** The dialog as evidently intended: the box shows the current override, or nothing. */
  function Open(current: Option<IpAddress>): (d: Dialog)
    ensures d.server == current
    ensures current.None? ==> d.text == ""
    ensures current.Some? ==> d.text == current.value.text
  {
    Dialog(current, if current.Some? then current.value.text else "")
  }

  /** The override after the dialog: Cancel leaves the override alone; OK accepts what the text box
      holds, which is the last edit's text, or the text the dialog opened with when nothing was
      edited. */
  function CloseDialog(current: Option<IpAddress>, start: Dialog, es: seq<DialogEdit>, accepted: bool,
                       parseIp: string -> Option<IpAddress>): (r: Option<IpAddress>)
    ensures !accepted ==> r == current
    ensures accepted && |es| == 0 ==> r == Accept(start, parseIp)
    ensures accepted && |es| > 0 ==> r == Accept(ApplyEdit(start, es[|es| - 1]), parseIp)
  {
    if accepted then Accept(ApplyEdits(start, es), parseIp) else current
  }

  /** An address prints as text that parses back to it and has no surrounding blanks. */
  predicate PrintsBack(ip: IpAddress, parseIp: string -> Option<IpAddress>) {
    |ip.text| > 0 && Trim(ip.text) == ip.text && parseIp(ip.text) == Some(ip)
  }

  /** As written: opening the dialog with an override in place and pressing OK without touching the
      box removes the override. */
  lemma OkWithoutEditClearsServer(ip: IpAddress, parseIp: string -> Option<IpAddress>)
    ensures CloseDialog(Some(ip), OpenAsWritten(Some(ip)), [], true, parseIp).None?
  {
  }

  /** As intended: pressing OK without touching the box keeps whatever was in effect. */
  lemma OkWithoutEditKeepsServer(current: Option<IpAddress>, parseIp: string -> Option<IpAddress>)
    requires current.Some? ==> PrintsBack(current.value, parseIp)
    ensures CloseDialog(current, Open(current), [], true, parseIp) == current
  {
    if current.Some? {
      var t := current.value.text;
      assert !IsWhiteSpace(t[0]);
      assert !IsBlank(t);
    }
  }

  /** "Default" then OK removes the override, however the dialog was opened. */
  lemma DefaultThenOkClears(current: Option<IpAddress>, start: Dialog, es: seq<DialogEdit>,
                            parseIp: string -> Option<IpAddress>)
    ensures CloseDialog(current, start, es + [DefaultPressed], true, parseIp).None?
  {
    assert (es + [DefaultPressed])[..|es|] == es;
  }

  /** The dialog and the console prompt agree on any answer other than "default" that parses as an
      address. */
  lemma DialogAgreesWithConsole(current: Option<IpAddress>, answer: string, parseIp: string -> Option<IpAddress>)
    requires !IsBlank(answer) && Trim(answer) != "default" && parseIp(Trim(answer)).Some?
    ensures CloseDialog(current, Open(current), [Typed(answer)], true, parseIp)
         == ConsoleServer(current, Some(answer), parseIp)
  {
  }
}
