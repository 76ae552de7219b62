# DNS Lookup Tool — a Dafny model of its engine

The DNS Lookup Tool exists in three versions:

- a console menu (`Program.cs`);
- a .NET 6 Windows Forms window (`MainForm.cs`);
- a .NET Framework 4.7.2 window (`MainForm_NET472.cs`), which has a small server dialog (`DnsConfigForm.cs`).

The three versions share a small engine beneath their user interfaces:

- **Query history:** saving entries, clearing, the console's delete-by-number prompt, and the window's grid of the 100 newest entries.
- **Report:** counts and mean response time per record type, and the ten most frequent queries.
- **Batch runner and response-time sampler.**
- **Record-type selectors and per-type record formatting.**
- **Security switches:** the switches and their settings document.
- **DNS-server override rules:** the override and the resolver options built from it.
- **Console export files.**

This project models that engine in Dafny and proves properties of the model. The model is functional: the history is a `seq<HistoryEntry>`, and each handler is a function from the old state and the user's input to the new state.

The DNS resolver is a parameter that returns either the records of the answer section with the elapsed milliseconds, or a failure. The clock is a parameter. So is `IPAddress.TryParse`, as `parseIp: string -> Option<IpAddress>`.

The .NET primitives the handlers use are written out concretely in `Text`:

- `char.IsWhiteSpace`;
- `Trim` and `string.IsNullOrWhiteSpace`;
- `string.Join`;
- decimal rendering of integers;
- `int.TryParse`, with its blank skipping, sign and 32-bit range.

Modules, in dependency order:

| module | file | contents |
|---|---|---|
| `Prelude` | prelude.dfy | `Option`, `Result`, `Min`, `Clamp`, `Take` |
| `Text` | text.dfy | .NET string and number primitives |
| `Dns` | dns.dfy | query types, records, resolver outcomes, history entries |
| `Selectors` | selectors.dfy | menu digit and combo label to query type |
| `Formatting` | formatting.dfy | the windows' and the console's record formatting |
| `Ranking` | ranking.dfy | stable descending sort (`OrderByDescending`) |
| `Grouping` | grouping.dfy | `GroupBy` in first-occurrence order and ranking by count |
| `Stats` | stats.dfy | `Average`/`Min`/`Max` helpers and the valid-sample filter |
| `History` | history.dfy | save, clear, delete by number, recent view |
| `Report` | report.dfy | the report's figures, as written and corrected |
| `Sampler` | sampler.dfy | response-time measurement |
| `Security` | security.dfy | security switches, console menu, settings tab, settings document |
| `Servers` | servers.dfy | resolver options, console server prompt, server dialog |
| `Exports` | exports.dfy | export line builders, their readers, the export command |
| `Lookups` | lookups.dfy | forward, reverse and multi-type lookups, windows and console |
| `Batch` | batch.dfy | batch lookups with progress |

## Model

| member | source | states |
|---|---|---|
| Selectors.QueryTypeFromChoice | DNS_LOOKUP/Program.cs:634-648 | menu answers "1".."8" select A, AAAA, PTR, MX, CNAME, TXT, NS, SOA in that order; any other answer, end of input included, selects A |
| Selectors.QueryTypeFromLabel | DNS_LOOKUP/MainForm.cs:792-805 | each of the eight combo labels selects the type of the same name; any other label selects A |
| Selectors.QueryTypeFromLabelChain | DNS_LOOKUP/MainForm_NET472.cs:753-763 | the .NET Framework if-chain selects the same type as the .NET 6 switch for every label |
| Selectors.LabelRoundTrip | DNS_LOOKUP/MainForm.cs:289 | label → type → name gives back each combo label, and name → type gives back each offered type |
| Formatting.FormatRecord | DNS_LOOKUP/MainForm.cs:807-821 | for an offered type, formatting succeeds exactly when the record is of that type and the text starts with "<TYPE>: "; otherwise the cast fails; "Unknown record type" appears exactly for a type outside the eight; an SOA line is "SOA: " followed by the primary name server |
| Formatting.ConsoleFormatRecord | DNS_LOOKUP/Program.cs:370-402 | the console's rules fail on the same records and use the same "<TYPE>: " prefix; its MX and SOA texts are pinned by the four `ConsoleMx…` and `ConsoleSoa…` lemmas |
| Formatting.ConsoleMxLineEndsWithPriority | DNS_LOOKUP/Program.cs:384-386 | the console's MX line starts with "MX: " and the exchange and ends with " (Priority: p)" |
| Formatting.ConsoleMxLineInjective | DNS_LOOKUP/Program.cs:384-386 | the console's MX line determines both the exchange and the preference |
| Formatting.ConsoleSoaLineFields | DNS_LOOKUP/Program.cs:397-399 | the console's SOA line starts with "SOA: Primary: <primary>, Responsible: <mailbox>" and ends with ", Serial: <serial>" |
| Formatting.ConsoleSoaLineInjective | DNS_LOOKUP/Program.cs:397-399 | when the primary name holds no comma, the console's SOA line determines the primary, the mailbox and the serial |
| Formatting.ConsoleAgreesExceptMxAndSoa | DNS_LOOKUP/Program.cs:373-402 | console and window texts are equal for every type except MX and SOA |
| Formatting.MxLineEndsWithPreference | DNS_LOOKUP/MainForm_NET472.cs:765-784 | an MX line ends with " (Preference: p)" |
| Formatting.SoaShowsOnlyPrimary | DNS_LOOKUP/MainForm.cs:807-821 | the window's SOA text depends only on the primary server name, which can be read back after "SOA: ", while the console's distinguishes serials |
| Formatting.FormatRecordInjective | DNS_LOOKUP/MainForm.cs:807-821 | for A, AAAA, PTR, MX, CNAME and NS, different records give different texts |
| Formatting.TxtSegmentsRecoverable | DNS_LOOKUP/MainForm.cs:807-821 | TXT segments are joined with single spaces, so segments without spaces can be split back out |
| Ranking.SortDescendingCorrect | DNS_LOOKUP/MainForm.cs:846 | the stable descending sort is a permutation, in descending key order, with equal keys in input order |
| Grouping.GroupBy | DNS_LOOKUP/Program.cs:756 | one group per distinct key, in order of first occurrence, with exact counts that add up to the number of keys |
| Grouping.CountRanking | DNS_LOOKUP/Program.cs:756-759 | the groups by decreasing count, with equal counts in first-occurrence order |
| Stats.Minimum | DNS_LOOKUP/Program.cs:702 | 0 for no samples; otherwise a sample no larger than any other |
| Stats.Maximum | DNS_LOOKUP/Program.cs:703 | 0 for no samples; otherwise a sample no smaller than any other |
| Stats.Average | DNS_LOOKUP/Program.cs:701 | 0 for no samples; otherwise between the minimum and the maximum |
| Stats.AverageIsMean | DNS_LOOKUP/Program.cs:701 | the average of a non-empty array is its mean: times the count it gives the sum, and it is the only value that does |
| Stats.ValidSamples | DNS_LOOKUP/Program.cs:303 | keeps exactly the non-negative samples |
| Stats.ValidSamplesPartition | DNS_LOOKUP/Program.cs:303 | the kept and the dropped samples together are the input, as a multiset |
| Sampler.SampleCount | DNS_LOOKUP/Program.cs:266-273 | always within [1, 50]; a blank answer gives 5; an answer that does not parse gives 1 |
| Sampler.SampleCountOfTypedNumber | DNS_LOOKUP/Program.cs:266-273 | a typed count in [1, 50] is used as typed; larger counts give 50 and 0 gives 1 |
| Sampler.SampleOf | DNS_LOOKUP/Program.cs:279-300 | a failed attempt is stored as -1; a successful one as its non-negative elapsed time |
| Sampler.Summarize | DNS_LOOKUP/Program.cs:303-308 | a summary exists exactly when some sample is non-negative; its average is the mean of the non-negative samples, and its min and max are such samples bounding all of them |
| Sampler.MeasureResponseTime | DNS_LOOKUP/Program.cs:256-321 | a blank domain is rejected; otherwise `SampleCount` attempts are recorded in order, and a summary exists exactly when one attempt succeeded; its average is the mean of the successful samples, its min and max are successful samples bounding all of them, and min ≤ average ≤ max |
| History.SaveToHistory | DNS_LOOKUP/Program.cs:650-653 | appends one entry with the given fields and leaves the earlier entries as they were |
| History.Clear | DNS_LOOKUP/MainForm.cs:414-419 | the history becomes empty |
| History.RemoveAt | DNS_LOOKUP/Program.cs:543 | removes one entry and keeps the others in order |
| History.DeleteByLabel | DNS_LOOKUP/Program.cs:540-545 | removes exactly position Count−k when the input parses to k in [1, Count]; any other input changes nothing |
| History.DeleteOneUndoesSave | DNS_LOOKUP/Program.cs:540-545 | typing 1 right after a save removes that entry again |
| History.ShownLabelDeletesMirrorEntry | DNS_LOOKUP/Program.cs:533-545 | typing the label shown next to entry i removes entry Count−1−i |
| History.ShownLabelDeletesWrongEntry | DNS_LOOKUP/Program.cs:533-545 | with two entries, typing the label of the newer one removes the older one |
| History.DeleteByShownLabel | DNS_LOOKUP/Program.cs:533-545 | corrected rule: removes the entry whose label was typed |
| History.ShownLabelDeletesThatEntry | DNS_LOOKUP/Program.cs:533-545 | under the corrected rule, typing the label of entry i removes entry i |
| History.RecentPositions | DNS_LOOKUP/MainForm.cs:846 | at most 100 distinct positions of the history, newest first with ties in insertion order, and every omitted entry comes after all the shown ones |
| History.RecentView | DNS_LOOKUP/MainForm_NET472.cs:808-814 | at most 100 rows, each drawn from the history, with timestamps non-increasing; a history of at most 100 entries is shown whole |
| History.NewestShownFirst | DNS_LOOKUP/MainForm.cs:846 | an entry newer than all others is the first row |
| History.ClearedViewIsEmpty | DNS_LOOKUP/MainForm.cs:414-419 | after Clear the grid is empty |
| Report.ElapsedOfType | DNS_LOOKUP/MainForm_NET472.cs:728 | at most one sample per entry: none for an empty history, and a single entry gives its elapsed time exactly when it has the type |
| Report.ElapsedOfTypeCount | DNS_LOOKUP/MainForm_NET472.cs:728 | one sample for each entry of the type: as many as the type's count in the table |
| Report.ElapsedOfTypeAppend | DNS_LOOKUP/MainForm_NET472.cs:728 | the samples of a joined history are those of its first part followed by those of its second, so they are the entries' elapsed times in history order |
| Report.AverageSkipsFailedSample | DNS_LOOKUP/MainForm_NET472.cs:728-729 | four entries of one type taking 10, 20, -1 and 30 ms average exactly 20 ms: the failed sample is left out of the mean |
| Report.ByTypeSafe | DNS_LOOKUP/MainForm_NET472.cs:721-731 | one row per type with its exact count and the mean of its non-negative samples (0 when there are none); rows by decreasing count with ties in first-occurrence order; the counts add up to the history length |
| Report.ByTypeAsWritten | DNS_LOOKUP/MainForm.cs:762-769 | fails with a null dereference exactly when some type has no non-negative sample; otherwise it gives the safe rows |
| Report.NegativeOnlyTypeBreaksReport | DNS_LOOKUP/Program.cs:756-759 | a single entry with a negative elapsed time makes the report fail as written, while the corrected report shows an average of 0 |
| Report.TopQueries | DNS_LOOKUP/Program.cs:767-775 | at most 10 rows, each with the exact count of its query string, ordered by decreasing count with ties in first-occurrence order; a query left out means ten rows, each asked more often or as often and first asked earlier |
| Report.FirstQueryListedOnTie | DNS_LOOKUP/Program.cs:767-770 | the query asked first is listed whenever no query is asked more often, so ties at the tenth row keep the earliest queries |
| Report.GenerateReportSafe | DNS_LOOKUP/MainForm_NET472.cs:708-745 | skipped exactly for an empty history, and never fails |
| Report.GenerateReportAsWritten | DNS_LOOKUP/Program.cs:742-776 | skipped exactly for an empty history; fails exactly when some type has no valid sample; otherwise equals the safe report |
| Report.ReportsAgreeOnValidSamples | DNS_LOOKUP/MainForm.cs:762-769 | when no elapsed time is negative, both reports agree |
| Security.ApplyChoice | DNS_LOOKUP/Program.cs:716-736 | "1" flips only the TCP switch, "2" flips only the DNSSEC switch, "3" turns both off, and any other answer changes nothing |
| Security.ToggleTwiceRestores | DNS_LOOKUP/Program.cs:718-726 | choosing the same toggle twice restores both switches |
| Security.ResetIdempotent | DNS_LOOKUP/Program.cs:728-731 | a second reset changes nothing |
| Security.Handle | DNS_LOOKUP/MainForm.cs:446-475 | a checkbox sets its own switch and leaves the other; reset turns both off |
| Security.ResetAgreesWithConsole | DNS_LOOKUP/MainForm.cs:468-475 | the reset button leaves the same switches as the console's option 3 |
| Security.CheckboxAgreesWithToggle | DNS_LOOKUP/MainForm.cs:446 | ticking the TCP box to its opposite does what the console's option 1 does |
| Security.Member | DNS_LOOKUP/Program.cs:806-807 | finds a member by exact name, and the last of duplicate names wins |
| Security.Load | DNS_LOOKUP/MainForm_NET472.cs:854-874 | a missing file or a null document keeps the switches; an unreadable file or a document other than an object turns both off; otherwise a switch is on exactly when its member is boolean true |
| Security.Save | DNS_LOOKUP/Program.cs:785-794 | writes one boolean member per switch |
| Security.LoadAfterSave | DNS_LOOKUP/Program.cs:785-816 | loading a saved document gives back exactly the saved switches |
| Security.ConfigureSecurity | DNS_LOOKUP/Program.cs:705-740 | the document the command writes gives back, at the next start, the switches the command left |
| Servers.CreateLookupOptions | DNS_LOOKUP/MainForm.cs:823-829 | the options carry the override server, a 5-second timeout and 3 retries |
| Servers.SecurityFlagsDoNotReachResolver | DNS_LOOKUP/MainForm.cs:823-829 | the security switches never change the resolver options |
| Servers.ConsoleServer | DNS_LOOKUP/Program.cs:504-521 | "default" clears the override, an answer that parses as an address sets it, and anything else leaves it unchanged |
| Servers.ConsoleServerIdempotent | DNS_LOOKUP/Program.cs:504-521 | giving the same answer twice has the effect of giving it once |
| Servers.DefaultUndoesConsoleServer | DNS_LOOKUP/Program.cs:508-512 | "default" after any answer restores the system resolver |
| Servers.ConsoleChoiceReachesResolver | DNS_LOOKUP/Program.cs:620-632 | after the prompt, the next resolver has no server for "default", the parsed address for an address, and the previous options otherwise, always with the 5-second timeout |
| Servers.ApplyEdit | DNS_LOOKUP/DnsConfigForm.cs:66 | the Default button empties the box; typing replaces its text |
| Servers.Accept | DNS_LOOKUP/DnsConfigForm.cs:98-119 | on OK, a blank box clears the server, an address sets it, and anything else keeps the server the dialog was given |
| Servers.OpenAsWritten | DNS_LOOKUP/DnsConfigForm.cs:16-44 | the box always starts empty |
| Servers.Open | DNS_LOOKUP/DnsConfigForm.cs:43 | corrected: the box starts with the current server's text |
| Servers.CloseDialog | DNS_LOOKUP/MainForm.cs:706-714 | Cancel keeps the override; OK accepts the text of the last edit, or the text the dialog opened with when nothing was edited |
| Servers.OkWithoutEditClearsServer | DNS_LOOKUP/DnsConfigForm.cs:43 | as written, OK without an edit clears an override that was in effect |
| Servers.OkWithoutEditKeepsServer | DNS_LOOKUP/MainForm.cs:706-714 | with the corrected dialog, OK without an edit keeps whatever was in effect |
| Servers.DefaultThenOkClears | DNS_LOOKUP/DnsConfigForm.cs:66 | Default followed by OK clears the override |
| Servers.DialogAgreesWithConsole | DNS_LOOKUP/DnsConfigForm.cs:109-114 | the dialog and the console set the same override for an address |
| Exports.DomainLines | DNS_LOOKUP/Program.cs:681-686 | three labelled lines followed by the addresses |
| Exports.ReverseLines | DNS_LOOKUP/Program.cs:688-692 | four labelled lines |
| Exports.MultiLines | DNS_LOOKUP/Program.cs:694-699 | four labelled lines followed by the records |
| Exports.DomainLinesRoundTrip | DNS_LOOKUP/Program.cs:681-686 | the domain, timestamp text, elapsed time and every address can be read back from the written lines |
| Exports.ReverseLinesRoundTrip | DNS_LOOKUP/Program.cs:688-692 | the address, host name, timestamp text and elapsed time can be read back |
| Exports.MultiLinesRoundTrip | DNS_LOOKUP/Program.cs:694-699 | the query, type, timestamp text, elapsed time and every record line can be read back |
| Exports.Export | DNS_LOOKUP/Program.cs:429-478 | a blank path is refused first; then choice 1, 2 or 3 writes the matching last result, or reports that there is none; any other choice is refused |
| Exports.ChoiceIsNotTrimmed | DNS_LOOKUP/Program.cs:436-449 | the export choice is compared without trimming |
| Lookups.Addresses | DNS_LOOKUP/MainForm.cs:547 | lists the address of every A record and nothing else; a single answer gives its address exactly when it is an A record |
| Lookups.AddressesAppend | DNS_LOOKUP/MainForm.cs:547 | the addresses of two runs of answers are those of the first followed by those of the second: answer order and repeats are kept |
| Lookups.FirstPtr | DNS_LOOKUP/MainForm.cs:584-585 | the name of the first PTR record, or none when there is none |
| Lookups.FormatAll | DNS_LOOKUP/MainForm.cs:628-632 | succeeds exactly when every answer formats, one line per answer |
| Lookups.ForwardLookup | DNS_LOOKUP/MainForm.cs:521-562 | a blank domain, a failed query or an empty answer adds nothing; otherwise exactly one "A/AAAA" entry for the trimmed domain |
| Lookups.ReverseLookup | DNS_LOOKUP/MainForm.cs:564-598 | an entry is added exactly when the text parses as an address and the query succeeds, even with no PTR answer ("Not found") |
| Lookups.MultiLookup | DNS_LOOKUP/MainForm.cs:600-643 | an entry is added exactly when the query is not blank, the answer is not empty, and every answer is of the selected type |
| Lookups.AliasAnswerRecordsNothing | DNS_LOOKUP/MainForm.cs:628-636 | an A query answered with a CNAME first records nothing |
| Lookups.ConsoleResolve | DNS_LOOKUP/Program.cs:144-202 | the console's forward lookup adds the same entry and remembers the result for export; the other results are untouched |
| Lookups.ConsoleReverse | DNS_LOOKUP/Program.cs:204-254 | the console's reverse lookup records the address and the first PTR name, or its own "not found" text |
| Lookups.ConsoleMulti | DNS_LOOKUP/Program.cs:324-427 | the console's multi-type query records exactly when every answer has the chosen type, and its details join the formatted records with "; " |
| Lookups.ForwardAgrees | DNS_LOOKUP/Program.cs:165-195 | console and window forward lookups record the same entry |
| Lookups.ReverseDiffersOnlyInFallback | DNS_LOOKUP/Program.cs:229-246 | console and window reverse lookups record the same entry when a PTR record came back or the query failed; with no PTR answer both add one entry, equal except that the details are "Not found" in the window and the console's own text |
| Lookups.MultiAgreesOnWhenToRecord | DNS_LOOKUP/Program.cs:345-419 | console and window multi-type queries record under the same conditions for the same type |
| Batch.PrepareLines | DNS_LOOKUP/MainForm.cs:659-662 | trimmed non-blank lines only, and every non-blank line is represented; with `PrepareLinesAppend`, in file order with duplicates kept |
| Batch.PrepareLinesAppend | DNS_LOOKUP/Program.cs:560 | preparing two parts of a file gives the prepared first part followed by the prepared second part, so file order and repeated lines survive |
| Batch.PrepareLinesIdempotent | DNS_LOOKUP/Program.cs:560 | preparing prepared lines changes nothing |
| Batch.Details | DNS_LOOKUP/MainForm.cs:681-683 | the addresses joined with ", ", or "No results" in the windows when there are none |
| Batch.RecordedShape | DNS_LOOKUP/Program.cs:560-577 | one "A" entry per resolved line, each for a line of the file, and nothing else changes |
| Batch.RecordedEntry | DNS_LOOKUP/MainForm.cs:667-693 | each resolved line's entry carries its line, elapsed time and details, in line order |
| Batch.FrontsAgreeOnAddresses | DNS_LOOKUP/Program.cs:569-570 | console and window batches record the same entries when every success has an address |
| Batch.QueryAll | DNS_LOOKUP/MainForm_NET472.cs:630-657 | processes every line in order and sets the progress to i+1 after line i, whether or not it failed |
| Batch.RunBatch | DNS_LOOKUP/MainForm.cs:645-704 | a blank path or missing file does nothing; otherwise the progress maximum is the number of prepared lines and the history becomes the recorded batch |

## Left out

- User interface: control layout, message boxes, grid rows, console prompts and colours, and `Application.DoEvents`. Typed text and selections are inputs.
- The DnsClient resolver: the outcome of each query is a parameter. Which exceptions it throws is not modelled, only that a query fails.
- Clocks: `Stopwatch` and `DateTime.Now` are parameters (`now`, `clock`, `probe`). Time and elapsed values are unbounded integers, not 64-bit.
- `IPAddress.TryParse` and `IPAddress.ToString`: a parameter `parseIp` and the address's text.
- Persistence of the history (`history.json`) is not modelled.
- Security.Load: the settings file is taken as already parsed JSON, or as unreadable. The JSON text syntax is not modelled.
- Security.Load: a member holding something other than a boolean (a number, a string) is read as false. The JSON library's dynamic comparison of such values with `true` is not modelled.
- ZIP creation in the export command, file paths, and the encoding and line terminators of `File.WriteAllLines` are not modelled. Exports are their list of lines.
- Rendering a `DateTime` depends on the culture. Exports take it as a parameter `render`.
- Stats.Average: the mean is the exact rational quotient. Double rounding and the `F1` formatting of the report are not modelled.
- The report text layout, the report file, and the windows' export button are not modelled. The report is modelled as its figures: total, rows per type, top queries.
- Report.GenerateReportAsWritten: in the console the null dereference is not caught, so it ends the program. The model returns `ReportFailed` for both the console and the .NET 6 window, which shows an error.
- Lookups.ConsoleResolve: the console reads the clock twice, once for the remembered result and once for the history entry. The model uses one reading.
- Lookups.ConsoleReverse: the same two clock readings (Program.cs lines 242 and 246) are modelled as one.
- Lookups.ConsoleMulti: the same two clock readings (Program.cs lines 415 and 419) are modelled as one.
- Formatting.ConsoleSoaLineInjective: the line is read back only for a primary name without a comma. A primary holding ", Responsible: " makes the console's line ambiguous, so no read-back is promised then.
- Lookups.MultiLookup: the .NET Framework window calls `SelectedItem.ToString()` without a null check. The model uses the .NET 6 fallback "A". The combo box always has a selection, so the two agree.
- Servers.ApplyEdits: keystrokes are collapsed into edits that set the whole text. Only the last edit matters.
- Async and await: every handler runs to completion before the next one starts.
- The console main menu loop and the console's listing text are not modelled. The delete-by-number prompt is modelled.

## Findings

| source | as written | input that shows it | evidently intended | confidence | as-written member | corrected member |
|---|---|---|---|---|---|---|
| DNS_LOOKUP/Program.cs:533-545 | The listing labels entry i as "i+1", newest first. The delete prompt removes position Count−k. | History [older, newer]. The listing shows "2) newer". Typing 2 removes older. | Typing the number shown next to an entry removes that entry. | not executed; high, the two index formulas are in adjacent lines | History.ShownLabelDeletesWrongEntry (on History.DeleteByLabel) | History.DeleteByShownLabel with History.ShownLabelDeletesThatEntry |
| DNS_LOOKUP/MainForm.cs:762-769 | `DefaultIfEmpty()` on a sequence of reference-type entries yields a null entry for a type with no non-negative elapsed time, and `Average(x => x.ElapsedMs)` dereferences it. The same code is in Program.cs:756-759. | One history entry with ElapsedMs = -1, for example from a history file. | An average of 0 for such a type, as the .NET Framework window computes. | not executed; medium, needs a negative elapsed time in the stored history | Report.NegativeOnlyTypeBreaksReport (on Report.ByTypeAsWritten) | Report.ByTypeSafe with Report.GenerateReportSafe |
| DNS_LOOKUP/DnsConfigForm.cs:43 | The box is filled from `DnsServer` inside `InitializeComponent`. The constructor runs that before the caller's initializer assigns `DnsServer` (MainForm.cs:708), so the box always starts empty. | Override 8.8.8.8 in effect; open the dialog and press OK. | The box shows the current server, and OK without an edit keeps it. | not executed; high, follows from C# object-initializer order | Servers.OkWithoutEditClearsServer (on Servers.OpenAsWritten) | Servers.Open with Servers.OkWithoutEditKeepsServer |
