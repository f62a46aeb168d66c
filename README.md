# Oracle Database STIG and log tools, modelled in Dafny

This project models six Python command-line tools from an Oracle Database
administration repository.

- **Listener log filter, low-memory version.** It reads the XML listener log
  line by line. It buffers lines until one contains `</msg>` and treats the
  joined lines as one `<msg>` fragment. It then either prints selected
  messages or lists the distinct host addresses.
- **Listener log filter, in-memory version.** It reads the whole log, splits
  it on `<msg` and skips blank pieces. It has only the host address and pid
  filters.
- **Attention log viewer.** It splits the Oracle 21c "pseudo JSON" attention
  log on `}\n` and decodes each record. It prints the `key : value` lines
  that the attention-type and urgency filters select.
- **STIG value translator.** It translates a CCI, Rule ID, Rule Name, STIG ID
  or Vuln ID into the related values of another type in a STIG checklist
  (`.ckl`).
- **STIG ID / CCI lister.** It maps a STIG ID to its CCI values, or a CCI to
  the STIG IDs that reference it.
- **Manual checklist loader.** It sets the STATUS, COMMENTS or
  FINDING_DETAILS of the first VULN whose Rule_Ver is a given STIG ID.

Modules:

- `Wrappers` (`wrappers.dfy`): `Option`, `Result`, and `Report`. A `Report`
  holds the lines printed and whether an uncaught exception ended the run.
- `Text` (`text.dfy`): the Python string behaviour the tools rely on. That is
  `in`, `split`, `join`, `strip()` tested for emptiness, `replace`,
  `lower`/`upper`, `str(n)` and `sorted()` on strings. It includes the split
  and join round trips and the lexicographic order.
- `ListenerMsg` (`listener_msg.dfy`): what both listener filters do with one
  fragment. This covers `process_msg`, the field filters, `is_recent_error`,
  and the printed line. It also models the loop over fragments (which stops
  at an uncaught exception) as a fold, `FilterAll`.
- `ListenerLowMemory` and `ListenerInMemory`: the two tools. Each has its own
  way of cutting the log into fragments, its host listing, and its `main`.
- `AttentionLog` (`attention_log.dfy`): the viewer.
- `Checklist` (`checklist.dfy`): the checklist as a sequence of VULN records,
  and the XPath lookups the three checklist tools make on it.
- `StigTranslator`, `StigCciList`, `ChecklistLoader`: the three checklist tools.

The loops of the source are `method`s with `while` or `for` loops. Each is
proved equal to a specification function, and the properties are proved as
lemmas about those functions.

- The loader updates the checklist in place, so the VULN records are an
  `array` there.
- The XML parser, the JSON decoder and `datetime.strptime` are function
  parameters.
- An uncaught Python exception sets a `crashed` flag, or exit status 1. The
  lines printed before it are kept.
- A usage error raised by argparse, or by `parser.error`, is exit status 2.
  An error argparse raises itself while parsing (a bad choice) prints
  nothing in the model. One the script raises with `parser.error` prints
  its own message.
- The two listener filters' `FilterLog` methods return a `failed` flag
  rather than a status. It is set both for a usage error (status 2) and for
  an uncaught exception (status 1). Their contracts tell the two apart
  through `PlanRun`.
- `sys.exit(message)` and `sys.exit(1)` are status 1.

## Model

| member | source | states |
|---|---|---|
| ListenerMsg.TimePrefix | listener_log_xml_filter_low_memory_version.py:74 | the result is the longest prefix of the time text free of '.', followed in the text by '.' when shorter than it |
| ListenerMsg.ProcessMsg | listener_log_xml_filter_low_memory_version.py:61-78 | raises exactly when the `<txt>` child or the `time` attribute is missing; otherwise the text, the parsed time of the text before the first '.', and the host address, pid, org_id, comp_id, type, level and host_id attributes are those of the element |
| ListenerMsg.IsRecentErrorMeaning | listener_log_xml_filter_low_memory_version.py:54-59 | a missing time is never recent; a time is recent iff it is at most `hours` hours before now; widening the window keeps it recent |
| ListenerMsg.Render | listener_log_xml_filter_low_memory_version.py:120-123 | the printed line is the field part followed by the message text with every newline replaced by a space, character by character |
| ListenerMsg.HandleFragment | listener_log_xml_filter_low_memory_version.py:95-125 | a syntax error skips the fragment; a line is printed iff the message parses and passes the filters, has text, and (with recent errors) holds an error string and is recent; the run crashes iff `process_msg` raises or a message that passes the filters has no text |
| ListenerMsg.CollectMeaning | listener_log_xml_filter_low_memory_version.py:84-128 | handling the fragments in order prints the lines of the fragments before the first crashing one, and crashes iff some fragment crashes |
| ListenerMsg.CollectCrashAbsorbs | listener_log_xml_filter_low_memory_version.py:124-128 | once an exception has ended the loop, later fragments change nothing |
| ListenerLowMemory.FramesWellFormed | listener_log_xml_filter_low_memory_version.py:85-92 | every fragment is a run of lines whose last line, and only that one, contains `</msg>`; no buffered line contains it |
| ListenerLowMemory.FramesCoverLines | listener_log_xml_filter_low_memory_version.py:85-92 | the lines of all fragments followed by the buffered lines are exactly the lines read |
| ListenerLowMemory.FragmentsCoverText | listener_log_xml_filter_low_memory_version.py:85-92 | the fragments, then the buffered tail, concatenate to the whole log text |
| ListenerLowMemory.FragmentsSnoc | listener_log_xml_filter_low_memory_version.py:85-128 | reading a line adds a fragment (the buffer plus that line) exactly when the line contains `</msg>`, and the buffer is then cleared |
| ListenerLowMemory.TrailingLinesIgnored | listener_log_xml_filter_low_memory_version.py:85-92 | lines after the last `</msg>` line are only buffered and never handled |
| ListenerLowMemory.PrintMsgsFromXml | listener_log_xml_filter_low_memory_version.py:80-128 | the lines printed and the crash are those of handling the fragments of the log in order |
| ListenerLowMemory.HostOf | listener_log_xml_filter_low_memory_version.py:147-151 | a fragment contributes a host iff it parses and its `host_addr` is present and non-empty, and then contributes that address |
| ListenerLowMemory.ListUniqueHostAddrs | listener_log_xml_filter_low_memory_version.py:130-159 | prints strictly sorted (so distinct) addresses, exactly the non-empty host addresses of the fragments that parse |
| ListenerLowMemory.PlanRun | listener_log_xml_filter_low_memory_version.py:176-201 | a usage error iff `--error-hours` differs from 24 without `--recent-errors`; otherwise `--list-hosts` wins, and filtering uses the given filters and window |
| ListenerLowMemory.FilterLog | listener_log_xml_filter_low_memory_version.py:174-201 | a usage error prints its message and fails; listing prints the sorted distinct hosts; filtering prints what handling the fragments prints |
| ListenerInMemory.ReopenShape | listener_log_xml_filter.py:68-71 | every fragment is `<msg` followed by a non-blank piece of the split; every non-blank piece gives a fragment; with no blank pieces, the fragments are the pieces reopened one for one |
| ListenerInMemory.ReopenFragmentsShape | listener_log_xml_filter.py:68-71 | every fragment is `<msg` followed by a piece of the split that is not blank |
| ListenerInMemory.ReopenCoversPieces | listener_log_xml_filter.py:68-71 | every non-blank piece of the split gives a fragment |
| ListenerInMemory.ReopenOneForOne | listener_log_xml_filter.py:68-71 | when no piece is blank, the fragments are the pieces, each preceded by `<msg`, one for one |
| ListenerInMemory.InMemoryFilters | listener_log_xml_filter.py:75-78 | a message passes iff it passes the host address and pid filters; no other field is filtered |
| ListenerInMemory.PrintMsgsFromXml | listener_log_xml_filter.py:67-94 | the lines printed and the crash are those of handling the fragments of the split log in order |
| ListenerInMemory.HostOfMsg | listener_log_xml_filter.py:101-105 | a fragment contributes a host iff `process_msg` succeeds on it and its host address is non-empty |
| ListenerInMemory.ScanFragment | listener_log_xml_filter.py:101-107 | reports whether `process_msg` raises on the fragment, and otherwise the host it contributes |
| ListenerInMemory.ListUniqueHostAddrs | listener_log_xml_filter.py:96-110 | crashes iff `process_msg` raises on some fragment, and then prints nothing; otherwise prints exactly the non-empty host addresses, sorted and distinct |
| ListenerInMemory.PlanRun | listener_log_xml_filter.py:133-138 | `--list-hosts` wins; otherwise filtering uses the host address and pid filters, and the window is the given hours with `--recent-errors` and 24 without |
| ListenerInMemory.ErrorHoursIgnoredWithoutRecentErrors | listener_log_xml_filter.py:119-138 | without `--recent-errors`, the value of `--error-hours` makes no difference |
| ListenerInMemory.FilterLog | listener_log_xml_filter.py:131-138 | listing crashes iff some fragment raises, and then prints nothing, and otherwise prints the sorted hosts; filtering prints what handling the fragments prints |
| AttentionLog.ParseChoice | attention_log_viewer.py:19-20 | an absent option is accepted as absent; a given one is accepted iff its lower-case form is one of the choices, and is then that lower-case form |
| AttentionLog.TakeUntilEmpty | attention_log_viewer.py:37-40 | the pieces processed are the longest prefix of non-empty pieces, ended by the first empty piece |
| AttentionLog.Reclosed | attention_log_viewer.py:42 | the decoded text is the piece followed by `}` |
| AttentionLog.RecordLines | attention_log_viewer.py:79-81 | one `key : value` line per entry, in entry order |
| AttentionLog.CountMatching | attention_log_viewer.py:49-50 | the number of keys (values) equal to the filter once lower-cased is positive iff some key (value) matches |
| AttentionLog.RecordOutputCases | attention_log_viewer.py:46-81 | with no filter a record prints all its lines once; with one filter it prints them once per match, so some line iff something matches; with both filters it prints them once iff a key matches the type and a value matches the urgency |
| AttentionLog.TypeFilterDuplicates | attention_log_viewer.py:48-53 | with only the type filter, a record with two matching keys is printed (at least) twice |
| AttentionLog.PrintRecord | attention_log_viewer.py:46-81 | the nested loops print exactly the record output of the filters |
| AttentionLog.PrintPerMatch | attention_log_viewer.py:48-61 | the loop over one filter prints all the record's lines once per key (value) that matches the filter, and nothing else |
| AttentionLog.FindMatch | attention_log_viewer.py:67-72 | the flag ends up set iff some key (value) matches the filter once lower-cased |
| AttentionLog.PrintEntries | attention_log_viewer.py:79-81 | appends every entry line of the record, in order |
| AttentionLog.ViewCrashAbsorbs | attention_log_viewer.py:37-43 | once a record fails to decode, later pieces change nothing |
| AttentionLog.ViewAllDecoded | attention_log_viewer.py:37-81 | when every piece decodes, the output is the records' outputs one after the other, without a crash |
| AttentionLog.ParseOracleJsonAttentionLog | attention_log_viewer.py:30-81 | the output and the crash are those of the records of the non-empty pieces before the first empty one, stopping at the first decode failure |
| AttentionLog.HeaderLines | attention_log_viewer.py:83-86 | the header is printed iff neither filter is given |
| AttentionLog.ViewAttentionLog | attention_log_viewer.py:17-90 | a bad choice is a usage error with no output; otherwise the header (when unfiltered) then the records' output, with status 1 iff a record fails to decode |
| Checklist.EntriesOf | Oracle_Database_STIG_value_translator.py:148 | the STIG_DATA entries with the attribute: all of them and only them; a single element is picked iff it has the attribute |
| Checklist.EntriesOfAppend | Oracle_Database_STIG_value_translator.py:148 | document order: the entries of two consecutive runs of STIG_DATA are those of the first run followed by those of the second |
| Checklist.EntriesOfFirst | Oracle_Database_STIG_value_translator.py:148 | the first entry picked is the first STIG_DATA element that has the attribute |
| Checklist.AttrValues | Oracle_Database_STIG_value_translator.py:148 | the texts of the picked entries, position by position, in document order; a text is among them iff some STIG_DATA of the VULN pairs the attribute with it |
| Checklist.RuleVer | manual_load_STIG_checklist.py:75-80 | the first Rule_Ver value of the VULN, or none iff it has no Rule_Ver |
| Checklist.RuleVerFirst | manual_load_STIG_checklist.py:75-80 | the Rule_Ver found is a text iff some STIG_DATA pairs Rule_Ver with that text and no earlier STIG_DATA has the Rule_Ver attribute |
| Checklist.FindVulns | Oracle_Database_STIG_value_translator.py:136-140 | the VULNs holding the value as any ATTRIBUTE_DATA, each of them and only them; a single VULN is found iff it holds the value |
| Checklist.FindVulnsAppend | Oracle_Database_STIG_value_translator.py:136-140 | document order: the VULNs found in two consecutive runs of VULNs are those of the first run followed by those of the second |
| Checklist.CciRefNodesMeaning | Oracle_Database_STIG_value_translator.py:114-122 | the entries selected are exactly the CCI_REF entries of the VULNs that have the attribute/value pair |
| Checklist.CciRefNodesAppend | Oracle_Database_STIG_value_translator.py:114-122 | document order: the entries selected from two consecutive runs of VULNs are those of the first run followed by those of the second |
| Checklist.CollectCciRefs | Oracle_Database_STIG_value_translator.py:124-127 | collects the text of every selected entry, in order |
| Checklist.CciRefsMeaning | oracle_db_stig_id_cci_list.py:59-64 | a CCI is collected iff it is a CCI_REF value of some VULN that has the pair |
| Checklist.CciRefsInOrder | oracle_db_stig_id_cci_list.py:59-64 | the CCIs are collected VULN by VULN in document order; one VULN gives its CCI_REF values in order when it has the pair, and none otherwise |
| Checklist.FormatCciRefs | Oracle_Database_STIG_value_translator.py:129-132 | no line for no value, the value alone for one, one `, `-joined line for several |
| Checklist.FormatCciRefsRoundTrip | Oracle_Database_STIG_value_translator.py:129-130 | splitting the printed line on `, ` gives back the values, when none holds a comma |
| Checklist.CciOfValid | Oracle_Database_STIG_value_translator.py:95-97 | `CCI-` and any six digits form a valid CCI, also with one trailing newline, and the digits read back as the number |
| Checklist.ValidCciIsCciOf | Oracle_Database_STIG_value_translator.py:95-97 | every valid CCI is `CCI-` and the six-digit padding of a number below one million, possibly followed by a newline |
| Checklist.Projection | Oracle_Database_STIG_value_translator.py:147-149 | prints the first value of the attribute of each VULN in order, up to the first VULN that lacks one; crashes iff some VULN lacks one |
| Checklist.PrintProjection | Oracle_Database_STIG_value_translator.py:147-149 | the loop prints and fails as described above |
| StigTranslator.ParseTarget | Oracle_Database_STIG_value_translator.py:44 | accepted iff the lower-case form is one of the five choices, and then names that choice |
| StigTranslator.AttributeOfInjective | Oracle_Database_STIG_value_translator.py:114-176 | different value types are read from different VULN attributes |
| StigTranslator.Convert | Oracle_Database_STIG_value_translator.py:39-43 | every source option but `--rule_id` is upper-cased; `--rule_id` is kept as given |
| StigTranslator.LastSpecified | Oracle_Database_STIG_value_translator.py:100-112 | the value looked up is that of the last specified option in the order cci, rule_id, rule_name, stig, vul; none is specified when there is no such option |
| StigTranslator.CommandLineError | Oracle_Database_STIG_value_translator.py:50-87 | the checks pass iff there are at most six arguments, some source option is specified, and the target's own option is not |
| StigTranslator.Lookup | Oracle_Database_STIG_value_translator.py:95-176 | a lookup succeeds only when a given CCI is well formed |
| StigTranslator.Translation | Oracle_Database_STIG_value_translator.py:46-183 | status 0 only when the target is a valid choice, every command-line check passes, and a given CCI is well formed |
| StigTranslator.TranslationChecks | Oracle_Database_STIG_value_translator.py:50-104 | too many arguments, no source option, a source option of the target type, and a malformed CCI each end the run with their own message and status 1, in that order |
| StigTranslator.TooManyArgsRefused | Oracle_Database_STIG_value_translator.py:50-58 | more than six arguments ends the run with the argument-count lines and status 1 |
| StigTranslator.NothingSpecifiedRefused | Oracle_Database_STIG_value_translator.py:61-63 | with no source option given, the run ends with its message and status 1 |
| StigTranslator.SameTypeRefused | Oracle_Database_STIG_value_translator.py:78-87 | a source option of the target's own type ends the run with the message naming its value and status 1 |
| StigTranslator.BadCciRefused | Oracle_Database_STIG_value_translator.py:100-104 | once the command-line checks pass, a malformed CCI ends the run with the format message and status 1 |
| StigTranslator.InvalidCciAbortsEvenWhenOverridden | Oracle_Database_STIG_value_translator.py:100-104 | a malformed CCI aborts the run even when a later option is the one looked up |
| StigTranslator.TranslateToCci | Oracle_Database_STIG_value_translator.py:114-134 | a run that passes the command-line checks and translates to CCI exits with status 0 and prints the formatted CCI_REF values of the VULNs whose attribute for the given type holds the value, and exactly those values |
| StigTranslator.TranslateToOther | Oracle_Database_STIG_value_translator.py:136-176 | translating to another type prints the first target value of each VULN holding the looked-up value; status 0 iff each has one |
| StigTranslator.LaterOptionWins | Oracle_Database_STIG_value_translator.py:100-122 | runs that agree on the last specified option and its value, and whose CCIs (if any) are well formed, print the same |
| StigTranslator.PickSpecifiedArg | Oracle_Database_STIG_value_translator.py:100-112 | the reassignments leave the last specified value; the CCI check fails iff a given CCI is malformed |
| StigTranslator.PickQueryAttribute | Oracle_Database_STIG_value_translator.py:114-122 | the query uses the attribute of the last specified option, one of Rule_ID, Group_Title, Rule_Ver and Vuln_Num |
| StigTranslator.CheckCommandLine | Oracle_Database_STIG_value_translator.py:50-87 | the checks produce the messages of the first failing check |
| StigTranslator.CheckSameType | Oracle_Database_STIG_value_translator.py:78-87 | the five checks report the value of the target's own option iff it is specified, and nothing otherwise |
| StigTranslator.LookUp | Oracle_Database_STIG_value_translator.py:99-176 | the lookup part prints and exits as the specification of the lookup says |
| StigTranslator.Translate | Oracle_Database_STIG_value_translator.py:46-183 | the whole script's output and status are those of the translation |
| StigCciList.StigLines | oracle_db_stig_id_cci_list.py:66-71 | always one line: the formatted values, or the "none found" message when there are none |
| StigCciList.BothOptionsRejected | oracle_db_stig_id_cci_list.py:48-49 | giving both options exits with status 1 and its message, whatever the checklist |
| StigCciList.StigToCci | oracle_db_stig_id_cci_list.py:56-71 | a STIG ID prints the CCI values of the VULNs whose Rule_Ver it is, or the message that there are none, with status 0 |
| StigCciList.InvalidCciRejected | oracle_db_stig_id_cci_list.py:77-82 | a malformed CCI exits with status 1 and its message |
| StigCciList.CciToStig | oracle_db_stig_id_cci_list.py:84-90 | a valid CCI prints the Rule_Ver of each VULN holding it, in order; status 0 iff each has one |
| StigCciList.LookUpStig | oracle_db_stig_id_cci_list.py:56-71 | collects and prints as the STIG ID lookup specifies |
| StigCciList.LookUpCci | oracle_db_stig_id_cci_list.py:77-90 | checks the form, then prints the Rule_Vers of the VULNs holding the CCI |
| StigCciList.ListIds | oracle_db_stig_id_cci_list.py:43-97 | the script's output and status equal those of the listing |
| ChecklistLoader.CheckOptions | manual_load_STIG_checklist.py:46-66 | accepts iff the status (if any) is one of the choices, exactly one field option is given, a status comes without a file, and comments or details come with one; a bad choice prints nothing and any other refusal prints one message; an accepted request carries the upper-cased ID, the field and its value (and the file name) |
| ChecklistLoader.CheckOptionsRefuses | manual_load_STIG_checklist.py:53-66 | no field at all, a status with a file, more than one field, and comments or details without a file are each refused with that check's own message, in the script's order |
| ChecklistLoader.Apply | manual_load_STIG_checklist.py:82-95 | only the chosen field changes |
| ChecklistLoader.FirstMatch | manual_load_STIG_checklist.py:79-81 | the first VULN whose Rule_Ver is the ID; no earlier one has it |
| ChecklistLoader.FirstMatchFrom | manual_load_STIG_checklist.py:79-81 | the first VULN at or after a position whose Rule_Ver is the ID; none between that position and it has it |
| ChecklistLoader.FirstMatchAt | manual_load_STIG_checklist.py:79-81 | a position that matches, after positions that all do not, is the first match |
| ChecklistLoader.IdExistsIff | manual_load_STIG_checklist.py:75-76 | the existence check passes iff there is a first match |
| ChecklistLoader.Updated | manual_load_STIG_checklist.py:79-97 | only the first matching VULN changes, in the chosen field only, and nothing changes when the ID is absent |
| ChecklistLoader.LaterMatchesUntouched | manual_load_STIG_checklist.py:79-97 | later VULNs with the same Rule_Ver are left as they were |
| ChecklistLoader.UpdatedIdempotent | manual_load_STIG_checklist.py:79-97 | loading the same value twice gives the same checklist as loading it once |
| ChecklistLoader.UpdateFirstMatch | manual_load_STIG_checklist.py:79-97 | the array afterwards is the updated checklist, and the update message is printed iff the ID exists |
| ChecklistLoader.HasId | manual_load_STIG_checklist.py:75 | the `any(...)` check holds iff some VULN's Rule_Ver is the ID |
| ChecklistLoader.LoadChecklist | manual_load_STIG_checklist.py:46-99 | an option error or an unknown upper-cased ID is a usage error that prints its lines and leaves the checklist unchanged; otherwise the message is printed, the status is 0, and the first VULN with the upper-cased ID is updated |
| Text.SplitJoin | attention_log_viewer.py:34 | joining the pieces of a split with the separator gives back the text |
| Text.SplitPiecesAreFree | listener_log_xml_filter.py:68 | no piece of a split contains the separator |
| Text.JoinSplit | Oracle_Database_STIG_value_translator.py:130 | splitting a join gives back the parts when none holds the separator's first character |
| Text.ContainsIff | listener_log_xml_filter_low_memory_version.py:113 | `sub in s` holds iff `sub` occurs at some position of `s` |
| Text.ReplaceNewlines | listener_log_xml_filter_low_memory_version.py:120 | same length, every newline becomes a space, other characters are kept, no newline is left |
| Text.UpperOpt | Oracle_Database_STIG_value_translator.py:39 | an absent option stays absent; a given one is upper-cased |
| Text.SortedList | listener_log_xml_filter_low_memory_version.py:158-159 | the list is strictly increasing and holds exactly the set's elements |
| Text.LexLessTotal | listener_log_xml_filter_low_memory_version.py:158 | two different strings are ordered one way or the other |
| Text.NatToString | Oracle_Database_STIG_value_translator.py:53 | decimal digits without a leading zero that spell the number |

## Left out

- Parsing XML and JSON, and evaluating XPath, are not modelled. The lxml parser and `json.loads` are function parameters. The XPath queries are functions on a checklist that is already parsed: a sequence of VULN records, each with its (VULN_ATTRIBUTE, ATTRIBUTE_DATA) pairs.
- Values spliced into XPath are taken literally. A value that holds a quote makes the query malformed in the source; the model does not capture that.
- Opening and reading files, `argparse.FileType` errors, argparse usage and help text, and the MIN_PYTHON and lxml import checks are not modelled. An error argparse raises itself while parsing is modelled as status 2 with no output; its usage text is left out.
- ListenerMsg.IsRecentError: the two tools read the clock once per message; the model uses one reading, `now`, per run. Dates are whole seconds, and `time=` shows the text Python prints, which is a parameter. The `OverflowError` that `timedelta(hours=hours)` raises when `--error-hours` is beyond 999999999 days is not modelled: the window is compared as an unbounded integer, so such a `--recent-errors` run does not crash in the model at the first dated message with error text.
- The low-memory tool works on bytes. The model uses strings, so encodings and invalid byte sequences are left out.
- The warning for logs over 1 GB, the BrokenPipeError handler, and the split between stdout and stderr are left out. All printed text is one output stream.
- Text.Lower, Text.Upper: these map ASCII letters only. Python's Unicode case mapping is left out.
- Checklist.IsValidCci: `\d` is taken as the ASCII digits, while Python's `\d` also matches other Unicode decimal digits.
- AttentionLog.Record: every JSON value is taken to be a string, and the record a JSON object without duplicate keys. A non-string value (a `TypeError` when concatenated or lower-cased) is not modelled.
- Checklist.Vuln: a VULN lacking a STATUS, COMMENTS or FINDING_DETAILS element (an `AttributeError` in the loader) is not modelled. Nor is an ATTRIBUTE_DATA element without text (`None` printed or joined).
- ListenerMsg.XmlResult: `fromstring` raising anything but `XMLSyntaxError` is not modelled.
- ChecklistLoader.LoadChecklist: writing the checklist back as canonical XML is modelled as the new content of the array, not as bytes.
- `fill_in_host_info_to_oracle_db_checklist.py` and the repository's shell scripts (datapump export, audit retention, patch checks, SYSAUX cleanup) are not part of this model.
