# Tower Control backend — a Dafny model

Tower Control is a plugin panel that shows and toggles a small, fixed allowlist of
systemd services: the SSH server and Bluetooth. Its privileged Python backend
(`main.py`) exposes four remote operations:

- `get_services` lists each allowlisted unit with its status;
- `get_service_status` gives one unit's status;
- `set_service_running` starts or stops a unit;
- `set_service_enabled` enables or disables a unit at boot.

The three operations that take a unit name first normalise it and refuse
anything that is not on the allowlist; only after that do they invoke
`systemctl`. `get_services` takes no name: it walks the allowlist and asks for
the status of each entry's unit.

This project models that backend in Dafny. It proves what each operation
returns and which `systemctl` commands it issues, in order.

Modules:

- `Results` (results.dfy): `Option` and `Result`, standing in for Python's `None`
  and for raised exceptions.
- `Text` (text.dfy): the string primitives the backend uses. These are
  `str.strip()`, `str.splitlines()`, `sub in s` and splitting at the first `=`.
- `UnitName` (unit_name.dfy): the unit-name pattern `_UNIT_RE` as a hand-written
  matcher, its language, and `_normalize_unit`.
- `KvParse` (kv_parse.dfy): `_parse_kv_lines`. This is a loop that writes into a
  dictionary, proved against the dictionary the lines define.
- `Status` (status.dfy): how `_get_unit_status` turns the reply of
  `systemctl show` into a status record.
- `Backend` (backend.dfy): the allowlist gate, `_get_unit_status`, the four
  remote operations, and the command scripts of the two mutators.

**`systemctl` as an oracle.** The model does not spawn `systemctl`. It asks an
oracle `sys: (seq<Cmd>, Cmd) -> Reply` instead. The oracle receives the
commands issued so far in the session and the new command, and returns the
exit status and the stripped stdout and stderr. Because the reply may depend on
earlier commands, a `start` can change what a later `show` reports.

Each operation takes the commands issued before it (`done`) and returns the
trace it leaves: `done` followed by its own commands, in order. The "no command
before the gate" and "abort at the first failure" properties are statements
about that trace.

**The unit pattern as written.** The pattern in main.py:12 is a raw string
containing `\\.`. The regex engine therefore sees a literal backslash followed
by `.`, which matches any character except a newline. It does not see an
escaped dot. So a name is accepted when it is one of these:

- a non-empty run of `[A-Za-z0-9@._:-]`;
- such a run, then a backslash, then one non-newline character, then a second
  non-empty run.

Python's `$` also matches just before a final newline. The model includes that
case, though it cannot arise after `strip()`.

`get_services` returns its rows in allowlist order, each with the entry's
label. The other three operations return the status record alone, without a
label.

## Model

| member | source | states |
|---|---|---|
| Text.Strip | main.py:59 | `strip()` never lengthens a string, and a non-empty result neither starts nor ends with whitespace |
| Text.StripIsSlice | main.py:59 | the stripped string is a contiguous piece of the input, and everything cut from either side is whitespace |
| Text.StripKeepsTrimmed | main.py:59 | a string with no whitespace at either end is its own strip |
| Text.StripIdempotent | main.py:59 | stripping twice is stripping once |
| Text.StripPadded | main.py:59 | whitespace padding around a trimmed string is exactly what strip removes |
| Text.SplitLines | main.py:50 | `splitlines()` yields no line containing a line boundary, and yields no lines exactly for empty text |
| Text.SplitLinesNoBreak | main.py:50 | text without a line boundary is one line |
| Text.SplitLinesAtBreak | main.py:50 | a line, then a one-character boundary, then the rest splits into that line followed by the lines of the rest; a final boundary opens no empty line |
| Text.SplitLinesAtCrLf | main.py:50 | `"\r\n"` ends one line as a single boundary, opening no empty line between the two characters |
| Text.Contains | main.py:100 | `sub in s`; its meaning is stated by ContainsOccurs |
| Text.ContainsOccurs | main.py:100 | `t in s` holds exactly when `t` is the slice of `s` at some position |
| Text.IndexOf | main.py:51-53 | the index of the first `c` is below the length exactly when `c` occurs, holds `c`, and no earlier position holds `c` |
| UnitName.RunEnd | main.py:12 | the leading run of class characters ends at a position that is not a class character |
| UnitName.MatchesBody | main.py:12 | the pattern matched against a whole name, reading the leading class run and then the optional backslash group; its language is stated by MatchesBodyIsLanguage |
| UnitName.MatchesUnitPattern | main.py:62 | `_UNIT_RE.match`: the body matches the whole name, or the name less a final newline, as `$` allows |
| UnitName.MatchesBodyIsLanguage | main.py:12 | the left-to-right matcher accepts exactly the pattern's language: one class run, optionally a backslash, a non-newline character and a second class run |
| UnitName.AppendUnitChars | main.py:65-66 | appending class characters to a name in the pattern's language keeps it there |
| UnitName.Normalize | main.py:58-67 | fails exactly when the stripped input is empty ("unit is required") or fails the pattern ("invalid unit name"); a success has a dot and extends the stripped input, and equals it exactly when the stripped input has a dot; a name without a dot comes back with exactly `.service` appended |
| UnitName.NormalizedIsValid | main.py:58-67 | every normalised name is non-empty, unpadded, inside the pattern's language and contains a dot |
| UnitName.StrippedNameInLanguage | main.py:59-62 | a stripped name the pattern accepts is in the pattern's language; the trailing-newline case cannot arise |
| UnitName.SuffixedNameValid | main.py:65-66 | a valid bare name with `.service` appended is still valid and has a dot |
| UnitName.NormalizeIdempotent | main.py:58-67 | normalising a normalised name returns it unchanged |
| UnitName.PlainNameMatches | main.py:12 | a non-empty run of class characters matches without the optional group |
| UnitName.NormalizeDottedName | main.py:58-67 | a dotted run of class characters is returned unchanged |
| UnitName.NormalizeBareName | main.py:65-66 | `"sshd"` normalises to `"sshd.service"` |
| UnitName.NormalizeSeesStripped | main.py:59 | normalisation depends only on the stripped input |
| UnitName.NormalizeStripsInput | main.py:59 | `"  bluetooth.service\n"` normalises to `"bluetooth.service"` |
| UnitName.BluetoothInNormalForm | main.py:20 | `"bluetooth.service"` is a dotted, unpadded run of class characters |
| UnitName.NormalizeBlank | main.py:59-61 | blank input fails with "unit is required" |
| UnitName.NormalizeInvalid | main.py:62-63 | `"ssh d"`, a space not right after a backslash, fails with "invalid unit name" |
| UnitName.NormalizeBackslashName | main.py:12 | the pattern as written accepts `getty\x2d1`, a backslash followed by any character, and normalisation adds the suffix |
| KvParse.LineEntry | main.py:51-53 | a line contributes nothing exactly when it has no `=` |
| KvParse.KvOf | main.py:49-54 | the dictionary the lines define, written one line at a time in order; its meaning is fixed by KvOfIsLastValue and KvOfKeys |
| KvParse.ParseKvLines | main.py:48-55 | the loop's dictionary is the one the lines define, each line in turn overwriting earlier keys |
| KvParse.LineEntrySplitsAtFirstEquals | main.py:53-54 | a line splits at its first `=`: the stripped text before it is the key and the stripped rest, which may contain `=`, is the value |
| KvParse.KvOfAppend | main.py:51-54 | a line without `=` leaves the dictionary unchanged; any other line sets its key, overwriting any earlier value |
| KvParse.KvOfIsLastValue | main.py:50-54 | a key is in the dictionary exactly when some line assigns it, and its value is the one from the last such line |
| KvParse.AssignKeys | main.py:54 | writing one line adds exactly the key that line assigns |
| KvParse.KvOfKeys | main.py:48-55 | every key in the dictionary comes from some line, and every line with `=` leaves its key |
| KvParse.KvOfLastWins | main.py:50-54 | a key assigned on line `i` and on no later line keeps line `i`'s value |
| Status.NotFoundShortCircuit | main.py:98-100 | the short-circuit fires when `show` fails with empty stdout and stderr mentions "not be found" or "not-found"; FailedShowWithoutOutput states both outcomes |
| Status.NotFoundStatus | main.py:101-112 | the fixed record names the unit and is consistent: nothing exists, runs, is enabled or may be toggled |
| Status.DeriveStatus | main.py:117-141 | the parsed record names the unit and is consistent; ShowStatusFields states each field |
| Status.StatusFromShow | main.py:97-141 | every record names the unit asked about and is consistent: `exists` iff LoadState is not "not-found", `active` iff ActiveState is "active", `enabled` iff UnitFileState is enabled or enabled-runtime, a static unit is never togglable, and an enabled unit is togglable |
| Status.ShowStatusFields | main.py:116-141 | without the short-circuit, each field comes from the last stdout line assigning its property, "unknown" stands in for a missing state, and a missing Description gives none |
| Status.FailedShowWithoutOutput | main.py:97-117 | a failed `show` with no stdout gives the fixed not-found record when stderr says "not be found" or "not-found", and otherwise an existing, inactive, togglable unit with every state "unknown" |
| Backend.Args | main.py:89-95 | the argument list starts with the verb's name and then the unit, `show` adding the property list |
| Backend.ArgsDetermineCmd | main.py:89-95 | two commands have the same argument list exactly when they are the same command, so an oracle on commands is one on argument lists |
| Backend.AllowedUnits | main.py:79-81 | `_allowed_units` returns the default allowlist; AllowedUnitsExactly and AllowedUnitsNormal state its contents |
| Backend.IsAllowed | main.py:83-85 | `_is_allowed`: the name is the unit of some allowlist entry |
| Backend.Gate | main.py:164-167 | normalisation then the allowlist check, as the three unit-taking operations begin; GateAdmits states what it admits |
| Backend.FailureMessage | main.py:191 | a failure message is never empty: stderr if non-empty, else stdout if non-empty, else "systemctl <verb> failed" (the same rule at lines 215, 220 and 225) |
| Backend.RunScript | main.py:210-226 | a script's trace extends what came before by at most its commands; a completed run issued all of them, and an aborted one ends with the failing command, whose reply was non-zero |
| Backend.FirstFailure | main.py:210-226 | every step before the first failing step succeeds, and that step fails |
| Backend.RunScriptOne | main.py:189-192 | a one-command script is aborted by a non-zero exit status and otherwise completes |
| Backend.RunScriptTwo | main.py:212-221 | the second command of a two-command script is issued only when the first succeeds |
| Backend.RunScriptFrom | main.py:210-226 | running a script from step `j` stops at the first failure at or after `j` |
| Backend.RunScriptStops | main.py:210-226 | a script stops right after its first failing command, with that command's reply; with no failure every command is issued in order |
| Backend.RunScriptCompletes | main.py:210-226 | a script completes exactly when every command succeeds, and the trace then holds all of them |
| Backend.Execute | main.py:206-226 | following a plan only extends the trace; no error means the plan was accepted and every command issued; a refused plan issues nothing |
| Backend.RunningCmd | main.py:188-189 | `set_service_running` issues `start` on the unit when asked to run it and `stop` otherwise; RunningOutcome states the rest |
| Backend.UnitStatus | main.py:87-141 | `_get_unit_status`: a refused name issues nothing; otherwise one `show` of the normalised name, whose reply gives the record; GetUnitStatus is proved equal to it |
| Backend.EnableOutcome | main.py:205-228 | `set_service_enabled` after the gate: a `show` to learn the unit-file state, the plan for that state, then the error or a fresh status; EnableStaticRefused, EnableMaskedUnmasksFirst and EnableSingleCommand state its cases |
| Backend.Report | main.py:192-194 | an operation succeeds exactly when its commands did, and then adds one `show` of the unit and returns that unit's status; otherwise it returns the error with the trace unchanged |
| Backend.EnablePlan | main.py:207-226 | refused exactly when enabling a static unit, with the static-unit message; otherwise every command names the unit, the last is `enable` or `disable` as asked, and `unmask` precedes it exactly when enabling a masked unit |
| Backend.ExecuteStopsAtFirstFailure | main.py:210-226 | following a plan reports no error exactly when no step fails; otherwise the trace ends at the failing command, and the error carries that command's failure message |
| Backend.GetUnitStatus | main.py:87-141 | `_get_unit_status`: a refused name issues nothing; otherwise one `show` of the normalised name is issued and its reply is turned into the record |
| Backend.GetServiceStatus | main.py:164-180 | a name the gate refuses fails with the gate's error and issues no command; an admitted name issues exactly one `show` and returns that reply's record |
| Backend.SetServiceRunning | main.py:182-194 | a refused name fails and issues no command; an admitted one runs the one-command `start`/`stop` script, then reports its error or a fresh status |
| Backend.SetServiceEnabled | main.py:196-228 | a refused name fails and issues no command; an admitted one gets a `show`, then the plan for its unit-file state, then its error or a fresh status |
| Backend.ApplyEnablePlan | main.py:206-226 | the mutating part of `set_service_enabled` gives the same error and trace as following its plan, stopping at the first failure |
| Backend.RunningOutcome | main.py:188-194 | `set_service_running` issues exactly one command, `start` when running and `stop` otherwise; a failure ends the call with its message, and success is followed by a `show` whose status is returned |
| Backend.EnableStaticRefused | main.py:207-208 | enabling a static unit fails with "unit is static and cannot be enabled/disabled" after the `show`, with no mutating command |
| Backend.EnableMaskedUnmasksFirst | main.py:210-221 | enabling a masked unit issues `unmask` first; a failed unmask ends the call with its message, otherwise it continues as a plain `enable` |
| Backend.EnableSingleCommand | main.py:210-228 | enabling a unit that is neither static nor masked issues only `enable`; disabling issues only `disable`, even for a static unit; the status follows only on success |
| Backend.AllowedUnitsExactly | main.py:79-85 | the allowlist admits exactly `sshd.service` and `bluetooth.service` |
| Backend.GateAdmits | main.py:164-167 | the gate (also at lines 184-186 and 201-203) admits exactly the names that normalise to an allowlisted unit, passes on the normalised name, and refuses other valid names with "unit is not allowlisted" |
| Backend.GateBareName | main.py:65-66 | a bare `sshd` passes the gate as `sshd.service` |
| Backend.AllowedUnitsNormal | main.py:17-21 | every allowlist entry names its unit in normal form |
| Backend.Row | main.py:147-161 | a refused entry issues nothing; otherwise one `show` of the status's unit, and the row's label is the entry's label or else that unit |
| Backend.Rows | main.py:145-161 | the loop's result only extends the trace, and a successful one has exactly one row and one `show` per entry |
| Backend.RowsAppend | main.py:146-161 | one more entry leaves a refused result unchanged and otherwise appends that entry's row or stops at its error |
| Backend.RowsStopAtError | main.py:146-148 | once an entry's name is refused, later entries change nothing |
| Backend.RowMatchesExtend | main.py:146-161 | later commands do not change which `show` an earlier row came from |
| Backend.RowsSnoc | main.py:146-161 | an entry in normal form adds one `show` of its unit and one row labelled by the entry or, failing that, by the unit |
| Backend.RowsOfNormalEntries | main.py:143-162 | for entries in normal form there is exactly one row per entry, in order, each from its own `show` of that entry's unit |
| Backend.GetServices | main.py:143-162 | the loop returns the rows the allowlist defines, and the trace of their `show` commands |
| Backend.RowsStep | main.py:146-161 | one turn of the loop: a refused row ends the whole result with its error, and an admitted one extends the rows so far |
| Backend.ServiceRow | main.py:147-161 | one loop turn's status and row are those of the entry |
| Backend.GetServicesRows | main.py:143-162 | `get_services` succeeds with exactly one row per allowlist entry, in allowlist order; each row comes from one `show` of its unit and carries the entry's label; no other command is issued |

## Left out

- `_run_systemctl` (main.py:28-45) is replaced by the oracle. It spawns a
  subprocess, builds its environment, reads the pipes and decodes them as UTF-8
  with replacement. Stripping the output and mapping a missing exit status to 0
  are the oracle's job, so the model only takes an integer status and two
  strings.
- asyncio and `await`: the operations are modelled as sequential calls. This
  leaves out concurrent calls interleaving their commands.
- `Plugin._main` and `_unload` (main.py:71-77) are host lifecycle hooks that only
  log.
- The `decky.logger` calls are not modelled, because they do not affect any
  result.
- Text.IsSpace and Text.IsLineBreak are fixed character tables. They stand in
  for CPython's Unicode tables and follow the `str.isspace` and
  `str.splitlines` sets of the Latin-1 range plus the common Unicode spaces and
  separators.
- The regex engine is not modelled. `_UNIT_RE.match` is the predicate
  `MatchesUnitPattern`, and `MatchesBodyIsLanguage` connects it to the
  pattern's language.
- UnitName.Normalize takes a string. The `unit or ""` fallback for `None` is
  therefore not modelled.
- The record returned by `_get_unit_status` has fixed fields, which makes the
  `.get("description")` and `.get("loadState")` reads in the public operations
  plain field reads.
- Exception class hierarchy: `SystemctlError` is a subclass of `RuntimeError`,
  which is not modelled. The two exception kinds are the two `Error`
  constructors, each carrying its message.
- The TypeScript panel is not modelled: it is not among the backend files, and
  it is presentation over the remote calls.
