# Cargo test discovery and test runs, modelled in Dafny

This project models the test integration of the KDevelop Cargo plugin
(`src/cargofindtestsjob.cpp`). It covers two jobs and the text protocols
between them and the Rust test executables that cargo builds.

- **Discovery (`CargoFindTestsJob`).** The job scans `<build dir>/target/debug`
  for executables named `<crate_name>-<hash>`. It starts two listing probes per
  executable: `--list` and `--list --ignored`. It collects the `<case>: test`
  lines of each probe into per-suite case lists. It publishes a
  `CargoTestSuite` to the test controller when a probe completes. It emits its
  result once every probe has completed or failed.
- **Test runs (`CargoRunTestsJob`).** The job builds the command line for a
  whole-suite run or a single-case run. It records a status for every
  `test <case> ... <status>` line the executable prints. When the process ends,
  it reports a `TestResult`.
- **`CargoTestSuite`.** A suite hands out run jobs. `launchCases` creates one
  silent single-case job per requested case.

Layout, one module per file:

- `text.dfy`, module `Text`: `QString::split`, which keeps empty parts, and
  `join`, with round trips in both directions.
- `output.dfy`, module `CargoOutput`: `parseResult`, the executable-name rule,
  the listing-line and result-line parsers, and the fold of result lines into
  the case map. `LastReport` is an independent reference definition for that
  fold.
- `suite.dfy`, module `CargoSuite`: the suite value, verbosity, job error codes
  and the `launch*` requests.
- `runjob.dfy`, module `CargoRunTests`: the run command line, with a decoder
  `Interpret` as its partner, and the class `RunTestsJob`.
- `findjob.dfy`, module `CargoFindTests`: the probe list, case-list
  accumulation and the class `FindTestsJob`.
- `scenarios.dfy`, module `CargoScenarios`: client methods that drive both jobs
  through concrete runs using only the contracts above.

Processes are the environment. A process's output chunks, its exit and its
failure arrive as calls of the corresponding methods. The directory listing is
an input: whether `target/debug` exists, and the executable files in it in
directory order. What the jobs hand to the test controller (`addTestSuite`,
`notifyTestRunStarted`, `notifyTestRunFinished`) and to the job framework
(`emitResult`, the processes' `kill`) is recorded in ghost logs.

## Behaviour as written

The model follows the code where a plain-language description of the plugin
would promise more.

- A discovery probe that completes publishes its suite whenever the suite
  already has a case-list entry (lines 415-422). This happens whatever the
  state of the suite's other probe. An executable is therefore normally
  published twice. The first publication can lack the ignored list
  (`CargoScenarios.DiscoverOneExecutable`). It can also carry an ignored case
  that is not among its cases (`CargoScenarios.IgnoredBeforeAllCases`). So
  "ignored cases are a subset of cases" does not hold of published suites.
- When no file name matches, `executors` stays empty and no callback ever
  arrives. `emitResult` is then never called and the job does not finish
  (line 424; `CargoScenarios.DiscoverNothing`).
- Listing lines and result lines are split exactly, without trimming. Empty
  fields count: two spaces in a row give an extra, empty field.
- For a whole-suite run, `notifyTestRunStarted` receives the list holding only
  the empty case name. For a single-case run it receives the suite's full case
  list (lines 191-198). This looks inverted; the model logs it as written.
- A whole-suite run does not mark ignored cases NotRun by itself. A case gets a
  status only from an output line, and `ignored` maps to NotRun. The reported
  case map is exactly the map built from the lines.
- The run job's output handler does not check `killed`. Lines that arrive after
  a kill still update the case map, but no result is reported.
- A discovery probe's failure counts towards completion like a normal exit but
  never publishes (lines 430-444).
- The run job's constructor leaves the process pointer `exec` unset
  (lines 102-109, 217); only `start` assigns it (line 161). `doKill` calls
  `exec->kill()` unconditionally (line 204), so killing a run job that was never
  started is undefined behaviour. `RunTestsJob.DoKill` therefore requires the
  job to have been started.

## Model

| member | source | states |
|---|---|---|
| `Text.Split` | src/cargofindtestsjob.cpp:341 | a split always has at least one part, and its first part is a prefix of the input |
| `Text.JoinSplit` | src/cargofindtestsjob.cpp:457 | joining the parts with the separator gives back the line: splitting drops and trims nothing |
| `Text.SplitPartsFree` | src/cargofindtestsjob.cpp:478 | no part of a split contains the separator |
| `Text.SplitJoin` | src/cargofindtestsjob.cpp:175 | for separators whose first character does not recur (`'-'`, `' '`, `": "`), splitting a join of separator-free parts returns exactly those parts |
| `Text.SplitCount` | src/cargofindtestsjob.cpp:341-342 | splitting on one character gives one part more than the character's occurrences, so empty parts are kept |
| `CargoOutput.ParseResult` | src/cargofindtestsjob.cpp:111-127 | total; `ok` gives Passed, `FAILED` gives Failed, `ignored` gives NotRun, and exactly the other tokens give Error |
| `CargoOutput.SuiteNameRule` | src/cargofindtestsjob.cpp:341-346 | a file name is accepted iff it holds exactly one `-`; the suite name is then the dash-free text before it, and the rest is dash-free |
| `CargoOutput.SuiteNameOfCargoName` | src/cargofindtestsjob.cpp:331-346 | every `<name>-<hash>` with dash-free parts is accepted with suite name `name` |
| `CargoOutput.ListingLineIff` | src/cargofindtestsjob.cpp:457-463 | a `--list` line yields case `name` iff the line is exactly `name: test` and `name` holds no `": "` |
| `CargoOutput.ResultLineShape` | src/cargofindtestsjob.cpp:175-179 | `test <case> <x> <token>` with space-free fields reports `<case>` with `parseResult(<token>)` |
| `CargoOutput.ResultLineIff` | src/cargofindtestsjob.cpp:175-176 | a line is a result line iff it holds exactly three spaces and starts with `test ` |
| `CargoOutput.ResultLineName` | src/cargofindtestsjob.cpp:175-178 | the case a result line reports is the space-free field right after `test ` |
| `CargoOutput.ApplyLinesAppend` | src/cargofindtestsjob.cpp:169-186 | output delivered in two chunks has the same effect on the case map as delivered at once |
| `CargoOutput.ApplyLinesLastWins` | src/cargofindtestsjob.cpp:172-185 | after a run of lines, a reported case holds the status of the last line reporting it (the backward-scanning `LastReport`); every other case keeps its entry or stays absent |
| `CargoOutput.ApplyLinesIdempotent` | src/cargofindtestsjob.cpp:172-185 | feeding the same lines again leaves the case map unchanged |
| `CargoSuite.LaunchCases` | src/cargofindtestsjob.cpp:267-286 | one job per requested case, in the given order, each for exactly that case and Silent whatever verbosity was asked |
| `CargoRunTests.RunArguments` | src/cargofindtestsjob.cpp:132-150 | the command line starts with `--test`, and holds `--exact` iff a case name is given |
| `CargoRunTests.ArgumentsRoundTrip` | src/cargofindtestsjob.cpp:132-150 | read back as a test harness reads it, the command line asks for `--nocapture` iff Verbose, for one exact case iff the case name is non-empty, and for ignored cases iff that case is in the suite's ignored list |
| `CargoRunTests.WholeSuiteArguments` | src/cargofindtestsjob.cpp:293-296 | a whole-suite run is `--test`, plus `--nocapture` when Verbose, and nothing else |
| `CargoRunTests.RunTestsJob.constructor` | src/cargofindtestsjob.cpp:102-109 | a new run job is not killed, has no case results and no error |
| `CargoRunTests.RunTestsJob.Start` | src/cargofindtestsjob.cpp:129-199 | returns `RunArguments` for the job's suite, case and verbosity, and logs the case list given to `notifyTestRunStarted` as the code chooses it; the job is started |
| `CargoRunTests.RunTestsJob.ReceiveStandardOutput` | src/cargofindtestsjob.cpp:169-186 | the case map becomes the fold of the lines over the old map; nothing else changes |
| `CargoRunTests.RunTestsJob.ProcFinished` | src/cargofindtestsjob.cpp:241-265 | unless killed: one result is reported and emitted; Passed for exit code 0, otherwise Failed with the job error set; its case map equals `caseResults`. If killed: nothing changes |
| `CargoRunTests.RunTestsJob.ProcError` | src/cargofindtestsjob.cpp:222-239 | unless killed: the job error is set and one result is reported and emitted, Error with an empty case map. If killed: nothing changes |
| `CargoRunTests.RunTestsJob.DoKill` | src/cargofindtestsjob.cpp:201-206 | only for a started job, which has a process: sets `killed`, kills the process once and returns true |
| `CargoFindTests.AcceptedIff` | src/cargofindtestsjob.cpp:328-346 | an executable is a candidate iff some directory entry's file name yields its suite name under the dash rule |
| `CargoFindTests.ProbesForShape` | src/cargofindtestsjob.cpp:325-392 | there are exactly twice as many probes as accepted executables; for the i-th accepted one, probe 2i is `--list` and probe 2i+1 is `--list --ignored` |
| `CargoFindTests.ListedCasesAppend` | src/cargofindtestsjob.cpp:455-464 | listing output delivered in chunks lists the same cases, in the same order, as delivered at once |
| `CargoFindTests.ListedCasesMembers` | src/cargofindtestsjob.cpp:455-464 | a name is listed iff the output holds the line `<name>: test` and the name holds no `": "` |
| `CargoFindTests.Accumulate` | src/cargofindtestsjob.cpp:446-465 | the suite's entry is created if missing, the cases it already had are kept as a prefix, and other suites' entries are unchanged |
| `CargoFindTests.AccumulateChunks` | src/cargofindtestsjob.cpp:467-486 | accumulating two chunks one after the other equals accumulating them together |
| `CargoFindTests.FindTestsJob.constructor` | src/cargofindtestsjob.cpp:298-311 | a new discovery job is not killed, has no probes, no case lists, no error, and has published nothing |
| `CargoFindTests.FindTestsJob.Start` | src/cargofindtestsjob.cpp:313-393 | a missing targets directory sets `TargetsDirDoesNotExist` and emits at once; otherwise the probes are exactly `ProbesFor(entries)`, the counter is 0 and nothing is emitted |
| `CargoFindTests.FindTestsJob.DoKill` | src/cargofindtestsjob.cpp:395-403 | sets `killed`, kills every probe in order and returns true |
| `CargoFindTests.FindTestsJob.ProcFinished` | src/cargofindtestsjob.cpp:405-428 | unless killed: the counter rises by exactly 1; the suite is published iff it has a case-list entry, with its cases and its ignored cases so far; the result is emitted iff the counter reaches the number of probes. If killed: nothing changes. The emit accounting in `Valid` is kept |
| `CargoFindTests.FindTestsJob.ProcError` | src/cargofindtestsjob.cpp:430-444 | as `ProcFinished` but never publishes |
| `CargoFindTests.FindTestsJob.AddSuiteCases` | src/cargofindtestsjob.cpp:446-465 | the case lists become `Accumulate` of the old lists with the listed lines; the emit accounting in `Valid` is kept |
| `CargoFindTests.FindTestsJob.AddIgnoredCases` | src/cargofindtestsjob.cpp:467-486 | the ignored lists become `Accumulate` of the old lists with the listed lines; the emit accounting in `Valid` is kept |

`FindTestsJob.Valid` is kept by every method of the class. It says that the
result is emitted exactly once for a missing targets directory. Otherwise it is
emitted exactly once when the counted completions reach the number of probes,
if there is at least one probe, and never before.

## Left out

- Process spawning and killing (`CommandExecutor`) is left out. Its output,
  exit and failure are method calls made by the environment, and kills are only
  counted. The model does not restrict how often or in which order the
  environment calls back. The `suiteName` and `executable` passed to the
  discovery callbacks are free inputs, not tied to a probe in `executors`, so
  the model counts completions, not completions per probe.
- Directory enumeration and the existence check (`QDir`) are left out. The
  model takes the existence flag and the executable files in directory order as
  inputs. The filter to executable regular files is assumed done.
- The output view is left out: `setStandardToolView`, `setVerbosity`,
  `setBehaviours`, `OutputModel`, the raw lines appended to it, standard error,
  and the `Test <suite> <case>` header line.
- `ExecuteCompositeJob` scheduling is left out. `launchCases` is modelled as
  the list of run requests it hands over.
- The test controller and `emitResult` appear only as ghost logs.
- Error texts (i18n) and debug logging are left out.
- The job constructors' project and build-directory lookup is left out, and so
  are `CargoTestSuite::declaration`/`caseDeclaration`, which return empty
  declarations.
- `numExecutorsFinished` is left uninitialised by the source constructor. The
  model starts it at 0, the value `start` gives it before any probe runs.
- `TestResult::TestCaseResult` has more values (Skipped, ExpectedFail,
  UnexpectedPass) that this code never produces. They are not modelled.
- `CargoFindTests.Accumulate`: its contract states the keys, the kept prefix
  and the untouched suites. What is appended is stated separately, by
  `ListedCasesMembers` and `ListedCasesAppend`.
