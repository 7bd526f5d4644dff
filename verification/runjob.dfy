/**
 * `CargoRunTestsJob`: runs one test executable for a whole suite or for a
 * single case, collects the per-case results from its standard output and
 * reports a `TestResult` when the process ends.
 *
 * The process itself is the environment: its output chunks, its exit and
 * its failure arrive as calls of `ReceiveStandardOutput`, `ProcFinished` and
 * `ProcError`. What the job hands to the test controller and to the job
 * framework is kept in ghost logs.
 */
module CargoRunTests {
  import opened Text
  import opened CargoOutput
  import opened CargoSuite

  /** The command line of a run (the part after the executable path). */
  function RunArguments(suite: TestSuite, caseName: String, verbosity: Verbosity): (arguments: seq<String>)
    ensures |arguments| >= 1 && arguments[0] == "--test"
    ensures "--exact" in arguments <==> caseName != []
    ensures |arguments| <= 5
  {
    ["--test"]
    + (if verbosity == Verbose then ["--nocapture"] else [])
    + (if caseName == [] then []
       else ["--exact", caseName] + (if suite.IsIgnored(caseName) then ["--ignored"] else []))
  }

  /** What a libtest harness is asked to do by a command line. */
  datatype Invocation = Invocation(nocapture: bool, exact: Option<String>, includeIgnored: bool)

  /**
   * How a test harness reads the command lines the plugin builds: `--test`,
   * then an optional `--nocapture`, then either nothing (all cases) or
   * `--exact <name>` optionally followed by `--ignored`.
   */
  function Interpret(arguments: seq<String>): Option<Invocation>
  {
    if |arguments| == 0 || arguments[0] != "--test" then None
    else
      var nocapture := |arguments| > 1 && arguments[1] == "--nocapture";
      var rest := if nocapture then arguments[2..] else arguments[1..];
      if rest == [] then Some(Invocation(nocapture, None, false))
      else if |rest| >= 2 && rest[0] == "--exact" then
        if |rest| == 2 then Some(Invocation(nocapture, Some(rest[1]), false))
        else if |rest| == 3 && rest[2] == "--ignored" then Some(Invocation(nocapture, Some(rest[1]), true))
        else None
      else None
  }

  /**
   * The command line asks for output capture to be off exactly when the run
   * is verbose, for one exact case exactly when a case name is given, and
   * for ignored cases to be included exactly when that named case is one of
   * the suite's ignored cases.
   */
  lemma ArgumentsRoundTrip(suite: TestSuite, caseName: String, verbosity: Verbosity)
    ensures Interpret(RunArguments(suite, caseName, verbosity))
              == Some(Invocation(verbosity == Verbose,
                                 if caseName == [] then None else Some(caseName),
                                 caseName != [] && caseName in suite.ignoredCases))
  {
  }

  /** A whole-suite run passes neither `--exact` nor `--ignored`. */
  lemma WholeSuiteArguments(suite: TestSuite, verbosity: Verbosity)
    ensures RunArguments(suite, LaunchAllCases(verbosity).caseName, verbosity)
              == if verbosity == Verbose then ["--test", "--nocapture"] else ["--test"]
  {
  }

  /** The aggregate handed to `notifyTestRunFinished`. */
  datatype TestResult = TestResult(suiteResult: TestCaseResult, testCaseResults: map<String, TestCaseResult>)

  class RunTestsJob {
    const suite: TestSuite
    const caseName: String
    const verbosity: Verbosity

    var killed: bool
    var caseResults: map<String, TestCaseResult>
    var error: JobError

    /** `start` has been called; until then the job holds no process. */
    ghost var started: bool
    /** Arguments of `notifyTestRunStarted`, one entry per call. */
    ghost var runsStarted: seq<seq<String>>
    /** Results given to `notifyTestRunFinished`, one entry per call. */
    ghost var runsFinished: seq<TestResult>
    /** Calls of `emitResult`. */
    ghost var emitCount: nat
    /** Calls of the process's `kill`. */
    ghost var killRequests: nat

    constructor (suite: TestSuite, caseName: String, verbosity: Verbosity)
      ensures this.suite == suite && this.caseName == caseName && this.verbosity == verbosity
      ensures !killed && caseResults == map[] && error == NoError && !started
      ensures runsStarted == [] && runsFinished == [] && emitCount == 0 && killRequests == 0
    {
      this.suite := suite;
      this.caseName := caseName;
      this.verbosity := verbosity;
      killed := false;
      caseResults := map[];
      error := NoError;
      runsStarted := [];
      runsFinished := [];
      emitCount := 0;
      killRequests := 0;
      started := false;
    }

    /**
     * `start`: builds the command line, starts the process (left to the
     * environment) and notifies the test controller. The case list given to
     * the controller is the one the code passes: the empty name alone for a
     * whole-suite run, the suite's full case list for a single-case run.
     */
    method Start() returns (arguments: seq<String>)
      modifies this`runsStarted, this`started
      ensures started
      ensures arguments == RunArguments(suite, caseName, verbosity)
      ensures runsStarted == old(runsStarted) + [if caseName == [] then [caseName] else suite.cases]
    {
      arguments := RunArguments(suite, caseName, verbosity);
      started := true;
      runsStarted := runsStarted + [if caseName == [] then [caseName] else suite.cases];
    }

    /**
     * The handler of a chunk of standard output: every line that splits on
     * ' ' into four fields, the first being `test`, records the status of the
     * case named by the second field. It runs whether or not the job was
     * killed.
     */
    method ReceiveStandardOutput(lines: seq<String>)
      modifies this`caseResults
      ensures caseResults == ApplyLines(old(caseResults), lines)
    {
      var i := 0;
      while i < |lines|
        invariant 0 <= i <= |lines|
        invariant caseResults == ApplyLines(old(caseResults), lines[..i])
      {
        ApplyLinesAppend(old(caseResults), lines[..i], [lines[i]]);
        assert lines[..i + 1] == lines[..i] + [lines[i]];
        var elements := Split(lines[i], " ");
        if |elements| == 4 && elements[0] == "test" {
          var testCase := elements[1];
          var result := ParseResult(elements[3]);
          caseResults := caseResults[testCase := result];
        }
        i := i + 1;
      }
      assert lines[..|lines|] == lines;
    }

    /** `procFinished`: the process exited with `code`. */
    method ProcFinished(code: int)
      modifies this`error, this`runsFinished, this`emitCount
      ensures killed ==> error == old(error) && runsFinished == old(runsFinished) && emitCount == old(emitCount)
      ensures !killed ==> error == (if code != 0 then FailedShownError else old(error))
      ensures !killed ==> runsFinished == old(runsFinished) + [TestResult(if code == 0 then Passed else Failed, caseResults)]
      ensures !killed ==> emitCount == old(emitCount) + 1
    {
      if killed {
        return;
      }
      var suiteResult;
      if code != 0 {
        error := FailedShownError;
        suiteResult := Failed;
      } else {
        suiteResult := Passed;
      }
      var result := TestResult(suiteResult, caseResults);
      runsFinished := runsFinished + [result];
      emitCount := emitCount + 1;
    }

    /** `procError`: the process could not be run; no case results are reported. */
    method ProcError()
      modifies this`error, this`runsFinished, this`emitCount
      ensures killed ==> error == old(error) && runsFinished == old(runsFinished) && emitCount == old(emitCount)
      ensures !killed ==> error == FailedShownError
      ensures !killed ==> runsFinished == old(runsFinished) + [TestResult(Error, map[])]
      ensures !killed ==> emitCount == old(emitCount) + 1
    {
      if killed {
        return;
      }
      error := FailedShownError;
      runsFinished := runsFinished + [TestResult(Error, map[])];
      emitCount := emitCount + 1;
    }

    /**
     * `doKill`: marks the job killed and kills the process. The process
     * exists only once `start` has run, so the job must have been started.
     */
    method DoKill() returns (ok: bool)
      requires started
      modifies this`killed, this`killRequests
      ensures killed && ok
      ensures killRequests == old(killRequests) + 1
    {
      killed := true;
      killRequests := killRequests + 1;
      ok := true;
    }
  }
}
