/**
 * `CargoTestSuite`: one discovered test executable, and the run requests
 * it hands out (`launchCase`, `launchAllCases`, `launchCases`).
 */
module CargoSuite {
  import opened Text

  /** `ITestSuite::TestJobVerbosity`. */
  datatype Verbosity = Silent | Verbose

  /** The error codes a job sets with `setError` (`KJob::NoError` when none). */
  datatype JobError = NoError | FailedShownError | TargetsDirDoesNotExist

  /**
   * A published suite. It never changes after construction, so it is a
   * value; `executable` is the absolute path of the test binary.
   */
  datatype TestSuite = TestSuite(name: String, executable: String, cases: seq<String>, ignoredCases: seq<String>)
  {
    /** `CargoTestSuite::isIgnored`. */
    predicate IsIgnored(caseName: String)
    {
      caseName in ignoredCases
    }
  }

  /**
   * The descriptor of one `CargoRunTestsJob` the suite creates: the case to
   * run (empty for the whole suite) and the verbosity.
   */
  datatype RunRequest = RunRequest(caseName: String, verbosity: Verbosity)

  /** `CargoTestSuite::launchCase`. */
  function LaunchCase(testCase: String, verbosity: Verbosity): RunRequest
  {
    RunRequest(testCase, verbosity)
  }

  /** `CargoTestSuite::launchAllCases`: a whole-suite run is a run of the empty case name. */
  function LaunchAllCases(verbosity: Verbosity): RunRequest
  {
    RunRequest([], verbosity)
  }

  /**
   * `CargoTestSuite::launchCases`: one single-case job per requested case,
   * in the order given, each silent whatever verbosity was asked for. The
   * jobs are then handed to a composite job that runs them all.
   */
  method LaunchCases(testCases: seq<String>, verbosity: Verbosity) returns (jobs: seq<RunRequest>)
    ensures |jobs| == |testCases|
    ensures forall i :: 0 <= i < |jobs| ==> jobs[i].caseName == testCases[i] && jobs[i].verbosity == Silent
  {
    jobs := [];
    var i := 0;
    while i < |testCases|
      invariant 0 <= i <= |testCases|
      invariant |jobs| == i
      invariant forall k :: 0 <= k < i ==> jobs[k] == LaunchCase(testCases[k], Silent)
    {
      jobs := jobs + [LaunchCase(testCases[i], Silent)];
      i := i + 1;
    }
  }
}
