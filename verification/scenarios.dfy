/**
 * Client code driving the two jobs through concrete runs, using only the
 * contracts of the model. Each method mirrors one situation the plugin
 * meets with a real cargo project.
 */
module CargoScenarios {
  import opened Text
  import opened CargoOutput
  import opened CargoSuite
  import opened CargoRunTests
  import opened CargoFindTests

  lemma ListingOf(name: String)
    requires ' ' !in name
    ensures ParseListingLine(name + ": test") == Some(name)
  {
    MissingCharNotContained(name, ": ", 1);
    ListingLineIff(name + ": test", name);
  }

  lemma ListingOfOne(a: String)
    requires ' ' !in a
    ensures ListedCases([a + ": test"]) == [a]
  {
    ListingOf(a);
    assert [a + ": test"][..0] == [];
  }

  lemma ListingOfTwo(a: String, b: String)
    requires ' ' !in a && ' ' !in b
    ensures ListedCases([a + ": test", b + ": test"]) == [a, b]
  {
    ListingOfOne(a);
    ListingOf(b);
    assert [a + ": test", b + ": test"][..1] == [a + ": test"];
  }

  /** A discovery job started on a directory holding the one executable `<name>-<hash>`. */
  method StartOnOne(name: String, hash: String, path: String) returns (job: FindTestsJob)
    requires '-' !in name && '-' !in hash
    ensures fresh(job) && job.Valid() && job.started && !job.killed
    ensures job.executors == [Probe(name, path, ListAll), Probe(name, path, ListIgnored)]
    ensures job.numExecutorsFinished == 0 && job.emitCount == 0 && job.published == []
    ensures job.suiteCases == map[] && job.ignoredCases == map[] && job.killRequests == []
  {
    job := new FindTestsJob();
    SuiteNameOfCargoName(name, hash);
    job.Start(true, [FileEntry(name + "-" + hash, path)]);
    assert [FileEntry(name + "-" + hash, path)][..0] == [];
  }

  /**
   * One executable `<name>-<hash>` whose `--list` probe prints two cases
   * and whose `--list --ignored` probe prints one of them. The `--list`
   * probe completes before the ignored list has arrived, so the suite is
   * published twice, the first time with an empty ignored list.
   */
  method DiscoverOneExecutable(name: String, hash: String, path: String, a: String, b: String)
    requires '-' !in name && '-' !in hash && ' ' !in a && ' ' !in b
  {
    var job := StartOnOne(name, hash, path);

    var allLines := [a + ": test", b + ": test"];
    ListingOfTwo(a, b);
    job.AddSuiteCases(name, allLines);
    assert job.suiteCases[name] == [] + [a, b] == [a, b];
    assert ValueOr(job.ignoredCases, name) == [];
    job.ProcFinished(name, path, 0);
    assert job.published == [TestSuite(name, path, [a, b], [])];
    assert job.emitCount == 0;

    var ignoredLines := [b + ": test"];
    ListingOfOne(b);
    job.AddIgnoredCases(name, ignoredLines);
    assert ValueOr(job.ignoredCases, name) == [] + [b] == [b];
    job.ProcFinished(name, path, 0);
    assert job.published == [TestSuite(name, path, [a, b], []), TestSuite(name, path, [a, b], [b])];
    assert job.emitCount == 1;
  }

  /**
   * The `--list --ignored` probe reports and completes while the `--list`
   * probe has delivered only part of its output: the suite is published
   * with an ignored case that is not among its cases.
   */
  method IgnoredBeforeAllCases(name: String, hash: String, path: String, a: String, b: String)
    requires '-' !in name && '-' !in hash && ' ' !in a && ' ' !in b && a != b
  {
    var job := StartOnOne(name, hash, path);

    ListingOfOne(a);
    job.AddSuiteCases(name, [a + ": test"]);
    assert job.suiteCases[name] == [] + [a] == [a];
    ListingOfOne(b);
    job.AddIgnoredCases(name, [b + ": test"]);
    assert ValueOr(job.ignoredCases, name) == [] + [b] == [b];
    job.ProcFinished(name, path, 0);
    assert job.published == [TestSuite(name, path, [a], [b])];
    assert b !in job.published[0].cases;
    assert job.emitCount == 0;
  }

  /** A targets directory with no candidate executable: no probe, and no result either. */
  method DiscoverNothing(fileName: String, path: String)
    requires multiset(fileName)['-'] != 1
  {
    var job := new FindTestsJob();
    SuiteNameRule(fileName);
    job.Start(true, [FileEntry(fileName, path)]);
    assert [FileEntry(fileName, path)][..0] == [];
    assert job.executors == [];
    assert job.emitCount == 0 && job.error == NoError;
  }

  /** A missing targets directory is reported at once, with no probe. */
  method DiscoverWithoutTargetsDirectory(entries: seq<FileEntry>)
  {
    var job := new FindTestsJob();
    job.Start(false, entries);
    assert job.error == TargetsDirDoesNotExist && job.emitCount == 1 && job.executors == [];
  }

  /** After a kill, late probe completions neither count, publish nor emit. */
  method KillDiscovery(name: String, hash: String, path: String, lines: seq<String>)
    requires '-' !in name && '-' !in hash
  {
    var job := StartOnOne(name, hash, path);
    job.AddSuiteCases(name, lines);
    var ok := job.DoKill();
    assert |job.killRequests| == 2;
    job.ProcFinished(name, path, 0);
    job.ProcError(name);
    assert job.published == [] && job.emitCount == 0 && job.numExecutorsFinished == 0;
  }

  /** A whole-suite run exiting with 1 after one passing and one failing case. */
  method RunWholeSuite(suite: TestSuite, a: String, b: String)
    requires ' ' !in a && ' ' !in b
  {
    var request := LaunchAllCases(Silent);
    var job := new RunTestsJob(suite, request.caseName, request.verbosity);
    var arguments := job.Start();
    assert arguments == ["--test"];
    assert job.runsStarted == [[[]]];

    ResultLineShape(a, "...", "ok");
    ResultLineShape(b, "...", "FAILED");
    var lines := ["test " + a + " " + "..." + " " + "ok", "test " + b + " " + "..." + " " + "FAILED"];
    assert ApplyLine(map[], lines[0]) == map[a := Passed];
    assert ApplyLine(map[a := Passed], lines[1]) == map[a := Passed, b := Failed];
    assert lines[1..][1..] == [];
    assert ApplyLines(map[a := Passed], lines[1..]) == map[a := Passed, b := Failed];
    assert ApplyLines(map[], lines) == map[a := Passed, b := Failed];
    job.ReceiveStandardOutput(lines);
    assert job.caseResults == map[a := Passed, b := Failed];
    job.ProcFinished(1);
    assert job.error == FailedShownError;
    assert job.runsFinished == [TestResult(Failed, map[a := Passed, b := Failed])];
  }

  /** An ignored case run on its own is passed `--ignored` and reports its own status. */
  method RunIgnoredCase(name: String, executable: String, c: String)
    requires ' ' !in c && c != []
  {
    var suite := TestSuite(name, executable, [c], [c]);
    var job := new RunTestsJob(suite, c, Silent);
    var arguments := job.Start();
    assert arguments == ["--test", "--exact", c, "--ignored"];

    ResultLineShape(c, "...", "ok");
    var lines := ["test " + c + " " + "..." + " " + "ok"];
    assert lines[1..] == [];
    job.ReceiveStandardOutput(lines);
    job.ProcFinished(0);
    assert job.runsFinished == [TestResult(Passed, map[c := Passed])];
  }

  /** A run whose process cannot be started reports Error and no case. */
  method RunFailsToStart()
  {
    var suite := TestSuite("foo", "/project/target/debug/foo-abc123", ["tests::a"], []);
    var job := new RunTestsJob(suite, [], Verbose);
    var arguments := job.Start();
    assert arguments == ["--test", "--nocapture"];
    job.ProcError();
    assert job.runsFinished == [TestResult(Error, map[])] && job.error == FailedShownError;
  }

  /** A started run that is killed reports nothing when its process exits afterwards. */
  method KillRun(suite: TestSuite, caseName: String)
  {
    var job := new RunTestsJob(suite, caseName, Silent);
    var arguments := job.Start();
    var ok := job.DoKill();
    job.ProcFinished(0);
    job.ProcError();
    assert job.killRequests == 1 && job.runsFinished == [] && job.emitCount == 0;
  }

  /** Running a list of cases gives one silent single-case job per case. */
  method RunTwoCases()
  {
    var jobs := LaunchCases(["tests::a", "tests::b"], Verbose);
    assert jobs == [RunRequest("tests::a", Silent), RunRequest("tests::b", Silent)];
  }
}
