/**
 * `CargoFindTestsJob`: discovers the test suites of a cargo project.
 *
 * `start` scans `<build dir>/target/debug` for executables named
 * `<crate_name>-<hash>` and launches two listing probes per executable:
 * `--list` (every case) and `--list --ignored` (the ignored ones). The
 * probes' output, completion and failure are delivered by the environment
 * as calls of `AddSuiteCases`/`AddIgnoredCases`, `ProcFinished` and
 * `ProcError`. Suites handed to the test controller and calls of
 * `emitResult` are kept in ghost logs.
 */
module CargoFindTests {
  import opened Text
  import opened CargoOutput
  import opened CargoSuite

  /** An executable file found in the targets directory. */
  datatype FileEntry = FileEntry(fileName: String, absolutePath: String)

  datatype ProbeKind = ListAll | ListIgnored

  /** One listing process: which suite it belongs to, what it runs, what it lists. */
  datatype Probe = Probe(suiteName: String, executable: String, kind: ProbeKind)

  /** The arguments each kind of probe is started with. */
  function ProbeArguments(kind: ProbeKind): seq<String>
  {
    match kind
    case ListAll => ["--list"]
    case ListIgnored => ["--list", "--ignored"]
  }

  /** An executable accepted as a test suite. */
  datatype Candidate = Candidate(suiteName: String, executable: String)

  /** The accepted executables, in directory order. */
  function Accepted(entries: seq<FileEntry>): seq<Candidate>
    decreases |entries|
  {
    if entries == [] then []
    else
      var last := entries[|entries| - 1];
      Accepted(entries[..|entries| - 1])
      + match SuiteNameOf(last.fileName)
        case None => []
        case Some(name) => [Candidate(name, last.absolutePath)]
  }

  /** The probes `start` launches for one directory entry. */
  function ProbesOf(entry: FileEntry): seq<Probe>
  {
    match SuiteNameOf(entry.fileName)
    case None => []
    case Some(name) => [Probe(name, entry.absolutePath, ListAll), Probe(name, entry.absolutePath, ListIgnored)]
  }

  /** The probes `start` launches for the whole directory, in launch order. */
  function ProbesFor(entries: seq<FileEntry>): seq<Probe>
    decreases |entries|
  {
    if entries == [] then [] else ProbesFor(entries[..|entries| - 1]) + ProbesOf(entries[|entries| - 1])
  }

  /** Entry `e` is the executable of candidate `c` under the dash rule. */
  predicate Yields(e: FileEntry, c: Candidate)
  {
    SuiteNameOf(e.fileName) == Some(c.suiteName) && e.absolutePath == c.executable
  }

  /** The last entry adds its candidate, if any, after those of the entries before it. */
  lemma AcceptedSnoc(entries: seq<FileEntry>, c: Candidate)
    requires entries != []
    ensures (c in Accepted(entries))
              == (c in Accepted(entries[..|entries| - 1]) || Yields(entries[|entries| - 1], c))
  {
    var last := entries[|entries| - 1];
    var tail := match SuiteNameOf(last.fileName)
                case None => []
                case Some(name) => [Candidate(name, last.absolutePath)];
    assert Accepted(entries) == Accepted(entries[..|entries| - 1]) + tail;
    assert c in tail <==> Yields(last, c);
  }

  /** Some entry yields `c`. */
  ghost predicate SomeYields(entries: seq<FileEntry>, c: Candidate)
  {
    exists k :: 0 <= k < |entries| && Yields(entries[k], c)
  }

  /** An entry yields `c` in `init + [last]` exactly when one does in `init` or `last` does. */
  lemma YieldsSnoc(init: seq<FileEntry>, last: FileEntry, c: Candidate)
    ensures SomeYields(init + [last], c) == (SomeYields(init, c) || Yields(last, c))
  {
    var entries := init + [last];
    if SomeYields(init, c) {
      var k :| 0 <= k < |init| && Yields(init[k], c);
      assert entries[k] == init[k];
    }
    if Yields(last, c) {
      assert entries[|init|] == last;
    }
    if SomeYields(entries, c) {
      var k :| 0 <= k < |entries| && Yields(entries[k], c);
      if k < |init| {
        assert init[k] == entries[k];
      }
    }
  }

  /** A candidate is accepted exactly when some entry's file name yields its suite name. */
  lemma {:induction false} AcceptedIff(entries: seq<FileEntry>, c: Candidate)
    ensures c in Accepted(entries) <==> exists k :: 0 <= k < |entries| && Yields(entries[k], c)
    decreases |entries|
  {
    if entries != [] {
      var init := entries[..|entries| - 1];
      AcceptedIff(init, c);
      AcceptedSnoc(entries, c);
      YieldsSnoc(init, entries[|entries| - 1], c);
      assert init + [entries[|entries| - 1]] == entries;
    }
  }

  /**
   * Each accepted executable contributes exactly two probes, in directory
   * order: first `--list`, then `--list --ignored`.
   */
  lemma {:induction false} ProbesForShape(entries: seq<FileEntry>)
    ensures |ProbesFor(entries)| == 2 * |Accepted(entries)|
    ensures forall i :: 0 <= i < |Accepted(entries)| ==>
              var c := Accepted(entries)[i];
              ProbesFor(entries)[2 * i] == Probe(c.suiteName, c.executable, ListAll)
              && ProbesFor(entries)[2 * i + 1] == Probe(c.suiteName, c.executable, ListIgnored)
    decreases |entries|
  {
    if entries != [] {
      var n := |entries| - 1;
      ProbesForShape(entries[..n]);
    }
  }

  // ---------------------------------------------------------------------
  // Case lists

  /** The case names a chunk of listing output adds, in arrival order, duplicates kept. */
  function ListedCases(lines: seq<String>): seq<String>
    decreases |lines|
  {
    if lines == [] then []
    else
      ListedCases(lines[..|lines| - 1])
      + match ParseListingLine(lines[|lines| - 1])
        case None => []
        case Some(name) => [name]
  }

  /** Listing output delivered in two chunks lists what it lists delivered at once. */
  lemma {:induction false} ListedCasesAppend(a: seq<String>, b: seq<String>)
    ensures ListedCases(a + b) == ListedCases(a) + ListedCases(b)
    decreases |b|
  {
    if b == [] {
      assert a + b == a;
    } else {
      var n := |b| - 1;
      assert (a + b)[..|a + b| - 1] == a + b[..n];
      assert (a + b)[|a + b| - 1] == b[n];
      ListedCasesAppend(a, b[..n]);
    }
  }

  /** A name is listed exactly when the chunk holds the line `<name>: test` and the name holds no ": ". */
  lemma {:induction false} ListedCasesMembers(lines: seq<String>, name: String)
    ensures name in ListedCases(lines) <==> (name + ": test") in lines && !Contains(name, ": ")
    decreases |lines|
  {
    if lines != [] {
      var n := |lines| - 1;
      ListedCasesMembers(lines[..n], name);
      ListingLineIff(lines[n], name);
      assert lines == lines[..n] + [lines[n]];
      match ParseListingLine(lines[n])
      case None =>
      case Some(other) =>
        ListingLineIff(lines[n], other);
    }
  }

  /** One more line of listing output adds the case it lists, if any. */
  lemma ListedCasesStep(lines: seq<String>, i: nat)
    requires i < |lines|
    ensures ListedCases(lines[..i + 1])
              == ListedCases(lines[..i]) + match ParseListingLine(lines[i]) case None => [] case Some(name) => [name]
  {
    assert lines[..i + 1][..i] == lines[..i];
    assert lines[..i + 1][i] == lines[i];
  }

  /** The list stored for `key`, or the empty list (`QHash::value`). */
  function ValueOr(m: map<String, seq<String>>, key: String): seq<String>
  {
    if key in m then m[key] else []
  }

  /**
   * `addSuiteCases`/`addIgnoredCases`: the entry of `suiteName` is created
   * if missing and the listed cases are appended to it; other suites'
   * entries are left alone.
   */
  function Accumulate(m: map<String, seq<String>>, suiteName: String, lines: seq<String>): (r: map<String, seq<String>>)
    ensures r.Keys == m.Keys + {suiteName}
    ensures forall other :: other in m && other != suiteName ==> r[other] == m[other]
    ensures |ValueOr(m, suiteName)| <= |r[suiteName]| && r[suiteName][..|ValueOr(m, suiteName)|] == ValueOr(m, suiteName)
  {
    m[suiteName := ValueOr(m, suiteName) + ListedCases(lines)]
  }

  /** Accumulating two chunks one after the other is accumulating them together. */
  lemma AccumulateChunks(m: map<String, seq<String>>, suiteName: String, a: seq<String>, b: seq<String>)
    ensures Accumulate(Accumulate(m, suiteName, a), suiteName, b) == Accumulate(m, suiteName, a + b)
  {
    ListedCasesAppend(a, b);
    var prior := ValueOr(m, suiteName);
    var first := Accumulate(m, suiteName, a);
    assert first == m[suiteName := prior + ListedCases(a)];
    assert ValueOr(first, suiteName) == prior + ListedCases(a);
    assert (prior + ListedCases(a)) + ListedCases(b) == prior + ListedCases(a + b);
    assert first[suiteName := prior + ListedCases(a + b)] == m[suiteName := prior + ListedCases(a + b)];
  }

  class FindTestsJob {
    var executors: seq<Probe>
    var numExecutorsFinished: int
    var suiteCases: map<String, seq<String>>
    var ignoredCases: map<String, seq<String>>
    var killed: bool
    var error: JobError

    /** `start` has been called (the job framework calls it once). */
    ghost var started: bool
    /** Suites handed to the test controller's `addTestSuite`, in order. */
    ghost var published: seq<TestSuite>
    /** Calls of `emitResult`. */
    ghost var emitCount: nat
    /** Probes whose `kill` was called, in order. */
    ghost var killRequests: seq<Probe>

    /**
     * The result is emitted once for a missing targets directory, and once
     * when the completions counted reach the number of probes, provided
     * there is at least one probe; never otherwise.
     */
    ghost predicate Valid()
      reads this
    {
      && numExecutorsFinished >= 0
      && (!started ==> executors == [] && error == NoError)
      && emitCount == (if error == TargetsDirDoesNotExist then 1 else 0)
                      + (if 0 < |executors| <= numExecutorsFinished then 1 else 0)
    }

    constructor ()
      ensures Valid() && !started
      ensures executors == [] && numExecutorsFinished == 0
      ensures suiteCases == map[] && ignoredCases == map[] && !killed && error == NoError
      ensures published == [] && emitCount == 0 && killRequests == []
    {
      executors := [];
      numExecutorsFinished := 0;
      suiteCases := map[];
      ignoredCases := map[];
      killed := false;
      error := NoError;
      started := false;
      published := [];
      emitCount := 0;
      killRequests := [];
    }

    /**
     * `start`, given whether the targets directory exists and its executable
     * files in directory order. Every file whose name splits on '-' into
     * exactly two parts gets its two probes; the others are skipped.
     */
    method Start(targetsDirExists: bool, entries: seq<FileEntry>)
      requires Valid() && !started
      modifies this`executors, this`numExecutorsFinished, this`error, this`started, this`emitCount
      ensures Valid() && started
      ensures !targetsDirExists ==> error == TargetsDirDoesNotExist && emitCount == old(emitCount) + 1
                                    && executors == old(executors) && numExecutorsFinished == old(numExecutorsFinished)
      ensures targetsDirExists ==> error == old(error) && emitCount == old(emitCount)
                                   && executors == ProbesFor(entries) && numExecutorsFinished == 0
    {
      started := true;
      if !targetsDirExists {
        error := TargetsDirDoesNotExist;
        emitCount := emitCount + 1;
        return;
      }
      executors := [];
      numExecutorsFinished := 0;
      var i := 0;
      while i < |entries|
        invariant 0 <= i <= |entries|
        invariant executors == ProbesFor(entries[..i])
        modifies this`executors
      {
        assert entries[..i + 1][..i] == entries[..i];
        var fileNameParts := Split(entries[i].fileName, "-");
        if |fileNameParts| == 2 {
          var suiteName := fileNameParts[0];
          var executable := entries[i].absolutePath;
          executors := executors + [Probe(suiteName, executable, ListAll)];
          executors := executors + [Probe(suiteName, executable, ListIgnored)];
        }
        i := i + 1;
      }
      assert entries[..|entries|] == entries;
    }

    /** `doKill`: marks the job killed and kills every probe. */
    method DoKill() returns (ok: bool)
      requires Valid()
      modifies this`killed, this`killRequests
      ensures Valid() && killed && ok
      ensures killRequests == old(killRequests) + executors
    {
      killed := true;
      var i := 0;
      while i < |executors|
        invariant 0 <= i <= |executors|
        invariant killRequests == old(killRequests) + executors[..i]
        modifies this`killRequests
      {
        assert executors[..i + 1] == executors[..i] + [executors[i]];
        killRequests := killRequests + [executors[i]];
        i := i + 1;
      }
      assert executors[..|executors|] == executors;
      ok := true;
    }

    /**
     * `procFinished` of a probe of `suiteName`: counts it and publishes the
     * suite whenever a case list exists for it, whatever the state of the
     * other probe of the same executable.
     */
    method ProcFinished(suiteName: String, executable: String, code: int)
      requires Valid()
      modifies this`numExecutorsFinished, this`published, this`emitCount
      ensures Valid()
      ensures killed ==> numExecutorsFinished == old(numExecutorsFinished)
                         && published == old(published) && emitCount == old(emitCount)
      ensures !killed ==> numExecutorsFinished == old(numExecutorsFinished) + 1
      ensures !killed ==> published == old(published)
                            + if suiteName in suiteCases
                              then [TestSuite(suiteName, executable, suiteCases[suiteName], ValueOr(ignoredCases, suiteName))]
                              else []
      ensures !killed ==> emitCount == old(emitCount) + if numExecutorsFinished == |executors| then 1 else 0
    {
      if killed {
        return;
      }
      numExecutorsFinished := numExecutorsFinished + 1;
      if suiteName in suiteCases {
        var all := suiteCases[suiteName];
        var ignored := ValueOr(ignoredCases, suiteName);
        published := published + [TestSuite(suiteName, executable, all, ignored)];
      }
      if numExecutorsFinished == |executors| {
        emitCount := emitCount + 1;
      }
    }

    /** `procError` of a probe: counted like a completion, but never publishes. */
    method ProcError(suiteName: String)
      requires Valid()
      modifies this`numExecutorsFinished, this`emitCount
      ensures Valid()
      ensures killed ==> numExecutorsFinished == old(numExecutorsFinished) && emitCount == old(emitCount)
      ensures !killed ==> numExecutorsFinished == old(numExecutorsFinished) + 1
      ensures !killed ==> emitCount == old(emitCount) + if numExecutorsFinished == |executors| then 1 else 0
    {
      if killed {
        return;
      }
      numExecutorsFinished := numExecutorsFinished + 1;
      if numExecutorsFinished == |executors| {
        emitCount := emitCount + 1;
      }
    }

    /** `addSuiteCases`: output of a `--list` probe of `suiteName`. */
    method AddSuiteCases(suiteName: String, lines: seq<String>)
      requires Valid()
      modifies this`suiteCases
      ensures Valid()
      ensures suiteCases == Accumulate(old(suiteCases), suiteName, lines)
    {
      if suiteName !in suiteCases {
        suiteCases := suiteCases[suiteName := []];
      }
      ghost var prior := ValueOr(old(suiteCases), suiteName);
      var i := 0;
      assert ListedCases(lines[..0]) == [];
      assert prior + [] == prior;
      assert suiteCases == old(suiteCases)[suiteName := prior];
      while i < |lines|
        invariant 0 <= i <= |lines|
        invariant suiteCases == old(suiteCases)[suiteName := prior + ListedCases(lines[..i])]
      {
        ListedCasesStep(lines, i);
        var elements := Split(lines[i], ": ");
        assert ParseListingLine(lines[i]) == if |elements| == 2 && elements[1] == "test" then Some(elements[0]) else None;
        if |elements| == 2 && elements[1] == "test" {
          assert ListedCases(lines[..i + 1]) == ListedCases(lines[..i]) + [elements[0]];
          assert suiteCases[suiteName] + [elements[0]] == prior + ListedCases(lines[..i + 1]);
          suiteCases := suiteCases[suiteName := suiteCases[suiteName] + [elements[0]]];
        } else {
          assert ListedCases(lines[..i + 1]) == ListedCases(lines[..i]);
        }
        i := i + 1;
      }
      assert lines[..|lines|] == lines;
    }

    /** `addIgnoredCases`: output of a `--list --ignored` probe of `suiteName`. */
    method AddIgnoredCases(suiteName: String, lines: seq<String>)
      requires Valid()
      modifies this`ignoredCases
      ensures Valid()
      ensures ignoredCases == Accumulate(old(ignoredCases), suiteName, lines)
    {
      if suiteName !in ignoredCases {
        ignoredCases := ignoredCases[suiteName := []];
      }
      ghost var prior := ValueOr(old(ignoredCases), suiteName);
      var i := 0;
      assert ListedCases(lines[..0]) == [];
      assert prior + [] == prior;
      assert ignoredCases == old(ignoredCases)[suiteName := prior];
      while i < |lines|
        invariant 0 <= i <= |lines|
        invariant ignoredCases == old(ignoredCases)[suiteName := prior + ListedCases(lines[..i])]
      {
        ListedCasesStep(lines, i);
        var elements := Split(lines[i], ": ");
        assert ParseListingLine(lines[i]) == if |elements| == 2 && elements[1] == "test" then Some(elements[0]) else None;
        if |elements| == 2 && elements[1] == "test" {
          assert ListedCases(lines[..i + 1]) == ListedCases(lines[..i]) + [elements[0]];
          assert ignoredCases[suiteName] + [elements[0]] == prior + ListedCases(lines[..i + 1]);
          ignoredCases := ignoredCases[suiteName := ignoredCases[suiteName] + [elements[0]]];
        } else {
          assert ListedCases(lines[..i + 1]) == ListedCases(lines[..i]);
        }
        i := i + 1;
      }
      assert lines[..|lines|] == lines;
    }
  }
}
