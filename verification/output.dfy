/**
 * The textual protocols between the plugin and a Rust test executable
 * built by cargo: the executable's file name, the lines of its `--list`
 * output, and the lines it prints while running tests.
 */
module CargoOutput {
  import opened Text

  /** The outcomes the plugin reports (`TestResult::TestCaseResult`). */
  datatype TestCaseResult = NotRun | Passed | Failed | Error

  /** `CargoRunTestsJob::parseResult`: the status token of a result line. */
  function ParseResult(token: String): (r: TestCaseResult)
    ensures r == Passed <==> token == "ok"
    ensures r == Failed <==> token == "FAILED"
    ensures r == NotRun <==> token == "ignored"
    ensures r == Error <==> token != "ok" && token != "FAILED" && token != "ignored"
  {
    if token == "ok" then Passed
    else if token == "FAILED" then Failed
    else if token == "ignored" then NotRun
    else Error
  }

  // ---------------------------------------------------------------------
  // Executable names: `<crate_name>-<hash>`

  /** The suite name of a test executable, if its name has the cargo shape. */
  function SuiteNameOf(fileName: String): Option<String>
  {
    var parts := Split(fileName, "-");
    if |parts| != 2 then None else Some(parts[0])
  }

  /**
   * A file name is accepted exactly when it holds one '-', and the suite
   * name is then the text before it.
   */
  lemma SuiteNameRule(fileName: String)
    ensures SuiteNameOf(fileName).Some? <==> multiset(fileName)['-'] == 1
    ensures SuiteNameOf(fileName).Some? ==>
              var name := SuiteNameOf(fileName).value;
              '-' !in name && fileName[..|name| + 1] == name + "-" && '-' !in fileName[|name| + 1..]
  {
    SplitCount(fileName, '-');
    var parts := Split(fileName, "-");
    if |parts| == 2 {
      JoinSplit(fileName, "-");
      SplitPartsFree(fileName, "-");
      ContainsChar(parts[0], '-');
      ContainsChar(parts[1], '-');
      assert fileName == parts[0] + "-" + parts[1];
      assert fileName[|parts[0]| + 1..] == parts[1];
    }
  }

  /** Every `<name>-<hash>` with dash-free name and hash yields `name`. */
  lemma SuiteNameOfCargoName(name: String, hash: String)
    requires '-' !in name && '-' !in hash
    ensures SuiteNameOf(name + "-" + hash) == Some(name)
  {
    ContainsChar(name, '-');
    ContainsChar(hash, '-');
    assert Join([name, hash], "-") == name + "-" + hash;
    SplitJoin([name, hash], "-");
  }

  // ---------------------------------------------------------------------
  // Listing lines printed by `--list`: `<case-name>: test`

  /** The case name of one `--list` output line, if it has the listing shape. */
  function ParseListingLine(line: String): Option<String>
  {
    var elements := Split(line, ": ");
    if |elements| == 2 && elements[1] == "test" then Some(elements[0]) else None
  }

  /** A line lists `name` exactly when it is `name: test` and `name` holds no ": ". */
  lemma ListingLineIff(line: String, name: String)
    ensures ParseListingLine(line) == Some(name) <==> line == name + ": test" && !Contains(name, ": ")
  {
    var elements := Split(line, ": ");
    JoinSplit(line, ": ");
    SplitPartsFree(line, ": ");
    if |elements| == 2 {
      assert line == elements[0] + ": " + elements[1];
    }
    if line == name + ": test" && !Contains(name, ": ") {
      MissingCharNotContained("test", ": ", 0);
      assert line == Join([name, "test"], ": ");
      SplitJoin([name, "test"], ": ");
    }
  }

  // ---------------------------------------------------------------------
  // Result lines printed while running: `test <case> ... <status>`

  datatype CaseReport = CaseReport(caseName: String, status: TestCaseResult)

  /** The report carried by one output line of a test run, if any. */
  function ParseResultLine(line: String): Option<CaseReport>
  {
    var elements := Split(line, " ");
    if |elements| == 4 && elements[0] == "test" then Some(CaseReport(elements[1], ParseResult(elements[3])))
    else None
  }

  /** A line of four space-free fields starting with `test` reports its second field. */
  lemma ResultLineShape(caseName: String, middle: String, token: String)
    requires ' ' !in caseName && ' ' !in middle && ' ' !in token
    ensures ParseResultLine("test " + caseName + " " + middle + " " + token)
              == Some(CaseReport(caseName, ParseResult(token)))
  {
    var parts := ["test", caseName, middle, token];
    ContainsChar("test", ' ');
    ContainsChar(caseName, ' ');
    ContainsChar(middle, ' ');
    ContainsChar(token, ' ');
    assert parts[1..] == [caseName, middle, token];
    assert parts[1..][1..] == [middle, token];
    assert Join([middle, token], " ") == middle + " " + token;
    assert Join(parts[1..], " ") == caseName + " " + (middle + " " + token);
    assert Join(parts, " ") == "test " + caseName + " " + middle + " " + token;
    SplitJoin(parts, " ");
  }

  lemma ResultLineHasShape(line: String)
    requires ParseResultLine(line).Some?
    ensures multiset(line)[' '] == 3 && |line| >= 5 && line[..5] == "test "
  {
    var elements := Split(line, " ");
    SplitCount(line, ' ');
    JoinSplit(line, " ");
    assert line == "test" + " " + Join(elements[1..], " ");
  }

  lemma ShapeIsResultLine(line: String)
    requires multiset(line)[' '] == 3 && |line| >= 5 && line[..5] == "test "
    ensures ParseResultLine(line).Some?
  {
    SplitCount(line, ' ');
    ContainsChar("test", ' ');
    assert line == "test" + " " + line[5..];
    NoEarlyOccurrence("test", " ", line[5..]);
    SplitAfter("test", " ", line[5..]);
  }

  /** A line is a result line exactly when it has three spaces and starts with `test `. */
  lemma ResultLineIff(line: String)
    ensures ParseResultLine(line).Some? <==> multiset(line)[' '] == 3 && |line| >= 5 && line[..5] == "test "
  {
    if ParseResultLine(line).Some? {
      ResultLineHasShape(line);
    }
    if multiset(line)[' '] == 3 && |line| >= 5 && line[..5] == "test " {
      ShapeIsResultLine(line);
    }
  }

  /** The case a result line reports is the space-free field right after `test `. */
  lemma ResultLineName(line: String)
    requires ParseResultLine(line).Some?
    ensures var name := ParseResultLine(line).value.caseName;
            ' ' !in name && 6 + |name| <= |line| && line[..6 + |name|] == "test " + name + " "
  {
    var elements := Split(line, " ");
    JoinSplit(line, " ");
    SplitPartsFree(line, " ");
    ContainsChar(elements[1], ' ');
    assert elements[1..][1..] == elements[2..];
    assert line == "test " + elements[1] + " " + Join(elements[2..], " ");
  }

  /** The effect of one output line on the map of case results. */
  function ApplyLine(results: map<String, TestCaseResult>, line: String): map<String, TestCaseResult>
  {
    match ParseResultLine(line)
    case None => results
    case Some(report) => results[report.caseName := report.status]
  }

  /** The effect of a sequence of output lines, in arrival order. */
  function ApplyLines(results: map<String, TestCaseResult>, lines: seq<String>): map<String, TestCaseResult>
    decreases |lines|
  {
    if lines == [] then results else ApplyLines(ApplyLine(results, lines[0]), lines[1..])
  }

  /**
   * The status of the LAST line of `lines` that reports `caseName` — a
   * reference definition scanning backwards.
   */
  function LastReport(lines: seq<String>, caseName: String): Option<TestCaseResult>
    decreases |lines|
  {
    if lines == [] then None
    else
      var r := ParseResultLine(lines[|lines| - 1]);
      if r.Some? && r.value.caseName == caseName then Some(r.value.status)
      else LastReport(lines[..|lines| - 1], caseName)
  }

  /** Output delivered in two chunks has the effect of delivering it at once. */
  lemma {:induction false} ApplyLinesAppend(results: map<String, TestCaseResult>, a: seq<String>, b: seq<String>)
    ensures ApplyLines(results, a + b) == ApplyLines(ApplyLines(results, a), b)
    decreases |a|
  {
    if a != [] {
      assert (a + b)[0] == a[0];
      assert (a + b)[1..] == a[1..] + b;
      ApplyLinesAppend(ApplyLine(results, a[0]), a[1..], b);
    } else {
      assert a + b == b;
    }
  }

  /**
   * Last write wins: after the lines, a case reported by some line has the
   * status of the last such line; any other case keeps what it had.
   */
  lemma {:induction false} ApplyLinesLastWins(results: map<String, TestCaseResult>, lines: seq<String>, caseName: String)
    ensures var after := ApplyLines(results, lines);
            match LastReport(lines, caseName)
            case Some(status) => caseName in after && after[caseName] == status
            case None => (caseName in after <==> caseName in results)
                         && (caseName in results ==> after[caseName] == results[caseName])
    decreases |lines|
  {
    if lines != [] {
      var n := |lines| - 1;
      var init := lines[..n];
      assert lines == init + [lines[n]];
      ApplyLinesAppend(results, init, [lines[n]]);
      ApplyLinesLastWins(results, init, caseName);
      assert ApplyLines(ApplyLines(results, init), [lines[n]]) == ApplyLine(ApplyLines(results, init), lines[n]);
    }
  }

  /** Feeding the same output lines a second time changes nothing. */
  lemma ApplyLinesIdempotent(results: map<String, TestCaseResult>, lines: seq<String>)
    ensures ApplyLines(ApplyLines(results, lines), lines) == ApplyLines(results, lines)
  {
    var once := ApplyLines(results, lines);
    var twice := ApplyLines(once, lines);
    forall k ensures (k in twice <==> k in once) && (k in once ==> twice[k] == once[k]) {
      ApplyLinesLastWins(results, lines, k);
      ApplyLinesLastWins(once, lines, k);
    }
    assert twice.Keys == once.Keys;
  }
}
