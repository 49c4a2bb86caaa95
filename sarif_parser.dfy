/** `SarifParser.parse` (`src/parsers/sarif.ts`) over the parsed report: runs, each with
    a tool and results, each result with a message and locations; one finding per
    location. */
module SarifParser {
  import opened Wrappers
  import opened Editor
  import opened Paths
  import opened JsonTree
  import opened Findings

  /** One location of a result: the artifact path made full against the workspace, the
      1-based start and end lines made 0-based, the columns as written, the result's note
      and the run's tool name. */
  function LocationFinding(location: Json, note: string, tool: Option<string>, workspace: Option<string>)
    : (r: Result<ToolFinding>)
    ensures r.Ok? ==> r.value.text == note && r.value.tool == tool
  {
    var physical :- Get(location, "physicalLocation");
    var artifact :- Get(physical, "artifactLocation");
    var uri :- StringAt(artifact, "uri");
    var region :- Get(physical, "region");
    var startLine :- IntAt(region, "startLine");
    var startColumn :- IntAt(region, "startColumn");
    var endLine :- IntAt(region, "endLine");
    var endColumn :- IntAt(region, "endColumn");
    var range :- MakeRange(startLine - 1, startColumn, endLine - 1, endColumn);
    Ok(ToolFinding(RelativePathToFull(uri, None, workspace), range, note, tool))
  }

  /** `sarifRun.tool.driver.name` and `sarifRun.results`: reading `name` off a `null`
      driver throws; a name that is not text is carried as no tool. */
  function RunHeader(run: Json): Result<(Option<string>, seq<Json>)> {
    var tool :- Get(run, "tool");
    var driver :- Get(tool, "driver");
    var _ :- if driver.JNull? then Fault else Ok(driver);
    var name := StringAt(driver, "name");
    var results :- ArrayAt(run, "results");
    Ok((if name.Ok? then Some(name.value) else None, results))
  }

  /** `sarifResult.message.text` and `sarifResult.locations`. */
  function ResultHeader(result: Json): Result<(string, seq<Json>)> {
    var message :- Get(result, "message");
    var note :- StringAt(message, "text");
    var locations :- ArrayAt(result, "locations");
    Ok((note, locations))
  }

  /** The conversions one result contributes: one per location, or a single throw. */
  function ResultSteps(result: Json, tool: Option<string>, workspace: Option<string>): seq<Result<ToolFinding>> {
    match ResultHeader(result)
    case Fault => [Fault]
    case Ok((note, locations)) => Steps(locations, l => LocationFinding(l, note, tool, workspace))
  }

  function ResultParts(results: seq<Json>, tool: Option<string>, workspace: Option<string>)
    : (parts: seq<seq<Result<ToolFinding>>>)
    ensures |parts| == |results|
    ensures forall i :: 0 <= i < |results| ==> parts[i] == ResultSteps(results[i], tool, workspace)
  {
    seq(|results|, i requires 0 <= i < |results| => ResultSteps(results[i], tool, workspace))
  }

  /** The conversions of a run's results in turn. */
  function ResultsSteps(results: seq<Json>, tool: Option<string>, workspace: Option<string>): seq<Result<ToolFinding>> {
    Flatten(ResultParts(results, tool, workspace), |results|)
  }

  /** The conversions one run contributes: those of its results, or a single throw. */
  function RunSteps(run: Json, workspace: Option<string>): seq<Result<ToolFinding>> {
    var header := RunHeader(run);
    if header.Fault? then [Fault] else ResultsSteps(header.value.1, header.value.0, workspace)
  }

  function RunParts(runs: seq<Json>, workspace: Option<string>): (parts: seq<seq<Result<ToolFinding>>>)
    ensures |parts| == |runs|
    ensures forall i :: 0 <= i < |runs| ==> parts[i] == RunSteps(runs[i], workspace)
  {
    seq(|runs|, i requires 0 <= i < |runs| => RunSteps(runs[i], workspace))
  }

  /** The conversions of the runs in turn, up to the first throw. */
  function RunsFindings(runs: seq<Json>, workspace: Option<string>): seq<ToolFinding> {
    OkPrefix(Flatten(RunParts(runs, workspace), |runs|))
  }

  /** The findings `parse` returns; nothing when `runs` is not a list. */
  function SarifFindings(report: Json, workspace: Option<string>): seq<ToolFinding> {
    match ArrayAt(report, "runs")
    case Fault => []
    case Ok(runs) => RunsFindings(runs, workspace)
  }

  /** The innermost callback: push a finding per location until one throws. */
  method ParseResult(result: Json, tool: Option<string>, workspace: Option<string>)
    returns (more: seq<ToolFinding>, complete: bool)
    ensures more == OkPrefix(ResultSteps(result, tool, workspace))
    ensures complete == AllOk(ResultSteps(result, tool, workspace))
  {
    var header := ResultHeader(result);
    if header.Fault? {
      assert ResultSteps(result, tool, workspace)[0].Fault?;
      return [], false;
    }
    var (note, locations) := header.value;
    more, complete := CollectUntilFault(locations, l => LocationFinding(l, note, tool, workspace));
  }

  /** The loop over a run's results, each in turn until one throws. */
  method ParseResults(results: seq<Json>, tool: Option<string>, workspace: Option<string>)
    returns (more: seq<ToolFinding>, complete: bool)
    ensures more == OkPrefix(ResultsSteps(results, tool, workspace))
    ensures complete == AllOk(ResultsSteps(results, tool, workspace))
  {
    ghost var parts := ResultParts(results, tool, workspace);
    assert ResultsSteps(results, tool, workspace) == Flatten(parts, |results|);
    more := [];
    var i := 0;
    while i < |results|
      invariant 0 <= i <= |results|
      invariant AllOk(Flatten(parts, i)) && more == OkPrefix(Flatten(parts, i))
    {
      var found, done := ParseResult(results[i], tool, workspace);
      OkPrefixFlattenStep(parts, i);
      more := more + found;
      if !done {
        return more, false;
      }
      i := i + 1;
    }
    complete := true;
  }

  /** The callback for one run: read the tool name, then the results. */
  method ParseRun(run: Json, workspace: Option<string>) returns (more: seq<ToolFinding>, complete: bool)
    ensures more == OkPrefix(RunSteps(run, workspace))
    ensures complete == AllOk(RunSteps(run, workspace))
  {
    var header := RunHeader(run);
    if header.Fault? {
      assert RunSteps(run, workspace)[0].Fault?;
      return [], false;
    }
    more, complete := ParseResults(header.value.1, header.value.0, workspace);
  }

  /** `parse`: each run in turn; a throw anywhere ends all three loops and keeps what was
      pushed. */
  method ParseSarif(report: Json, workspace: Option<string>) returns (findings: seq<ToolFinding>)
    ensures findings == SarifFindings(report, workspace)
  {
    findings := [];
    var runs := ArrayAt(report, "runs");
    if runs.Fault? {
      return;
    }
    ghost var parts := RunParts(runs.value, workspace);
    var i := 0;
    while i < |runs.value|
      invariant 0 <= i <= |runs.value|
      invariant AllOk(Flatten(parts, i)) && findings == OkPrefix(Flatten(parts, i))
    {
      var more, complete := ParseRun(runs.value[i], workspace);
      OkPrefixFlattenStep(parts, i);
      findings := findings + more;
      if !complete {
        return;
      }
      i := i + 1;
    }
  }

  /** A location as SARIF writes it. */
  function SarifLocation(uri: string, startLine: int, startColumn: int, endLine: int, endColumn: int): Json {
    JObj(map["physicalLocation" := JObj(map[
      "artifactLocation" := JObj(map["uri" := JStr(uri)]),
      "region" := JObj(map["startLine" := JNum(startLine), "startColumn" := JNum(startColumn),
                           "endLine" := JNum(endLine), "endColumn" := JNum(endColumn)])])])
  }

  /** A location converts exactly when its lines are 1 or more and its columns 0 or more;
      the lines lose one, the columns are kept. */
  lemma LocationConverts(uri: string, startLine: int, startColumn: int, endLine: int, endColumn: int,
                         note: string, tool: Option<string>, workspace: Option<string>)
    ensures LocationFinding(SarifLocation(uri, startLine, startColumn, endLine, endColumn), note, tool, workspace).Ok?
            <==> startLine >= 1 && startColumn >= 0 && endLine >= 1 && endColumn >= 0
    ensures startLine >= 1 && startColumn >= 0 && endLine >= 1 && endColumn >= 0 ==>
              LocationFinding(SarifLocation(uri, startLine, startColumn, endLine, endColumn), note, tool, workspace)
              == Ok(ToolFinding(RelativePathToFull(uri, None, workspace),
                                Range(Position(startLine - 1, startColumn), Position(endLine - 1, endColumn)),
                                note, tool))
  {
    var physical := SarifLocation(uri, startLine, startColumn, endLine, endColumn).fields["physicalLocation"];
    var region := physical.fields["region"];
    assert StringAt(physical.fields["artifactLocation"], "uri") == Ok(uri);
    assert IntAt(region, "startLine") == Ok(startLine) && IntAt(region, "startColumn") == Ok(startColumn);
    assert IntAt(region, "endLine") == Ok(endLine) && IntAt(region, "endColumn") == Ok(endColumn);
  }

  /** A run whose `tool.driver` is `null` throws at the tool name, before any result is
      read, so it contributes a single throw, which ends the whole parse. */
  lemma NullDriverThrows(run: Json, workspace: Option<string>)
    requires Member(run, "tool").Some? && Member(run.fields["tool"], "driver") == Some(JNull)
    ensures RunHeader(run).Fault?
    ensures RunSteps(run, workspace) == [Fault]
    ensures RunsFindings([run], workspace) == []
  {
    var parts := RunParts([run], workspace);
    assert parts[0] == [Fault];
    assert Flatten(parts, 1) == Flatten(parts, 0) + parts[0];
  }

  /** Every finding of a result carries the result's message and the run's tool. */
  lemma ResultSharesNote(result: Json, tool: Option<string>, workspace: Option<string>)
    requires ResultHeader(result).Ok?
    ensures var note := ResultHeader(result).value.0;
            forall f :: f in OkPrefix(ResultSteps(result, tool, workspace)) ==> f.text == note && f.tool == tool
  {
    var (note, locations) := ResultHeader(result).value;
    var found := OkPrefix(ResultSteps(result, tool, workspace));
    forall f | f in found ensures f.text == note && f.tool == tool {
      var i :| 0 <= i < |found| && found[i] == f;
      assert LocationFinding(locations[i], note, tool, workspace) == Ok(f);
    }
  }

  /** Runs are read in order: the findings of a list of runs are those of its first runs,
      followed by those of the rest when every earlier run converted. */
  lemma {:induction false} SarifRunsAppend(a: seq<Json>, b: seq<Json>, workspace: Option<string>)
    ensures var first := Flatten(RunParts(a, workspace), |a|);
            RunsFindings(a + b, workspace)
            == if AllOk(first) then RunsFindings(a, workspace) + RunsFindings(b, workspace)
               else RunsFindings(a, workspace)
  {
    var pa, pb := RunParts(a, workspace), RunParts(b, workspace);
    var p := RunParts(a + b, workspace);
    forall i | 0 <= i < |p| ensures p[i] == (pa + pb)[i] {
      if i < |a| { assert (a + b)[i] == a[i]; } else { assert (a + b)[i] == b[i - |a|]; }
    }
    assert p == pa + pb;
    OkPrefixFlattenAppend(pa, pb);
  }

  /** Results are read in order within a run: its findings are those of its first
      results, followed by those of the rest when every earlier result converted. */
  lemma {:induction false} RunResultsAppend(a: seq<Json>, b: seq<Json>, tool: Option<string>, workspace: Option<string>)
    ensures var first := ResultsSteps(a, tool, workspace);
            OkPrefix(ResultsSteps(a + b, tool, workspace))
            == if AllOk(first) then OkPrefix(first) + OkPrefix(ResultsSteps(b, tool, workspace))
               else OkPrefix(first)
  {
    var pa, pb := ResultParts(a, tool, workspace), ResultParts(b, tool, workspace);
    var p := ResultParts(a + b, tool, workspace);
    forall i | 0 <= i < |p| ensures p[i] == (pa + pb)[i] {
      if i < |a| { assert (a + b)[i] == a[i]; } else { assert (a + b)[i] == b[i - |a|]; }
    }
    assert p == pa + pb;
    OkPrefixFlattenAppend(pa, pb);
  }
}
