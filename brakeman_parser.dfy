/** `BrakemanParser.parse` (`src/parsers/brakeman.ts`) over the parsed report. */
module BrakemanParser {
  import opened Wrappers
  import opened Editor
  import opened JsonTree
  import opened Findings

  /** One entry of `warnings`: the file behind the workspace prefix, the 1-based `line` made
      0-based at both ends, columns 0, the text `<warning_type>: <message>`, no tool. */
  function BrakemanFinding(entry: Json, workspace: Option<string>): (r: Result<ToolFinding>)
    ensures r.Ok? ==> r.value.tool == None
    ensures r.Ok? ==> IntAt(entry, "line") == Ok(r.value.range.start.line + 1)
                      && r.value.range.end == r.value.range.start && r.value.range.start.character == 0
  {
    var file :- StringAt(entry, "file");
    var line :- IntAt(entry, "line");
    var range :- MakeRange(line - 1, 0, line - 1, 0);
    var warningType :- StringAt(entry, "warning_type");
    var message :- StringAt(entry, "message");
    Ok(ToolFinding(WorkspacePrefix(workspace) + file, range, warningType + ": " + message, None))
  }

  /** The findings `parse` returns: one per entry of `warnings` in order, up to the first
      entry that throws; nothing when `warnings` is not a list. */
  function BrakemanFindings(report: Json, workspace: Option<string>): (r: seq<ToolFinding>)
    ensures ArrayAt(report, "warnings").Fault? ==> r == []
    ensures ArrayAt(report, "warnings").Ok? ==>
              var entries := ArrayAt(report, "warnings").value;
              |r| <= |entries|
              && (forall i :: 0 <= i < |r| ==> BrakemanFinding(entries[i], workspace) == Ok(r[i]))
              && (|r| < |entries| ==> BrakemanFinding(entries[|r|], workspace).Fault?)
  {
    match ArrayAt(report, "warnings")
    case Fault => []
    case Ok(entries) => OkPrefix(Steps(entries, e => BrakemanFinding(e, workspace)))
  }

  /** `parse`: push a finding per entry; a throw ends the loop and keeps what was pushed. */
  method ParseBrakeman(report: Json, workspace: Option<string>) returns (findings: seq<ToolFinding>)
    ensures findings == BrakemanFindings(report, workspace)
  {
    findings := [];
    var entries := ArrayAt(report, "warnings");
    if entries.Ok? {
      var complete;
      findings, complete := CollectUntilFault(entries.value, e => BrakemanFinding(e, workspace));
    }
  }

  /** A `warnings` entry as Brakeman writes it. */
  function BrakemanEntry(file: string, line: int, warningType: string, message: string): Json {
    JObj(map["file" := JStr(file), "line" := JNum(line), "warning_type" := JStr(warningType),
             "message" := JStr(message)])
  }

  /** An entry converts exactly when its line is 1 or more; the file is the workspace
      folder, a slash and the file when a workspace is open, the file alone otherwise. */
  lemma BrakemanEntryConverts(file: string, line: int, warningType: string, message: string, workspace: Option<string>)
    ensures BrakemanFinding(BrakemanEntry(file, line, warningType, message), workspace).Ok? <==> line >= 1
    ensures line >= 1 ==>
              BrakemanFinding(BrakemanEntry(file, line, warningType, message), workspace)
              == Ok(ToolFinding(if workspace.Some? then workspace.value + "/" + file else file,
                                Range(Position(line - 1, 0), Position(line - 1, 0)),
                                warningType + ": " + message, None))
  {
    var e := BrakemanEntry(file, line, warningType, message);
    assert StringAt(e, "file") == Ok(file) && IntAt(e, "line") == Ok(line);
    assert StringAt(e, "warning_type") == Ok(warningType) && StringAt(e, "message") == Ok(message);
    assert WorkspacePrefix(workspace) + file == if workspace.Some? then workspace.value + "/" + file else file;
  }

  /** When every entry converts, `parse` returns one finding per entry, in order. */
  lemma BrakemanOnePerEntry(report: Json, workspace: Option<string>)
    requires ArrayAt(report, "warnings").Ok?
    requires forall e :: e in ArrayAt(report, "warnings").value ==> BrakemanFinding(e, workspace).Ok?
    ensures var entries := ArrayAt(report, "warnings").value;
            |BrakemanFindings(report, workspace)| == |entries|
            && forall i :: 0 <= i < |entries| ==> Ok(BrakemanFindings(report, workspace)[i]) == BrakemanFinding(entries[i], workspace)
  {
    var entries := ArrayAt(report, "warnings").value;
    assert AllOk(Steps(entries, e => BrakemanFinding(e, workspace))) by {
      forall i | 0 <= i < |entries| ensures BrakemanFinding(entries[i], workspace).Ok? {
        assert entries[i] in entries;
      }
    }
  }
}
