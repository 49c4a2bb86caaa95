/** `CheckovParser.parse` (`src/parsers/checkov.ts`) over the parsed report: a list of
    check types, each holding its failed checks. */
module CheckovParser {
  import opened Wrappers
  import opened Editor
  import opened JsonTree
  import opened Findings

  /** One failed check: the file behind the workspace prefix, `file_line_range[0]` to
      `file_line_range[1]` made 0-based, columns 0, the check name, no tool. */
  function CheckovFinding(check: Json, workspace: Option<string>): (r: Result<ToolFinding>)
    ensures r.Ok? ==> r.value.tool == None && StringAt(check, "check_name") == Ok(r.value.text)
    ensures r.Ok? ==> r.value.range.start.character == 0 && r.value.range.end.character == 0
  {
    var file :- StringAt(check, "file_path");
    var lineRange :- Get(check, "file_line_range");
    var first :- AsInt(Element(lineRange, 0));
    var last :- AsInt(Element(lineRange, 1));
    var range :- MakeRange(first - 1, 0, last - 1, 0);
    var name :- StringAt(check, "check_name");
    Ok(ToolFinding(WorkspacePrefix(workspace) + file, range, name, None))
  }

  /** `checkType.results.failed_checks`, which must be a list. */
  function FailedChecks(checkType: Json): Result<seq<Json>> {
    var results :- Get(checkType, "results");
    ArrayAt(results, "failed_checks")
  }

  /** The conversions one check type contributes: one per failed check, or a single
      throw when its failed checks cannot be reached. */
  function CheckTypeSteps(checkType: Json, workspace: Option<string>): seq<Result<ToolFinding>> {
    match FailedChecks(checkType)
    case Fault => [Fault]
    case Ok(checks) => Steps(checks, c => CheckovFinding(c, workspace))
  }

  function CheckTypeParts(checkTypes: seq<Json>, workspace: Option<string>): (parts: seq<seq<Result<ToolFinding>>>)
    ensures |parts| == |checkTypes|
    ensures forall i :: 0 <= i < |checkTypes| ==> parts[i] == CheckTypeSteps(checkTypes[i], workspace)
  {
    seq(|checkTypes|, i requires 0 <= i < |checkTypes| => CheckTypeSteps(checkTypes[i], workspace))
  }

  /** The findings `parse` returns: the conversions of every check type in turn, up to the
      first throw; nothing when the report is not a list. */
  function CheckovFindings(report: Json, workspace: Option<string>): seq<ToolFinding> {
    if report.JArr? then OkPrefix(Flatten(CheckTypeParts(report.items, workspace), |report.items|)) else []
  }

  /** The callback for one check type: push a finding per failed check until one throws. */
  method ParseCheckType(checkType: Json, workspace: Option<string>) returns (more: seq<ToolFinding>, complete: bool)
    ensures more == OkPrefix(CheckTypeSteps(checkType, workspace))
    ensures complete == AllOk(CheckTypeSteps(checkType, workspace))
  {
    var checks := FailedChecks(checkType);
    if checks.Fault? {
      assert CheckTypeSteps(checkType, workspace)[0].Fault?;
      return [], false;
    }
    more, complete := CollectUntilFault(checks.value, c => CheckovFinding(c, workspace));
  }

  /** `parse`: for each check type, push a finding per failed check; a throw ends both
      loops and keeps what was pushed. */
  method ParseCheckov(report: Json, workspace: Option<string>) returns (findings: seq<ToolFinding>)
    ensures findings == CheckovFindings(report, workspace)
  {
    findings := [];
    if !report.JArr? {
      return;
    }
    var checkTypes := report.items;
    ghost var parts := CheckTypeParts(checkTypes, workspace);
    var i := 0;
    while i < |checkTypes|
      invariant 0 <= i <= |checkTypes|
      invariant AllOk(Flatten(parts, i)) && findings == OkPrefix(Flatten(parts, i))
    {
      var more, complete := ParseCheckType(checkTypes[i], workspace);
      OkPrefixFlattenStep(parts, i);
      findings := findings + more;
      if !complete {
        return;
      }
      i := i + 1;
    }
  }

  /** A failed check as Checkov writes it. */
  function CheckovCheck(file: string, first: int, last: int, name: string): Json {
    JObj(map["file_path" := JStr(file), "file_line_range" := JArr([JNum(first), JNum(last)]),
             "check_name" := JStr(name)])
  }

  /** A failed check converts exactly when both lines are 1 or more, and then spans those
      lines less one in the file behind the workspace prefix. */
  lemma CheckovCheckConverts(file: string, first: int, last: int, name: string, workspace: Option<string>)
    ensures CheckovFinding(CheckovCheck(file, first, last, name), workspace).Ok? <==> first >= 1 && last >= 1
    ensures first >= 1 && last >= 1 ==>
              CheckovFinding(CheckovCheck(file, first, last, name), workspace)
              == Ok(ToolFinding(WorkspacePrefix(workspace) + file,
                                Range(Position(first - 1, 0), Position(last - 1, 0)), name, None))
  {
    var c := CheckovCheck(file, first, last, name);
    assert StringAt(c, "file_path") == Ok(file) && StringAt(c, "check_name") == Ok(name);
    assert Element(c.fields["file_line_range"], 0) == Some(JNum(first));
    assert Element(c.fields["file_line_range"], 1) == Some(JNum(last));
  }

  /** Check types are read in order: the findings of a report are those of its first
      check types, followed by those of the rest when every earlier one converted. */
  lemma {:induction false} CheckovAppend(a: seq<Json>, b: seq<Json>, workspace: Option<string>)
    ensures var first := Flatten(CheckTypeParts(a, workspace), |a|);
            CheckovFindings(JArr(a + b), workspace)
            == if AllOk(first) then CheckovFindings(JArr(a), workspace) + CheckovFindings(JArr(b), workspace)
               else CheckovFindings(JArr(a), workspace)
  {
    var pa, pb := CheckTypeParts(a, workspace), CheckTypeParts(b, workspace);
    var p := CheckTypeParts(a + b, workspace);
    forall i | 0 <= i < |p| ensures p[i] == (pa + pb)[i] {
      if i < |a| { assert (a + b)[i] == a[i]; } else { assert (a + b)[i] == b[i - |a|]; }
    }
    assert p == pa + pb;
    OkPrefixFlattenAppend(pa, pb);
  }
}
