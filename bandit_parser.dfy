/** `BanditParser.parse` (`src/parsers/bandit.ts`) over the parsed report. */
module BanditParser {
  import opened Wrappers
  import opened Editor
  import opened Paths
  import opened JsonTree
  import opened Findings

  /** One entry of `results`: the file made full against the workspace, lines
      `line_range[0]` to `line_range[1]` (or the first line again when the second is
      missing or falsy) made 0-based, columns 0, the issue text, tool `bandit`. */
  function BanditFinding(entry: Json, workspace: Option<string>): (r: Result<ToolFinding>)
    ensures r.Ok? ==> r.value.tool == Some("bandit") && StringAt(entry, "issue_text") == Ok(r.value.text)
    ensures r.Ok? ==> r.value.range.start.character == 0 && r.value.range.end.character == 0
  {
    var file :- StringAt(entry, "filename");
    var lineRange :- Get(entry, "line_range");
    var first :- AsInt(Element(lineRange, 0));
    var last :- if Truthy(Element(lineRange, 1)) then AsInt(Element(lineRange, 1)) else Ok(first);
    var range :- MakeRange(first - 1, 0, last - 1, 0);
    var text :- StringAt(entry, "issue_text");
    Ok(ToolFinding(RelativePathToFull(file, None, workspace), range, text, Some("bandit")))
  }

  /** The findings `parse` returns: one per entry of `results` in order, up to the first
      entry that throws; nothing when `results` is not a list. */
  function BanditFindings(report: Json, workspace: Option<string>): (r: seq<ToolFinding>)
    ensures ArrayAt(report, "results").Fault? ==> r == []
    ensures ArrayAt(report, "results").Ok? ==>
              var entries := ArrayAt(report, "results").value;
              |r| <= |entries|
              && (forall i :: 0 <= i < |r| ==> BanditFinding(entries[i], workspace) == Ok(r[i]))
              && (|r| < |entries| ==> BanditFinding(entries[|r|], workspace).Fault?)
  {
    match ArrayAt(report, "results")
    case Fault => []
    case Ok(entries) => OkPrefix(Steps(entries, e => BanditFinding(e, workspace)))
  }

  /** `parse`: push a finding per entry; a throw ends the loop and keeps what was pushed. */
  method ParseBandit(report: Json, workspace: Option<string>) returns (findings: seq<ToolFinding>)
    ensures findings == BanditFindings(report, workspace)
  {
    findings := [];
    var entries := ArrayAt(report, "results");
    if entries.Ok? {
      var complete;
      findings, complete := CollectUntilFault(entries.value, e => BanditFinding(e, workspace));
    }
  }

  /** A results entry as Bandit writes it. */
  function BanditEntry(file: string, lines: seq<int>, text: string): Json {
    JObj(map["filename" := JStr(file),
             "line_range" := JArr(seq(|lines|, i requires 0 <= i < |lines| => JNum(lines[i]))),
             "issue_text" := JStr(text)])
  }

  /** The last line a line list names: the second entry unless it is missing or 0. */
  function LastLine(lines: seq<int>): int
    requires |lines| >= 1
  {
    if |lines| > 1 && lines[1] != 0 then lines[1] else lines[0]
  }

  /** A well-formed entry with 1-based lines becomes a finding with those lines less one. */
  lemma BanditEntryConverts(file: string, lines: seq<int>, text: string, workspace: Option<string>)
    requires |lines| >= 1 && lines[0] >= 1 && LastLine(lines) >= 1
    ensures BanditFinding(BanditEntry(file, lines, text), workspace)
            == Ok(ToolFinding(RelativePathToFull(file, None, workspace),
                              Range(Position(lines[0] - 1, 0), Position(LastLine(lines) - 1, 0)),
                              text, Some("bandit")))
  {
    var lr := BanditEntry(file, lines, text).fields["line_range"];
    assert Element(lr, 0) == Some(JNum(lines[0]));
    if |lines| > 1 {
      assert Element(lr, 1) == Some(JNum(lines[1]));
    }
  }

  /** An entry whose first line is 0 or below throws, so `parse` stops there. */
  lemma BanditLineZeroThrows(file: string, lines: seq<int>, text: string, workspace: Option<string>)
    requires |lines| >= 1 && lines[0] < 1
    ensures BanditFinding(BanditEntry(file, lines, text), workspace).Fault?
  {
    var lr := BanditEntry(file, lines, text).fields["line_range"];
    assert Element(lr, 0) == Some(JNum(lines[0]));
  }

  /** When every entry converts, `parse` returns one finding per entry, in order. */
  lemma BanditOnePerEntry(report: Json, workspace: Option<string>)
    requires ArrayAt(report, "results").Ok?
    requires forall e :: e in ArrayAt(report, "results").value ==> BanditFinding(e, workspace).Ok?
    ensures var entries := ArrayAt(report, "results").value;
            |BanditFindings(report, workspace)| == |entries|
            && forall i :: 0 <= i < |entries| ==> Ok(BanditFindings(report, workspace)[i]) == BanditFinding(entries[i], workspace)
  {
    var entries := ArrayAt(report, "results").value;
    assert AllOk(Steps(entries, e => BanditFinding(e, workspace))) by {
      forall i | 0 <= i < |entries| ensures BanditFinding(entries[i], workspace).Ok? {
        assert entries[i] in entries;
      }
    }
  }
}
