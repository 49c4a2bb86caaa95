/** `SemgrepParser.parse` (`src/parsers/semgrep.ts`) over the parsed report. There is no
    `try` here: an entry that throws makes the whole call throw. */
module SemgrepParser {
  import opened Wrappers
  import opened Editor
  import opened JsonTree
  import opened Findings

  /** One entry of `results`: the path behind the first workspace folder and a slash, the
      1-based `start.line` and `end.line` made 0-based, columns 0, the message under
      `extra`. Without a workspace `workspaceFolders[0]` throws. */
  function SemgrepResult(entry: Json, workspace: Option<string>): (r: Result<ReportResult>)
    ensures workspace.None? ==> r.Fault?
    ensures r.Ok? ==> r.value.range.start.character == 0 && r.value.range.end.character == 0
  {
    var root :- if workspace.Some? then Ok(workspace.value) else Fault;
    var path :- StringAt(entry, "path");
    var start :- Get(entry, "start");
    var startLine :- IntAt(start, "line");
    var end :- Get(entry, "end");
    var endLine :- IntAt(end, "line");
    var range :- MakeRange(startLine - 1, 0, endLine - 1, 0);
    var extra :- Get(entry, "extra");
    var message :- StringAt(extra, "message");
    Ok(ReportResult(root + "/" + path, range, message))
  }

  /** What `parse` returns: one result per entry of `results`, in order, or a throw when
      `results` is not a list or any entry throws. */
  function SemgrepResults(report: Json, workspace: Option<string>): (r: Result<seq<ReportResult>>)
    ensures r.Ok? <==> ArrayAt(report, "results").Ok?
                       && forall e :: e in ArrayAt(report, "results").value ==> SemgrepResult(e, workspace).Ok?
    ensures r.Ok? ==> var entries := ArrayAt(report, "results").value;
                      |r.value| == |entries|
                      && forall i :: 0 <= i < |entries| ==> SemgrepResult(entries[i], workspace) == Ok(r.value[i])
  {
    var entries :- ArrayAt(report, "results");
    var steps := Steps(entries, e => SemgrepResult(e, workspace));
    assert AllOk(steps) <==> forall e :: e in entries ==> SemgrepResult(e, workspace).Ok? by {
      if !AllOk(steps) {
        var i :| 0 <= i < |steps| && steps[i].Fault?;
        assert entries[i] in entries;
      }
    }
    if AllOk(steps) then Ok(OkPrefix(steps)) else Fault
  }

  /** `parse`: push a result per entry; a throw leaves the call. */
  method ParseSemgrep(report: Json, workspace: Option<string>) returns (r: Result<seq<ReportResult>>)
    ensures r == SemgrepResults(report, workspace)
  {
    var entries := ArrayAt(report, "results");
    if entries.Fault? {
      return Fault;
    }
    var results, complete := CollectUntilFault(entries.value, e => SemgrepResult(e, workspace));
    if !complete {
      return Fault;
    }
    r := Ok(results);
  }

  /** A `results` entry as Semgrep writes it. */
  function SemgrepEntry(path: string, startLine: int, endLine: int, message: string): Json {
    JObj(map["path" := JStr(path), "start" := JObj(map["line" := JNum(startLine)]),
             "end" := JObj(map["line" := JNum(endLine)]),
             "extra" := JObj(map["message" := JStr(message)])])
  }

  /** With a workspace open, an entry converts exactly when both lines are 1 or more, and
      then spans those lines less one in the file under the workspace folder. */
  lemma SemgrepEntryConverts(path: string, startLine: int, endLine: int, message: string, root: string)
    ensures SemgrepResult(SemgrepEntry(path, startLine, endLine, message), Some(root)).Ok?
            <==> startLine >= 1 && endLine >= 1
    ensures startLine >= 1 && endLine >= 1 ==>
              SemgrepResult(SemgrepEntry(path, startLine, endLine, message), Some(root))
              == Ok(ReportResult(root + "/" + path, Range(Position(startLine - 1, 0), Position(endLine - 1, 0)), message))
  {
    var e := SemgrepEntry(path, startLine, endLine, message);
    assert StringAt(e, "path") == Ok(path);
    assert IntAt(e.fields["start"], "line") == Ok(startLine) && IntAt(e.fields["end"], "line") == Ok(endLine);
    assert StringAt(e.fields["extra"], "message") == Ok(message);
  }

  /** With no workspace open, a report with at least one entry throws; an empty one does
      not reach `workspaceFolders[0]`. */
  lemma SemgrepNeedsWorkspace(report: Json)
    requires ArrayAt(report, "results").Ok?
    ensures SemgrepResults(report, None).Ok? <==> ArrayAt(report, "results").value == []
  {
    var entries := ArrayAt(report, "results").value;
    if entries != [] {
      assert entries[0] in entries;
    }
  }
}
