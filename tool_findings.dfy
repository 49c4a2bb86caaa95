/** What the report adapters produce: a tool finding (`src/models/toolFinding.ts`) or a
    Semgrep result (`src/parsers/result.ts`), each a file, a range and a text. The file is
    the path `vscode.Uri.file` is given. */
module Findings {
  import opened Wrappers
  import opened Editor

  /** `tool` is `None` where the adapter passes no tool argument. */
  datatype ToolFinding = ToolFinding(uri: string, range: Range, text: string, tool: Option<string>)

  datatype ReportResult = ReportResult(uri: string, range: Range, text: string)

  /** The prefix Brakeman and Checkov findings get: the first workspace folder and a
      slash when a workspace is open, nothing otherwise. */
  function WorkspacePrefix(workspace: Option<string>): (p: string)
    ensures workspace.None? ==> p == ""
    ensures workspace.Some? ==> |p| == |workspace.value| + 1 && p[..|workspace.value|] == workspace.value
                                && p[|workspace.value|] == '/'
  {
    if workspace.Some? then workspace.value + "/" else ""
  }
}
