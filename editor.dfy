/** The editor values the extension passes around: positions and ranges (zero-based
    lines and characters), comment modes, and the platform path separator. */
module Editor {
  import opened Wrappers

  datatype Position = Position(line: nat, character: nat)

  datatype Range = Range(start: Position, end: Position)

  /** `new vscode.Range(startLine, startCharacter, endLine, endCharacter)`. The editor
      rejects a negative line or character by throwing. */
  function MakeRange(startLine: int, startCharacter: int, endLine: int, endCharacter: int): (r: Result<Range>)
    ensures r.Ok? <==> startLine >= 0 && startCharacter >= 0 && endLine >= 0 && endCharacter >= 0
    ensures r.Ok? ==> r.value.start.line == startLine && r.value.start.character == startCharacter
                      && r.value.end.line == endLine && r.value.end.character == endCharacter
  {
    if startLine >= 0 && startCharacter >= 0 && endLine >= 0 && endCharacter >= 0 then
      Ok(Range(Position(startLine, startCharacter), Position(endLine, endCharacter)))
    else Fault
  }

  /** `vscode.CommentMode`. */
  datatype CommentMode = Preview | Editing

  /** The host operating system, as `isWindows()` and `path.sep` see it. */
  datatype Platform = Posix | Windows {
    function Sep(): char {
      if Windows? then '\\' else '/'
    }
  }
}
