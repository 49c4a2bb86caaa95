/** The Markdown export of notes (`src/webviews/export-notes/exportNotesWebview.ts`): the
    status filter over the note map, the text of a note's comments, and the heading of
    its code snippet. The snippet text read from the editor and the webview's messages are
    parameters. */
module NotesExport {
  import opened Wrappers
  import opened Editor
  import opened Text
  import opened Paths
  import opened OrderedMap
  import opened Notes
  import opened NoteHelpers

  /** The check boxes of the export view. */
  datatype StatusSelection = StatusSelection(vulnerable: bool, notVulnerable: bool, todo: bool, noStatus: bool)

  /** The order options of the export view. */
  datatype ExportOptions = ExportOptions(includeCodeSnippet: bool, includeReplies: bool, includeAuthors: bool)

  /** The filter of `exportNotes` on the text of a note's first comment. */
  predicate Selects(sel: StatusSelection, first: string) {
    (sel.vulnerable && StartsWith(first, "[Vulnerable] "))
    || (sel.notVulnerable && StartsWith(first, "[Not Vulnerable] "))
    || (sel.todo && StartsWith(first, "[TODO] "))
    || sel.noStatus
  }

  /** The check box that stands for a status. */
  function Checked(sel: StatusSelection, s: NoteStatus): bool {
    match s
    case Vulnerable => sel.vulnerable
    case NotVulnerable => sel.notVulnerable
    case ToDo => sel.todo
  }

  /** A note whose first comment carries the prefix `updateNoteStatus` writes is selected
      exactly when its status's box or "no status" is checked: no prefix starts with
      another. */
  lemma SelectsStatus(sel: StatusSelection, s: NoteStatus, text: string)
    ensures Selects(sel, StatusPrefix(s) + text) <==> Checked(sel, s) || sel.noStatus
  {
    var b := StatusPrefix(s) + text;
    match s
    case Vulnerable =>
      assert b[..13] == "[Vulnerable] ";
      assert b[1] == 'V';
    case NotVulnerable =>
      assert b[..17] == "[Not Vulnerable] ";
      assert b[1] == 'N';
    case ToDo =>
      assert b[..7] == "[TODO] ";
      assert b[1] == 'T';
  }

  /** With "no status" checked every note is selected. */
  lemma NoStatusSelectsAll(sel: StatusSelection, first: string)
    requires sel.noStatus
    ensures Selects(sel, first)
  {
  }

  /** What the export reads of a comment and of a note. */
  datatype CommentView = CommentView(body: string, author: string)
  datatype NoteView = NoteView(uri: string, range: Range, comments: seq<CommentView>)

  function CommentViews(cs: seq<NoteComment>): (r: seq<CommentView>)
    reads cs
    ensures |r| == |cs| && forall i :: 0 <= i < |cs| ==> r[i] == CommentView(cs[i].body, cs[i].author)
  {
    if cs == [] then [] else CommentViews(cs[..|cs| - 1]) + [CommentView(cs[|cs| - 1].body, cs[|cs| - 1].author)]
  }

  function ViewOf(t: NoteThread): NoteView
    reads t, t.comments
  {
    NoteView(t.uri, t.range, CommentViews(t.comments))
  }

  /** The notes among the first `n` that pass the filter, in map order; a note without
      comments makes the filter throw. */
  function Picked(vs: seq<NoteView>, sel: StatusSelection, n: nat): (r: Result<seq<NoteView>>)
    requires n <= |vs|
    ensures r.Fault? <==> exists i :: 0 <= i < n && vs[i].comments == []
    ensures r.Ok? ==> |r.value| <= n
    ensures r.Ok? ==> forall j :: 0 <= j < |r.value| ==>
                        r.value[j].comments != [] && Selects(sel, r.value[j].comments[0].body)
  {
    if n == 0 then Ok([])
    else
      var v := vs[n - 1];
      match Picked(vs, sel, n - 1)
      case Fault => Fault
      case Ok(init) =>
        if v.comments == [] then Fault
        else if Selects(sel, v.comments[0].body) then Ok(init + [v])
        else Ok(init)
  }

  /** A note that passes the filter is picked, and the picked notes keep map order:
      picking after more notes only appends. */
  lemma {:induction false} PickedGrows(vs: seq<NoteView>, sel: StatusSelection, n: nat)
    requires n < |vs| && Picked(vs, sel, n + 1).Ok?
    ensures Picked(vs, sel, n).Ok?
    ensures var before, after := Picked(vs, sel, n).value, Picked(vs, sel, n + 1).value;
            after == if Selects(sel, vs[n].comments[0].body) then before + [vs[n]] else before
  {
  }

  /** `exportComment`: the body on its own line, after the bold author when there is one. */
  function ExportComment(body: string, author: Option<string>): string {
    if author.Some? && Truthy(author.value) then "\n**" + author.value + "** - " + body + "\n"
    else "\n" + body + "\n"
  }

  /** The comment's text starts and ends with a line break and ends with the body; it is
      two characters longer than the body exactly when no author is shown, and with an
      author it starts with the bold name. */
  lemma ExportCommentShape(body: string, author: Option<string>)
    ensures var r := ExportComment(body, author);
            |r| >= |body| + 2 && r[0] == '\n' && r[|r| - 1] == '\n'
            && r[|r| - 1 - |body|..|r| - 1] == body
            && (author.None? || author.value == "" ==> |r| == |body| + 2)
            && (author.Some? && author.value != "" ==>
                  |r| == |author.value| + |body| + 9 && r[1..3] == "**" && r[3..3 + |author.value|] == author.value)
  {
  }

  /** The author passed for a comment: its name with "include authors", else none. */
  function AuthorOf(c: CommentView, opts: ExportOptions): Option<string> {
    if opts.includeAuthors then Some(c.author) else None
  }

  /** The texts of the first `n` comments, in order. */
  function CommentsUpTo(cs: seq<CommentView>, opts: ExportOptions, n: nat): string
    requires 1 <= n <= |cs|
  {
    if n == 1 then ExportComment(cs[0].body, AuthorOf(cs[0], opts))
    else CommentsUpTo(cs, opts, n - 1) + ExportComment(cs[n - 1].body, AuthorOf(cs[n - 1], opts))
  }

  /** What `exportComments` returns: the first comment, the replies too when asked for,
      and the closing rule. */
  function CommentsText(cs: seq<CommentView>, opts: ExportOptions): string
    requires |cs| > 0
  {
    CommentsUpTo(cs, opts, if opts.includeReplies then |cs| else 1) + "\n-----\n"
  }

  /** The first comment always comes first and the rule always last; without replies
      nothing else is written. */
  lemma {:induction false} CommentsUpToStart(cs: seq<CommentView>, opts: ExportOptions, n: nat)
    requires 1 <= n <= |cs|
    ensures var first := ExportComment(cs[0].body, AuthorOf(cs[0], opts));
            |CommentsUpTo(cs, opts, n)| >= |first| && CommentsUpTo(cs, opts, n)[..|first|] == first
  {
    if n > 1 {
      CommentsUpToStart(cs, opts, n - 1);
      var first := ExportComment(cs[0].body, AuthorOf(cs[0], opts));
      var a, b := CommentsUpTo(cs, opts, n - 1), ExportComment(cs[n - 1].body, AuthorOf(cs[n - 1], opts));
      assert (a + b)[..|first|] == a[..|first|];
    }
  }

  lemma CommentsTextShape(cs: seq<CommentView>, opts: ExportOptions)
    requires |cs| > 0
    ensures var first := ExportComment(cs[0].body, AuthorOf(cs[0], opts));
            var out := CommentsText(cs, opts);
            |out| >= |first| + 7 && out[..|first|] == first && out[|out| - 7..] == "\n-----\n"
            && (!opts.includeReplies || |cs| == 1 ==> out == first + "\n-----\n")
  {
    var n := if opts.includeReplies then |cs| else 1;
    CommentsUpToStart(cs, opts, n);
  }

  /** `exportComments`: builds the text with `+=`, the replies one by one; a note without
      comments throws. */
  method ExportComments(note: NoteThread, opts: ExportOptions) returns (r: Result<string>)
    ensures r.Fault? <==> note.comments == []
    ensures r.Ok? ==> r.value == CommentsText(CommentViews(note.comments), opts)
  {
    if |note.comments| == 0 {
      return Fault;
    }
    var cs := CommentViews(note.comments);
    var output := ExportComment(cs[0].body, AuthorOf(cs[0], opts));
    if opts.includeReplies {
      var i := 1;
      while i < |cs|
        invariant 1 <= i <= |cs|
        invariant output == CommentsUpTo(cs, opts, i)
      {
        output := output + ExportComment(cs[i].body, AuthorOf(cs[i], opts));
        i := i + 1;
      }
    }
    output := output + "\n-----\n";
    r := Ok(output);
  }

  /** The line label of `exportCodeSnippet`: the 0-based start line, or `start-end`. */
  function LineLabel(range: Range): (r: string)
    ensures range.start.line == range.end.line ==> r == NatToString(range.start.line)
    ensures '-' in r <==> range.start.line != range.end.line
  {
    if range.start.line == range.end.line then NatToString(range.start.line)
    else
      var a, b := NatToString(range.start.line), NatToString(range.end.line);
      assert (a + "-" + b)[|a|] == '-';
      NatToString(range.start.line) + "-" + NatToString(range.end.line)
  }

  /** `exportCodeSnippet` after the document is read: the file path, the line label and
      the fenced snippet. */
  function CodeSnippet(uri: string, range: Range, workspace: Option<string>, snippet: string): string {
    "\nCode snippet `" + FullPathToRelative(uri, None, workspace) + ":" + LineLabel(range) + "`:\n\n```\n"
    + snippet + "\n```\n"
  }

  /** One selected note's part: its code snippet when asked for, then its comments.
      `snippetOf` stands for reading the note's lines from the editor. */
  function NoteText(v: NoteView, opts: ExportOptions, workspace: Option<string>,
                    snippetOf: (string, Range) -> string): string
    requires |v.comments| > 0
  {
    (if opts.includeCodeSnippet then CodeSnippet(v.uri, v.range, workspace, snippetOf(v.uri, v.range)) else "")
    + CommentsText(v.comments, opts)
  }

  /** The document: the parts of the first `n` selected notes, in order. */
  function NotesText(vs: seq<NoteView>, opts: ExportOptions, workspace: Option<string>,
                     snippetOf: (string, Range) -> string, n: nat): string
    requires n <= |vs| && forall i :: 0 <= i < |vs| ==> vs[i].comments != []
  {
    if n == 0 then ""
    else NotesText(vs, opts, workspace, snippetOf, n - 1) + NoteText(vs[n - 1], opts, workspace, snippetOf)
  }

  /** What `exportNotes` produces from the notes in map order: nothing when a note has no
      comments (the filter throws), no document when no note is selected or the format is
      not Markdown, else the selected notes' parts concatenated. */
  function Exported(vs: seq<NoteView>, sel: StatusSelection, opts: ExportOptions, format: string,
                    workspace: Option<string>, snippetOf: (string, Range) -> string): (r: Result<Option<string>>)
    ensures r.Fault? <==> exists i :: 0 <= i < |vs| && vs[i].comments == []
    ensures r == Ok(None) <==> Picked(vs, sel, |vs|) == Ok([]) || (Picked(vs, sel, |vs|).Ok? && format != "markdown")
  {
    match Picked(vs, sel, |vs|)
    case Fault => Fault
    case Ok(selected) =>
      if |selected| == 0 || format != "markdown" then Ok(None)
      else Ok(Some(NotesText(selected, opts, workspace, snippetOf, |selected|)))
  }

  /** The notes as the export reads them, one by one. */
  method ReadViews(ts: seq<NoteThread>) returns (vs: seq<NoteView>)
    ensures |vs| == |ts| && forall j :: 0 <= j < |ts| ==> vs[j] == ViewOf(ts[j])
  {
    vs := [];
    var k := 0;
    while k < |ts|
      invariant 0 <= k <= |ts| && |vs| == k
      invariant forall j :: 0 <= j < k ==> vs[j] == ViewOf(ts[j])
    {
      vs := vs + [NoteView(ts[k].uri, ts[k].range, CommentViews(ts[k].comments))];
      k := k + 1;
    }
  }

  /** One more selected note's part extends the document by exactly that part. */
  lemma NotesTextStep(vs: seq<NoteView>, opts: ExportOptions, workspace: Option<string>,
                      snippetOf: (string, Range) -> string, i: nat, done: string, part: string)
    requires i < |vs| && forall j :: 0 <= j < |vs| ==> vs[j].comments != []
    requires done == NotesText(vs, opts, workspace, snippetOf, i)
    requires part == NoteText(vs[i], opts, workspace, snippetOf)
    ensures done + part == NotesText(vs, opts, workspace, snippetOf, i + 1)
  {
  }

  /** The loop of `exportNotes` that appends the selected notes' parts one by one. */
  method AppendParts(selected: seq<NoteView>, opts: ExportOptions, workspace: Option<string>,
                     snippetOf: (string, Range) -> string) returns (output: string)
    requires forall i :: 0 <= i < |selected| ==> selected[i].comments != []
    ensures output == NotesText(selected, opts, workspace, snippetOf, |selected|)
  {
    output := "";
    var i := 0;
    while i < |selected|
      invariant 0 <= i <= |selected|
      invariant output == NotesText(selected, opts, workspace, snippetOf, i)
    {
      var part := NoteText(selected[i], opts, workspace, snippetOf);
      NotesTextStep(selected, opts, workspace, snippetOf, i, output, part);
      output := output + part;
      i := i + 1;
    }
  }

  /** `exportNotes` over the note map: the notes are read in map order, filtered, and the
      parts of the selected ones appended one by one. */
  method ExportNotes(sel: StatusSelection, opts: ExportOptions, format: string, noteMap: NoteMap,
                     workspace: Option<string>, snippetOf: (string, Range) -> string)
    returns (r: Result<Option<string>>, views: seq<NoteView>)
    requires noteMap.notes.Valid()
    ensures |views| == |noteMap.notes.keys|
    ensures forall i :: 0 <= i < |views| ==> views[i] == ViewOf(noteMap.notes.Values()[i])
    ensures r == Exported(views, sel, opts, format, workspace, snippetOf)
  {
    var vs := ReadViews(noteMap.notes.Values());
    views := vs;
    var picked := Picked(vs, sel, |vs|);
    if picked.Fault? {
      return Fault, views;
    }
    var selected := picked.value;
    if |selected| == 0 || format != "markdown" {
      return Ok(None), views;
    }
    var output := AppendParts(selected, opts, workspace, snippetOf);
    r := Ok(Some(output));
  }
}
