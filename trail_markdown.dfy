/** The Markdown export of a trail (`src/breadcrumbs/export.ts`): a headline, the
    description, a summary and one section per crumb, and the default file name derived
    from the trail's name. Clock readings and the locale's date format are parameters;
    the save dialog's answer is given as a value and the file write as the result. */
module TrailMarkdown {
  import opened Wrappers
  import opened Text
  import opened Paths
  import opened Format
  import opened TrailStore
  import JsonTree

  /** `headline(level, text)`: `level` hashes, a space, the text. */
  function Headline(level: nat, text: string): (r: string)
    ensures |r| == level + 1 + |text|
    ensures r[..level] == Repeat('#', level) && r[level] == ' ' && r[level + 1..] == text
  {
    Repeat('#', level) + " " + text
  }

  /** `escapeCodeBlock`: every "```" replaced by the text of the JavaScript literal
      '\`\`\`', which is "```" again. */
  function EscapeCodeBlock(value: string): string {
    ReplaceAll(value, "```", "```")
  }

  /** The escape leaves a snippet unchanged. */
  lemma EscapeCodeBlockIdentity(value: string)
    ensures EscapeCodeBlock(value) == value
  {
    ReplaceAllBySelf(value, "```");
  }

  /** The relative path of a crumb as the export shows it. */
  function CrumbPath(c: Crumb, workspace: Option<string>): string {
    FullPathToRelative(c.uri, None, workspace)
  }

  /** `new Set(crumbs.map(crumb => fullPathToRelative(crumb.uri.fsPath)))`. */
  function Files(crumbs: seq<Crumb>, workspace: Option<string>): (r: set<string>)
    ensures forall i :: 0 <= i < |crumbs| ==> CrumbPath(crumbs[i], workspace) in r
    ensures forall p :: p in r ==> exists i :: 0 <= i < |crumbs| && CrumbPath(crumbs[i], workspace) == p
  {
    if crumbs == [] then {}
    else
      var init := crumbs[..|crumbs| - 1];
      var f := Files(init, workspace);
      assert forall i :: 0 <= i < |init| ==> init[i] == crumbs[i];
      f + {CrumbPath(crumbs[|crumbs| - 1], workspace)}
  }

  /** A non-empty trail touches at least one and at most as many files as it has crumbs. */
  lemma {:induction false} FilesBounds(crumbs: seq<Crumb>, workspace: Option<string>)
    ensures |Files(crumbs, workspace)| <= |crumbs|
    ensures |crumbs| > 0 ==> |Files(crumbs, workspace)| >= 1
  {
    if crumbs != [] {
      FilesBounds(crumbs[..|crumbs| - 1], workspace);
    }
  }

  /** `formatDate` of a crumb's creation time, when there is a crumb. */
  function CrumbDate(crumbs: seq<Crumb>, i: int, showDate: nat -> string): Option<string> {
    if 0 <= i < |crumbs| then Some(showDate(crumbs[i].createdAt)) else None
  }

  /** The investigation window line, shown only when the first and the last date exist. */
  function WindowLine(crumbs: seq<Crumb>, showDate: nat -> string): (r: seq<string>)
    ensures |r| <= 1
    ensures |r| == 1 <==> |crumbs| > 0 && showDate(crumbs[0].createdAt) != ""
                          && showDate(crumbs[|crumbs| - 1].createdAt) != ""
  {
    var first := CrumbDate(crumbs, 0, showDate);
    var last := CrumbDate(crumbs, |crumbs| - 1, showDate);
    if first.Some? && Truthy(first.value) && last.Some? && Truthy(last.value) then
      ["- **Investigation window:** " + first.value + " \U{2013} " + last.value]
    else []
  }

  /** The lines of `buildSummary`; `generated` is the current time as the locale shows it. */
  function SummaryLines(crumbs: seq<Crumb>, workspace: Option<string>, showDate: nat -> string,
                        generated: string): seq<string> {
    [Headline(2, "Summary"), "",
     "- **Total crumbs:** " + NatToString(|crumbs|),
     "- **Files touched:** " + NatToString(|Files(crumbs, workspace)|),
     "- **Generated:** " + generated]
    + WindowLine(crumbs, showDate) + [""]
  }

  /** Reading the first lines of a list of five lines, some more and a last one. */
  lemma FiveThen<T>(x0: T, x1: T, x2: T, x3: T, x4: T, w: seq<T>, z: T)
    ensures var ls := [x0, x1, x2, x3, x4] + w + [z];
            |ls| == 6 + |w| && ls[0] == x0 && ls[2] == x2 && ls[3] == x3
  {
  }

  /** The summary counts the crumbs, and the files, and has the window line only when the
      first and the last crumb have a date. */
  lemma SummaryShape(crumbs: seq<Crumb>, workspace: Option<string>, showDate: nat -> string, generated: string)
    ensures var ls := SummaryLines(crumbs, workspace, showDate, generated);
            ls[0] == "## Summary" && ls[2] == "- **Total crumbs:** " + NatToString(|crumbs|)
            && ls[3] == "- **Files touched:** " + NatToString(|Files(crumbs, workspace)|)
            && (|ls| == 7 <==> |WindowLine(crumbs, showDate)| == 1) && |ls| >= 6
  {
    var total := "- **Total crumbs:** " + NatToString(|crumbs|);
    var files := "- **Files touched:** " + NatToString(|Files(crumbs, workspace)|);
    FiveThen(Headline(2, "Summary"), "", total, files, "- **Generated:** " + generated,
             WindowLine(crumbs, showDate), "");
    SummaryHeadline();
  }

  /** The summary's headline is a second-level heading. */
  lemma SummaryHeadline()
    ensures Headline(2, "Summary") == "## Summary"
  {
    assert Repeat('#', 2) == "##";
  }

  /** `if (crumb.note)`: the crumb has a note that is not empty. */
  predicate HasNote(c: Crumb) {
    c.note.Some? && Truthy(c.note.value)
  }

  /** The lines of one crumb's section, numbered from 1: its heading, the capture date,
      the note line only when there is a note, then the snippet between two fences. */
  function CrumbLines(c: Crumb, number: nat, workspace: Option<string>, showDate: nat -> string): (ls: seq<string>)
    ensures |ls| == if HasNote(c) then 9 else 8
  {
    [Headline(3, NatToString(number) + ". " + CrumbPath(c, workspace) + ":" + FormatRangeLabel(c.range)),
     "", "- **Captured:** " + showDate(c.createdAt)]
    + (if HasNote(c) then ["- **Note:** " + c.note.value] else [])
    + ["", "```", EscapeCodeBlock(c.snippet), "```", ""]
  }

  /** What a crumb's section shows: the numbered heading with the file and the line
      label, the capture date, the note line exactly when there is a note, and the snippet
      between two fence lines. */
  lemma CrumbLinesShow(c: Crumb, number: nat, workspace: Option<string>, showDate: nat -> string)
    ensures var ls := CrumbLines(c, number, workspace, showDate);
            ls[0] == Headline(3, NatToString(number) + ". " + CrumbPath(c, workspace) + ":" + FormatRangeLabel(c.range))
            && ls[1] == "" && ls[2] == "- **Captured:** " + showDate(c.createdAt)
            && (HasNote(c) ==> ls[3] == "- **Note:** " + c.note.value)
            && ls[|ls| - 5..] == ["", "```", EscapeCodeBlock(c.snippet), "```", ""]
  {
  }

  /** The number of the first `n` crumbs that carry a note. */
  function NoteCount(crumbs: seq<Crumb>, n: nat): (r: nat)
    requires n <= |crumbs|
    ensures r <= n
  {
    if n == 0 then 0
    else NoteCount(crumbs, n - 1) + (if HasNote(crumbs[n - 1]) then 1 else 0)
  }

  /** Counting notes over more crumbs never gives fewer. */
  lemma {:induction false} NoteCountMonotone(crumbs: seq<Crumb>, a: nat, b: nat)
    requires a <= b <= |crumbs|
    ensures NoteCount(crumbs, a) <= NoteCount(crumbs, b)
    decreases b - a
  {
    if a < b {
      NoteCountMonotone(crumbs, a, b - 1);
    }
  }

  /** Where crumb `k`'s section starts: eight lines for each crumb before it and one more
      for each of them with a note. */
  function SectionStart(crumbs: seq<Crumb>, k: nat): nat
    requires k <= |crumbs|
  {
    8 * k + NoteCount(crumbs, k)
  }

  /** The sections of the first `n` crumbs, numbered 1..n: eight lines per crumb and one
      more per note. */
  function CrumbsLines(crumbs: seq<Crumb>, n: nat, workspace: Option<string>, showDate: nat -> string): (ls: seq<string>)
    requires n <= |crumbs|
    ensures |ls| == 8 * n + NoteCount(crumbs, n)
  {
    if n == 0 then []
    else CrumbsLines(crumbs, n - 1, workspace, showDate) + CrumbLines(crumbs[n - 1], n, workspace, showDate)
  }

  /** Each crumb's section, numbered from 1, as a list of parts. */
  function CrumbSections(crumbs: seq<Crumb>, workspace: Option<string>, showDate: nat -> string)
    : (parts: seq<seq<string>>)
    ensures |parts| == |crumbs|
    ensures forall i :: 0 <= i < |crumbs| ==> parts[i] == CrumbLines(crumbs[i], i + 1, workspace, showDate)
  {
    seq(|crumbs|, i requires 0 <= i < |crumbs| => CrumbLines(crumbs[i], i + 1, workspace, showDate))
  }

  /** The sections of the first `n` crumbs are those parts, one after the other. */
  lemma {:induction false} CrumbsLinesFlatten(crumbs: seq<Crumb>, n: nat, workspace: Option<string>,
                                              showDate: nat -> string)
    requires n <= |crumbs|
    ensures CrumbsLines(crumbs, n, workspace, showDate) == JsonTree.Flatten(CrumbSections(crumbs, workspace, showDate), n)
  {
    if n > 0 {
      CrumbsLinesFlatten(crumbs, n - 1, workspace, showDate);
      JsonTree.FlattenStep(CrumbSections(crumbs, workspace, showDate), n,
                           CrumbsLines(crumbs, n - 1, workspace, showDate),
                           CrumbLines(crumbs[n - 1], n, workspace, showDate));
    }
  }

  /** Where the sections of the first `k` crumbs end. */
  lemma SectionStartFlatten(crumbs: seq<Crumb>, k: nat, workspace: Option<string>, showDate: nat -> string)
    requires k <= |crumbs|
    ensures SectionStart(crumbs, k) == |JsonTree.Flatten(CrumbSections(crumbs, workspace, showDate), k)|
  {
    CrumbsLinesFlatten(crumbs, k, workspace, showDate);
  }

  /** In the sections of the first `n` crumbs, crumb `k` (counting from 0) has exactly its
      own section, numbered `k + 1`, placed after the sections of the crumbs before it. */
  lemma CrumbSectionAt(crumbs: seq<Crumb>, n: nat, k: nat, workspace: Option<string>, showDate: nat -> string)
    requires k < n <= |crumbs|
    ensures var ls := CrumbsLines(crumbs, n, workspace, showDate);
            SectionStart(crumbs, k + 1) <= |ls|
            && ls[SectionStart(crumbs, k)..SectionStart(crumbs, k + 1)]
               == CrumbLines(crumbs[k], k + 1, workspace, showDate)
  {
    var parts := CrumbSections(crumbs, workspace, showDate);
    CrumbsLinesFlatten(crumbs, n, workspace, showDate);
    SectionStartFlatten(crumbs, k, workspace, showDate);
    SectionStartFlatten(crumbs, k + 1, workspace, showDate);
    JsonTree.FlattenPartAt(CrumbsLines(crumbs, n, workspace, showDate), parts, k, n,
                           SectionStart(crumbs, k), SectionStart(crumbs, k + 1),
                           CrumbLines(crumbs[k], k + 1, workspace, showDate));
  }

  /** Crumb `k`'s heading, numbered `k + 1`, opens its section. */
  lemma CrumbHeadingAt(crumbs: seq<Crumb>, n: nat, k: nat, workspace: Option<string>, showDate: nat -> string)
    requires k < n <= |crumbs|
    ensures var ls := CrumbsLines(crumbs, n, workspace, showDate);
            SectionStart(crumbs, k) < |ls|
            && ls[SectionStart(crumbs, k)]
               == Headline(3, NatToString(k + 1) + ". " + CrumbPath(crumbs[k], workspace) + ":" + FormatRangeLabel(crumbs[k].range))
  {
    var ls := CrumbsLines(crumbs, n, workspace, showDate);
    var i, j := SectionStart(crumbs, k), SectionStart(crumbs, k + 1);
    CrumbSectionAt(crumbs, n, k, workspace, showDate);
    CrumbLinesShow(crumbs[k], k + 1, workspace, showDate);
    assert ls[i] == ls[i..j][0];
  }


  /** One more crumb's section extends the lines by exactly that section. */
  lemma CrumbsLinesStep(crumbs: seq<Crumb>, i: nat, workspace: Option<string>, showDate: nat -> string,
                        head: seq<string>, done: seq<string>, section: seq<string>)
    requires i < |crumbs| && done == head + CrumbsLines(crumbs, i, workspace, showDate)
    requires section == CrumbLines(crumbs[i], i + 1, workspace, showDate)
    ensures done + section == head + CrumbsLines(crumbs, i + 1, workspace, showDate)
  {
    AppendAssoc(head, CrumbsLines(crumbs, i, workspace, showDate), section);
  }

  /** `buildCrumbSection`: the "Trail" heading, then each crumb's lines, numbered 1..n
      in trail order, joined by line breaks. */
  method BuildCrumbSection(t: Trail, workspace: Option<string>, showDate: nat -> string) returns (text: string)
    ensures text == Join([Headline(2, "Trail"), ""] + CrumbsLines(t.crumbs, |t.crumbs|, workspace, showDate), "\n")
  {
    var crumbs, head := t.crumbs, [Headline(2, "Trail"), ""];
    var lines := head;
    assert lines == head + CrumbsLines(crumbs, 0, workspace, showDate);
    var i := 0;
    while i < |crumbs|
      invariant 0 <= i <= |crumbs|
      invariant lines == head + CrumbsLines(crumbs, i, workspace, showDate)
    {
      var section := CrumbLines(crumbs[i], i + 1, workspace, showDate);
      CrumbsLinesStep(crumbs, i, workspace, showDate, head, lines, section);
      lines := lines + section;
      i := i + 1;
    }
    text := Join(lines, "\n");
  }

  /** The lines of `generateTrailMarkdown`, with the summary and the crumb section each
      already joined. */
  function TrailLines(t: Trail, workspace: Option<string>, showDate: nat -> string, generated: string): seq<string> {
    [Headline(1, "Breadcrumb Trail \U{2013} " + t.name), ""]
    + (if t.description.Some? && Truthy(t.description.value) then [t.description.value, ""] else [])
    + [Join(SummaryLines(t.crumbs, workspace, showDate, generated), "\n"),
       Join([Headline(2, "Trail"), ""] + CrumbsLines(t.crumbs, |t.crumbs|, workspace, showDate), "\n")]
  }

  /** The description paragraph is there exactly when a description is set. */
  lemma DescriptionParagraph(t: Trail, workspace: Option<string>, showDate: nat -> string, generated: string)
    ensures |TrailLines(t, workspace, showDate, generated)| == if t.description.Some? && t.description.value != "" then 6 else 4
    ensures t.description.Some? && t.description.value != "" ==>
              TrailLines(t, workspace, showDate, generated)[2] == t.description.value
  {
  }

  /** A character kept by the file-name pattern `[a-z0-9\-_]`, case-insensitive. */
  predicate SafeChar(c: char) {
    'a' <= c <= 'z' || 'A' <= c <= 'Z' || '0' <= c <= '9' || c == '-' || c == '_'
  }

  /** `s` without its leading run of characters outside the pattern. */
  function DropWhileUnsafe(s: string): (r: string)
    ensures |r| <= |s| && r == s[|s| - |r|..]
    ensures r == [] || SafeChar(r[0])
  {
    if s == [] || SafeChar(s[0]) then s else DropWhileUnsafe(s[1..])
  }

  /** `s` without its leading run of `-`. */
  function DropWhileDash(s: string): (r: string)
    ensures |r| <= |s| && r == s[|s| - |r|..]
    ensures r == [] || r[0] != '-'
  {
    if s == [] || s[0] != '-' then s else DropWhileDash(s[1..])
  }

  /** `s.replace(/[^a-z0-9\-_]+/gi, '-')`: every run of other characters becomes one `-`. */
  function ReplaceUnsafeRuns(s: string): (r: string)
    ensures forall k :: 0 <= k < |r| ==> SafeChar(r[k])
    ensures |r| > 0 <==> |s| > 0
    decreases |s|
  {
    if s == [] then []
    else if SafeChar(s[0]) then [s[0]] + ReplaceUnsafeRuns(s[1..])
    else "-" + ReplaceUnsafeRuns(DropWhileUnsafe(s[1..]))
  }

  /** `s.replace(/-+/g, '-')`: every run of `-` becomes one. */
  function CollapseDashes(s: string): (r: string)
    ensures forall k :: 0 <= k < |r| ==> r[k] in s
    ensures |r| > 0 <==> |s| > 0
    ensures |s| > 0 ==> r[0] == s[0]
    ensures NoDoubleChar(r, '-')
    decreases |s|
  {
    if s == [] then []
    else if s[0] != '-' then
      var rest := CollapseDashes(s[1..]);
      CharsOfSuffix(s, [s[0]], s[1..], rest);
      [s[0]] + rest
    else
      var tail := DropWhileDash(s[1..]);
      var rest := CollapseDashes(tail);
      CharsOfSuffix(s, "-", tail, rest);
      "-" + rest
  }

  /** The characters of `s` other than `-`, in order. */
  function NonDash(s: string): (r: string)
    ensures |r| <= |s|
  {
    if s == [] then [] else (if s[0] != '-' then [s[0]] else []) + NonDash(s[1..])
  }

  /** The letters, digits and underscores of `s`, in order: the characters the pattern
      accepts, other than `-`. */
  function Word(s: string): (r: string)
    ensures |r| <= |s|
  {
    if s == [] then [] else (if SafeChar(s[0]) && s[0] != '-' then [s[0]] else []) + Word(s[1..])
  }

  /** Dropping a leading run of rejected characters keeps the word characters. */
  lemma {:induction false} WordDropWhileUnsafe(s: string)
    ensures Word(DropWhileUnsafe(s)) == Word(s)
  {
    if s != [] && !SafeChar(s[0]) {
      WordDropWhileUnsafe(s[1..]);
    }
  }

  /** Dropping a leading run of `-` keeps the other characters. */
  lemma {:induction false} NonDashDropWhileDash(s: string)
    ensures NonDash(DropWhileDash(s)) == NonDash(s)
  {
    if s != [] && s[0] == '-' {
      NonDashDropWhileDash(s[1..]);
    }
  }

  /** Replacing the runs of rejected characters keeps every letter, digit and underscore,
      in order, and adds nothing but `-`. */
  lemma {:induction false} ReplaceUnsafeRunsKeepsWord(s: string)
    ensures NonDash(ReplaceUnsafeRuns(s)) == Word(s)
    decreases |s|
  {
    if s != [] {
      if SafeChar(s[0]) {
        ReplaceUnsafeRunsKeepsWord(s[1..]);
        assert ([s[0]] + ReplaceUnsafeRuns(s[1..]))[1..] == ReplaceUnsafeRuns(s[1..]);
      } else {
        var tail := DropWhileUnsafe(s[1..]);
        ReplaceUnsafeRunsKeepsWord(tail);
        WordDropWhileUnsafe(s[1..]);
        assert ("-" + ReplaceUnsafeRuns(tail))[1..] == ReplaceUnsafeRuns(tail);
      }
    }
  }

  /** A name made only of accepted characters is left as it is by the replacement. */
  lemma {:induction false} ReplaceUnsafeRunsIdentity(s: string)
    requires forall k :: 0 <= k < |s| ==> SafeChar(s[k])
    ensures ReplaceUnsafeRuns(s) == s
    decreases |s|
  {
    if s != [] {
      ReplaceUnsafeRunsIdentity(s[1..]);
      assert [s[0]] + s[1..] == s;
    }
  }

  /** Collapsing runs of `-` keeps every other character, in order. */
  lemma {:induction false} CollapseDashesKeepsNonDash(s: string)
    ensures NonDash(CollapseDashes(s)) == NonDash(s)
    decreases |s|
  {
    if s != [] {
      if s[0] != '-' {
        CollapseDashesKeepsNonDash(s[1..]);
        assert ([s[0]] + CollapseDashes(s[1..]))[1..] == CollapseDashes(s[1..]);
      } else {
        var tail := DropWhileDash(s[1..]);
        CollapseDashesKeepsNonDash(tail);
        NonDashDropWhileDash(s[1..]);
        assert ("-" + CollapseDashes(tail))[1..] == CollapseDashes(tail);
      }
    }
  }

  /** A text with no two `-` in a row is left as it is by the collapse. */
  lemma {:induction false} CollapseDashesIdentity(s: string)
    requires NoDoubleChar(s, '-')
    ensures CollapseDashes(s) == s
    decreases |s|
  {
    if s != [] {
      assert NoDoubleChar(s[1..], '-') by {
        forall k | 0 <= k < |s[1..]| - 1 ensures !(s[1..][k] == '-' && s[1..][k + 1] == '-') {
          assert s[1..][k] == s[k + 1] && s[1..][k + 1] == s[k + 2];
        }
      }
      CollapseDashesIdentity(s[1..]);
      if s[0] == '-' {
        assert s[1..] == [] || s[1] != '-';
        assert DropWhileDash(s[1..]) == s[1..];
      }
      assert [s[0]] + s[1..] == s;
    }
  }

  /** A first character of `s` followed by characters of a suffix of `s` are all characters
      of `s`. */
  lemma CharsOfSuffix(s: string, head: string, tail: string, rest: string)
    requires |head| == 1 && s != [] && head[0] == s[0]
    requires |tail| < |s| && tail == s[|s| - |tail|..]
    requires forall k :: 0 <= k < |rest| ==> rest[k] in tail
    ensures forall k :: 0 <= k < |head + rest| ==> (head + rest)[k] in s
  {
    forall k | 0 <= k < |head + rest| ensures (head + rest)[k] in s {
      if k > 0 {
        assert (head + rest)[k] == rest[k - 1];
        var j :| 0 <= j < |tail| && tail[j] == rest[k - 1];
        assert s[|s| - |tail| + j] == tail[j];
      }
    }
  }

  /** The file name `exportTrailToMarkdown` proposes: the sanitised name, or
      `breadcrumb-trail` when nothing is left, with `.md`. */
  function DefaultFileName(name: string): (r: string)
    ensures |r| > 3 && r[|r| - 3..] == ".md"
  {
    var safe := CollapseDashes(ReplaceUnsafeRuns(name));
    (if safe == "" then "breadcrumb-trail" else safe) + ".md"
  }

  /** The sanitised name holds only `[A-Za-z0-9_-]`, never two `-` in a row, and is empty
      only for an empty name. */
  lemma SanitisedName(name: string)
    ensures var safe := CollapseDashes(ReplaceUnsafeRuns(name));
            (forall k :: 0 <= k < |safe| ==> SafeChar(safe[k])) && NoDoubleChar(safe, '-')
            && (safe == "" <==> name == "")
  {
    var r := ReplaceUnsafeRuns(name);
    assert forall k :: 0 <= k < |CollapseDashes(r)| ==> CollapseDashes(r)[k] in r;
  }

  /** The sanitised name keeps exactly the name's letters, digits and underscores, in
      order; a name already made of those and single `-` is kept whole. */
  lemma SanitisedKeepsWord(name: string)
    ensures NonDash(CollapseDashes(ReplaceUnsafeRuns(name))) == Word(name)
    ensures (forall k :: 0 <= k < |name| ==> SafeChar(name[k])) && NoDoubleChar(name, '-') ==>
              CollapseDashes(ReplaceUnsafeRuns(name)) == name
  {
    ReplaceUnsafeRunsKeepsWord(name);
    CollapseDashesKeepsNonDash(ReplaceUnsafeRuns(name));
    if (forall k :: 0 <= k < |name| ==> SafeChar(name[k])) && NoDoubleChar(name, '-') {
      ReplaceUnsafeRunsIdentity(name);
      CollapseDashesIdentity(name);
    }
  }

  /** An empty name falls back to `breadcrumb-trail.md`; any other name gives its
      sanitised form, which is not empty, followed by `.md`. */
  lemma DefaultFileNameFallback(name: string)
    ensures name == "" ==> DefaultFileName(name) == "breadcrumb-trail.md"
    ensures name != "" ==> var safe := CollapseDashes(ReplaceUnsafeRuns(name));
                           safe != "" && DefaultFileName(name) == safe + ".md"
  {
    SanitisedName(name);
  }

  /** What `exportTrailToMarkdown` does: nothing for an empty trail; otherwise the default
      location offered when no target is given (in the workspace folder, if one is open),
      and the file written, unless the save dialog was dismissed. */
  datatype Export = Export(defaultUri: Option<string>, written: Option<(string, string)>)

  function ExportTrail(t: Trail, uri: Option<string>, workspace: Option<string>, showDate: nat -> string,
                       generated: string, dialogAnswer: Option<string>): (r: Option<Export>)
    ensures r.None? <==> t.crumbs == []
    ensures r.Some? && uri.Some? ==> r.value == Export(None, Some((uri.value, Join(TrailLines(t, workspace, showDate, generated), "\n"))))
    ensures r.Some? && uri.None? ==>
              (r.value.defaultUri.Some? <==> workspace.Some?)
              && (r.value.written.Some? <==> dialogAnswer.Some?)
    ensures r.Some? && uri.None? && workspace.Some? ==>
              r.value.defaultUri == Some(JoinPath(workspace.value, DefaultFileName(t.name)))
    ensures r.Some? && uri.None? && dialogAnswer.Some? ==>
              r.value.written == Some((dialogAnswer.value, Join(TrailLines(t, workspace, showDate, generated), "\n")))
  {
    if t.crumbs == [] then None
    else
      var markdown := Join(TrailLines(t, workspace, showDate, generated), "\n");
      if uri.Some? then Some(Export(None, Some((uri.value, markdown))))
      else
        var defaultUri := if workspace.Some? then Some(JoinPath(workspace.value, DefaultFileName(t.name))) else None;
        Some(Export(defaultUri, if dialogAnswer.Some? then Some((dialogAnswer.value, markdown)) else None))
  }
}
