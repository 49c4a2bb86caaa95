/** The HTML export of legacy breadcrumbs
    (`src/webviews/export-breadcrumbs/exportBreadcrumbsWebview.ts`): the selection of the
    requested breadcrumbs, the Mermaid flowchart of each (one node per point, an edge
    between neighbours), the path description, the point cards, the file name shown and
    the HTML escape of the snippets. The page's fixed markup and style sheet are left out;
    the snippet text read from the editor is a parameter. */
module BreadcrumbsExport {
  import opened Wrappers
  import opened Editor
  import opened Text
  import opened OrderedMap
  import opened LegacyBreadcrumbs

  /** The characters `escapeHtml` replaces. */
  predicate Special(c: char) {
    c == '&' || c == '<' || c == '>' || c == '"' || c == '\''
  }

  /** `escapeHtml` as written: five global replacements, `&` first. */
  function EscapeHtml(unsafe: string): string {
    ReplaceCharBy(ReplaceCharBy(ReplaceCharBy(ReplaceCharBy(ReplaceCharBy(
      unsafe, '&', "&amp;"), '<', "&lt;"), '>', "&gt;"), '"', "&quot;"), '\'', "&#039;")
  }

  /** The entity of one character; the reference meaning of the escape. */
  function Entity(c: char): (r: string)
    ensures |r| >= 1 && forall k :: 0 <= k < |r| ==> r[k] != '<' && r[k] != '>' && r[k] != '"' && r[k] != '\''
    ensures !Special(c) ==> r == [c]
    ensures Special(c) ==> r[0] == '&' && r[|r| - 1] == ';'
  {
    if c == '&' then "&amp;"
    else if c == '<' then "&lt;"
    else if c == '>' then "&gt;"
    else if c == '"' then "&quot;"
    else if c == '\'' then "&#039;"
    else [c]
  }

  /** Every character replaced by its entity, in one pass. */
  function EntityMapped(s: string): (r: string)
    ensures |r| >= |s|
    ensures forall k :: 0 <= k < |r| ==> r[k] != '<' && r[k] != '>' && r[k] != '"' && r[k] != '\''
    ensures (forall k :: 0 <= k < |s| ==> !Special(s[k])) ==> r == s
  {
    if s == [] then ""
    else
      var rest := EntityMapped(s[1..]);
      Entity(s[0]) + rest
  }

  /** The escape works character by character: escaping a concatenation escapes each part. */
  lemma EscapeHtmlAppend(a: string, b: string)
    ensures EscapeHtml(a + b) == EscapeHtml(a) + EscapeHtml(b)
  {
    var a1, b1 := ReplaceCharBy(a, '&', "&amp;"), ReplaceCharBy(b, '&', "&amp;");
    ReplaceCharByAppend(a, b, '&', "&amp;");
    var a2, b2 := ReplaceCharBy(a1, '<', "&lt;"), ReplaceCharBy(b1, '<', "&lt;");
    ReplaceCharByAppend(a1, b1, '<', "&lt;");
    var a3, b3 := ReplaceCharBy(a2, '>', "&gt;"), ReplaceCharBy(b2, '>', "&gt;");
    ReplaceCharByAppend(a2, b2, '>', "&gt;");
    var a4, b4 := ReplaceCharBy(a3, '"', "&quot;"), ReplaceCharBy(b3, '"', "&quot;");
    ReplaceCharByAppend(a3, b3, '"', "&quot;");
    ReplaceCharByAppend(a4, b4, '\'', "&#039;");
  }

  lemma ReplaceCharBySingle(c: char, x: char, rep: string)
    ensures ReplaceCharBy([c], x, rep) == if c == x then rep else [c]
  {
    assert [c][1..] == [];
  }

  /** A single character escapes to its entity: the entities written by the first
      replacement hold none of the characters replaced after it. */
  lemma EscapeHtmlChar(c: char)
    ensures EscapeHtml([c]) == Entity(c)
  {
    var e := Entity(c);
    ReplaceCharBySingle(c, '&', "&amp;");
    if c != '&' {
      ReplaceCharBySingle(c, '<', "&lt;");
    }
    if c != '&' && c != '<' {
      ReplaceCharBySingle(c, '>', "&gt;");
    }
    if c != '&' && c != '<' && c != '>' {
      ReplaceCharBySingle(c, '"', "&quot;");
    }
    if !Special(c) || c == '\'' {
      ReplaceCharBySingle(c, '\'', "&#039;");
    }
    if c == '&' {
      ReplaceCharByAbsent(e, '<', "&lt;");
    }
    if c == '&' || c == '<' {
      ReplaceCharByAbsent(e, '>', "&gt;");
    }
    if c == '&' || c == '<' || c == '>' {
      ReplaceCharByAbsent(e, '"', "&quot;");
    }
    if Special(c) && c != '\'' {
      ReplaceCharByAbsent(e, '\'', "&#039;");
    }
  }

  /** Because `&` is replaced first, the chain of replacements is the one-pass entity
      mapping: no entity is escaped a second time. */
  lemma {:induction false} EscapeHtmlIsEntityMap(s: string)
    ensures EscapeHtml(s) == EntityMapped(s)
  {
    if s != [] {
      assert s == [s[0]] + s[1..];
      EscapeHtmlAppend([s[0]], s[1..]);
      EscapeHtmlChar(s[0]);
      EscapeHtmlIsEntityMap(s[1..]);
    }
  }

  /** The escaped text holds no `<`, `>`, `"` or `'`, and text without special characters
      is left as it is. */
  lemma EscapeHtmlSafe(s: string)
    ensures forall k :: 0 <= k < |EscapeHtml(s)| ==>
              EscapeHtml(s)[k] != '<' && EscapeHtml(s)[k] != '>' && EscapeHtml(s)[k] != '"' && EscapeHtml(s)[k] != '\''
    ensures (forall k :: 0 <= k < |s| ==> !Special(s[k])) ==> EscapeHtml(s) == s
  {
    EscapeHtmlIsEntityMap(s);
  }

  predicate IsPathSep(c: char) {
    c == '/' || c == '\\'
  }

  /** `getFileName`: the last segment of the path split at `/` and `\`, which is empty when
      the path ends with a separator. */
  function FileName(path: string): (r: string)
    ensures |r| <= |path| && r == path[|path| - |r|..]
    ensures forall k :: 0 <= k < |r| ==> !IsPathSep(r[k])
    ensures |r| < |path| ==> IsPathSep(path[|path| - |r| - 1])
  {
    if path == [] || IsPathSep(path[|path| - 1]) then ""
    else
      var init := FileName(path[..|path| - 1]);
      assert path[..|path| - 1][|path| - 1 - |init|..] + [path[|path| - 1]] == path[|path| - 1 - |init|..];
      init + [path[|path| - 1]]
  }

  /** `ids.map(id => map.get(id)).filter(b => !!b)`. */
  function Selected(ids: seq<string>, m: OMap<Breadcrumb>): (r: seq<Breadcrumb>)
    ensures |r| <= |ids|
    ensures |r| == 0 <==> forall i :: 0 <= i < |ids| ==> m.Get(ids[i]).None?
    ensures forall j :: 0 <= j < |r| ==> r[j] in m.entries.Values
  {
    if ids == [] then []
    else
      var init := Selected(ids[..|ids| - 1], m);
      assert forall i :: 0 <= i < |ids| - 1 ==> ids[..|ids| - 1][i] == ids[i];
      init + (match m.Get(ids[|ids| - 1]) case Some(b) => [b] case None => [])
  }

  /** The selection keeps the request order: selecting for a concatenation of requests
      concatenates the selections. */
  lemma {:induction false} SelectedAppend(a: seq<string>, b: seq<string>, m: OMap<Breadcrumb>)
    ensures Selected(a + b, m) == Selected(a, m) + Selected(b, m)
  {
    if b != [] {
      assert (a + b)[..|a + b| - 1] == a + b[..|b| - 1];
      SelectedAppend(a, b[..|b| - 1], m);
    } else {
      assert a + b == a;
    }
  }

  /** When every requested id exists, the selection is the requested breadcrumbs one for
      one, in request order. */
  lemma {:induction false} SelectedAll(ids: seq<string>, m: OMap<Breadcrumb>)
    requires forall i :: 0 <= i < |ids| ==> ids[i] in m.entries
    ensures |Selected(ids, m)| == |ids|
    ensures forall i :: 0 <= i < |ids| ==> Selected(ids, m)[i] == m.entries[ids[i]]
  {
    if ids != [] {
      SelectedAll(ids[..|ids| - 1], m);
    }
  }

  /** A point as its card shows it: the 1-based ordinal, the tag, the file name, the
      1-based line and the escaped snippet. */
  datatype Card = Card(number: int, tag: string, fileName: string, lineNumber: nat, snippet: string)

  /** One breadcrumb's part of the page. */
  datatype Section = Section(title: string, nodes: seq<string>, edges: seq<string>,
                             classes: seq<string>, description: string, cards: seq<Card>)

  /** `node<idx>["<ordinal+1>. <tag> (<file>:<line>)"]`: the node's id, then its label. */
  function NodeLine(idx: nat, p: BreadcrumbPoint): string {
    "    node" + NatToString(idx) + NodeLabel(p)
  }

  function NodeLabel(p: BreadcrumbPoint): (r: string)
    ensures |r| > 0 && r[0] == '['
  {
    "[\"" + IntToString(p.ordinal + 1) + ". " + p.tag
    + " (" + FileName(p.uri) + ":" + NatToString(p.range.start.line + 1) + ")\"]"
  }

  function EdgeLine(idx: nat): string {
    "    node" + NatToString(idx) + " --> node" + NatToString(idx + 1)
  }

  function Nodes(ps: seq<BreadcrumbPoint>): (r: seq<string>)
    ensures |r| == |ps| && forall i :: 0 <= i < |ps| ==> r[i] == NodeLine(i, ps[i])
  {
    seq(|ps|, i requires 0 <= i < |ps| => NodeLine(i, ps[i]))
  }

  /** Digits followed by a non-digit: the digits are determined by the string. */
  lemma DigitRunPrefix(a: string, x: string, b: string, y: string)
    requires forall k :: 0 <= k < |a| ==> IsDigit(a[k])
    requires forall k :: 0 <= k < |b| ==> IsDigit(b[k])
    requires |x| > 0 && !IsDigit(x[0]) && |y| > 0 && !IsDigit(y[0])
    requires a + x == b + y
    ensures a == b
  {
    var s := a + x;
    assert forall k :: 0 <= k < |a| ==> IsDigit(s[k]) by {
      forall k | 0 <= k < |a| ensures IsDigit(s[k]) { assert s[k] == a[k]; }
    }
    assert forall k :: 0 <= k < |b| ==> IsDigit(s[k]) by {
      forall k | 0 <= k < |b| ensures IsDigit(s[k]) { assert s[k] == (b + y)[k] == b[k]; }
    }
    assert !IsDigit(s[|a|]) && !IsDigit(s[|b|]);
    assert |a| == |b|;
    assert a == s[..|a|] && b == s[..|b|];
  }

  /** `node<a><x>` and `node<b><y>` with digit runs `a`, `b` each ended by a non-digit:
      equal lines carry the same id. */
  lemma NodeIdPrefix(a: string, x: string, b: string, y: string)
    requires forall k :: 0 <= k < |a| ==> IsDigit(a[k])
    requires forall k :: 0 <= k < |b| ==> IsDigit(b[k])
    requires |x| > 0 && !IsDigit(x[0]) && |y| > 0 && !IsDigit(y[0])
    requires "    node" + a + x == "    node" + b + y
    ensures a == b
  {
    var h := "    node";
    assert a + x == (h + a + x)[|h|..];
    assert b + y == (h + b + y)[|h|..];
    DigitRunPrefix(a, x, b, y);
  }

  /** Two node lines that are equal name the same node: the Mermaid ids are distinct. */
  lemma NodeLinesDistinct(i: nat, j: nat, p: BreadcrumbPoint, q: BreadcrumbPoint)
    requires NodeLine(i, p) == NodeLine(j, q)
    ensures i == j
  {
    NodeIdPrefix(NatToString(i), NodeLabel(p), NatToString(j), NodeLabel(q));
    NatToStringInjective(i, j);
  }

  /** Node `i` of the flowchart is `node<i>`, labelled with the point's one-based ordinal,
      its tag, its file name and its one-based line. */
  lemma NodesShowPoints(ps: seq<BreadcrumbPoint>, i: nat)
    requires i < |ps|
    ensures Nodes(ps)[i] == "    node" + NatToString(i) + ("[\"" + IntToString(ps[i].ordinal + 1) + ". " + ps[i].tag
                            + " (" + FileName(ps[i].uri) + ":" + NatToString(ps[i].range.start.line + 1) + ")\"]")
  {
    assert Nodes(ps)[i] == NodeLine(i, ps[i]);
  }

  /** No two nodes of the flowchart share an id. */
  lemma NodesDistinct(ps: seq<BreadcrumbPoint>, i: nat, j: nat)
    requires i < |ps| && j < |ps| && i != j
    ensures Nodes(ps)[i] != Nodes(ps)[j]
  {
    if Nodes(ps)[i] == Nodes(ps)[j] {
      NodeLinesDistinct(i, j, ps[i], ps[j]);
    }
  }

  /** `points.slice(0, -1).map((_, idx) => edge idx -> idx+1)`. */
  function Edges(ps: seq<BreadcrumbPoint>): seq<string> {
    var n := if |ps| == 0 then 0 else |ps| - 1;
    seq(n, i requires 0 <= i < n => EdgeLine(i))
  }

  /** The flowchart has one edge fewer than nodes (none for no point), each from a node to
      the next one. */
  lemma EdgesCount(ps: seq<BreadcrumbPoint>)
    ensures |Edges(ps)| == if |ps| == 0 then 0 else |ps| - 1
    ensures forall i :: 0 <= i < |Edges(ps)| ==> Edges(ps)[i] == EdgeLine(i) && i + 1 < |Nodes(ps)|
  {
  }

  function Classes(ps: seq<BreadcrumbPoint>): seq<string> {
    seq(|ps|, i requires 0 <= i < |ps| => "    class node" + NatToString(i) + " active;")
  }

  /** `<strong><idx+1>. <tag></strong>` without the arrow. */
  function Item(idx: nat, p: BreadcrumbPoint): string {
    "<strong>" + NatToString(idx + 1) + ". " + p.tag + "</strong>"
  }

  function Items(ps: seq<BreadcrumbPoint>, from: nat): (r: seq<string>)
    ensures |r| == |ps| && forall i :: 0 <= i < |ps| ==> r[i] == Item(from + i, ps[i])
  {
    seq(|ps|, i requires 0 <= i < |ps| => Item(from + i, ps[i]))
  }

  /** The description as written: each item followed by ` → ` unless it is the last one,
      all concatenated. */
  function Description(ps: seq<BreadcrumbPoint>, from: nat, total: nat): string
    decreases |ps|
  {
    if ps == [] then ""
    else Item(from, ps[0]) + (if from < total - 1 then " \U{2192} " else "") + Description(ps[1..], from + 1, total)
  }

  /** The arrows stand only between items: the description is the items joined by ` → `. */
  lemma {:induction false} DescriptionJoins(ps: seq<BreadcrumbPoint>, from: nat)
    ensures Description(ps, from, from + |ps|) == Join(Items(ps, from), " \U{2192} ")
    decreases |ps|
  {
    if ps != [] {
      DescriptionJoins(ps[1..], from + 1);
      assert Items(ps, from)[1..] == Items(ps[1..], from + 1);
    }
  }

  function Cards(ps: seq<BreadcrumbPoint>, snippetOf: BreadcrumbPoint -> string): (r: seq<Card>)
    ensures |r| == |ps|
  {
    seq(|ps|, i requires 0 <= i < |ps| =>
          var p := ps[i];
          Card(p.ordinal + 1, p.tag, FileName(p.uri), p.range.start.line + 1, EscapeHtml(snippetOf(p))))
  }

  /** The page part of one breadcrumb. */
  function SectionOf(v: BreadcrumbValue, snippetOf: BreadcrumbPoint -> string): Section {
    Section(v.caption, Nodes(v.points), Edges(v.points), Classes(v.points),
            "<strong>Path Description:</strong> This breadcrumb tracks " + Description(v.points, 0, |v.points|),
            Cards(v.points, snippetOf))
  }

  /** Each card shows the point's line one-based and its snippet escaped. */
  lemma CardsShowPoints(v: BreadcrumbValue, snippetOf: BreadcrumbPoint -> string, i: nat)
    requires i < |v.points|
    ensures var c := SectionOf(v, snippetOf).cards[i];
            c.lineNumber == v.points[i].range.start.line + 1 && c.number == v.points[i].ordinal + 1
            && c.snippet == EntityMapped(snippetOf(v.points[i]))
  {
    EscapeHtmlIsEntityMap(snippetOf(v.points[i]));
  }

  function Sections(bs: seq<Breadcrumb>, snippetOf: BreadcrumbPoint -> string): (r: seq<Section>)
    reads bs
    ensures |r| == |bs|
  {
    seq(|bs|, i reads bs requires 0 <= i < |bs| => SectionOf(bs[i].Value(), snippetOf))
  }

  /** `exportBreadcrumbs`: the sections of the requested breadcrumbs that exist, in request
      order; no document when none of them exists. */
  function ExportBreadcrumbs(ids: seq<string>, m: OMap<Breadcrumb>, snippetOf: BreadcrumbPoint -> string): (r: Option<seq<Section>>)
    reads m.entries.Values
    ensures r.None? <==> forall i :: 0 <= i < |ids| ==> m.Get(ids[i]).None?
    ensures r.Some? ==> |r.value| == |Selected(ids, m)| <= |ids|
  {
    var selected := Selected(ids, m);
    if |selected| == 0 then None else Some(Sections(selected, snippetOf))
  }
}
