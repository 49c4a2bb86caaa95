/** Text shown for a crumb in lists and exports (`src/breadcrumbs/format.ts`). */
module Format {
  import opened Text
  import opened Editor

  /** `formatRangeLabel`: one-based lines, `L<s>` for a one-line range, `L<s>-L<e>` otherwise. */
  function FormatRangeLabel(range: Range): (r: string)
    ensures StartsWith(r, "L" + NatToString(range.start.line + 1))
    ensures range.start.line == range.end.line ==> r == "L" + NatToString(range.start.line + 1)
    ensures range.start.line != range.end.line ==>
              r == "L" + NatToString(range.start.line + 1) + "-L" + NatToString(range.end.line + 1)
    ensures '-' in r <==> range.start.line != range.end.line
  {
    var startLine := range.start.line + 1;
    var endLine := range.end.line + 1;
    var a := NatToString(startLine);
    if startLine == endLine then
      assert '-' !in a by { assert forall k :: 0 <= k < |a| ==> IsDigit(a[k]); }
      "L" + a
    else
      var r := "L" + a + "-L" + NatToString(endLine);
      assert r[|a| + 1] == '-';
      r
  }

  lemma {:induction false} BeforeDigits(a: string, rest: string)
    requires forall k :: 0 <= k < |a| ==> IsDigit(a[k])
    requires rest == [] || rest[0] == '-'
    ensures Before(a + rest, '-') == a
  {
    if |a| > 0 {
      assert (a + rest)[1..] == a[1..] + rest;
      BeforeDigits(a[1..], rest);
    } else {
      assert a + rest == rest;
    }
  }

  /** The digits of the start line are the label's text between `L` and the first `-`. */
  lemma LabelStart(x: Range)
    ensures Before(FormatRangeLabel(x)[1..], '-') == NatToString(x.start.line + 1)
  {
    var a := NatToString(x.start.line + 1);
    var t := if x.start.line == x.end.line then "" else "-L" + NatToString(x.end.line + 1);
    var r := FormatRangeLabel(x);
    assert r == "L" + (a + t);
    assert r[1..] == a + t;
    BeforeDigits(a, t);
  }

  /** The text after `L<s>-L` of a two-line label holds the digits of the end line. */
  lemma LabelEnd(x: Range)
    requires x.start.line != x.end.line
    ensures FormatRangeLabel(x)[|NatToString(x.start.line + 1)| + 3..] == NatToString(x.end.line + 1)
  {
  }

  /** Two equal labels start with the same line. */
  lemma SameLabelStart(x: Range, y: Range)
    requires FormatRangeLabel(x) == FormatRangeLabel(y)
    ensures x.start.line == y.start.line
  {
    LabelStart(x);
    LabelStart(y);
    NatToStringInjective(x.start.line + 1, y.start.line + 1);
  }

  /** The label determines the one-based lines it was built from. */
  lemma RangeLabelInjective(x: Range, y: Range)
    requires FormatRangeLabel(x) == FormatRangeLabel(y)
    ensures x.start.line == y.start.line && x.end.line == y.end.line
  {
    SameLabelStart(x, y);
    if x.start.line != x.end.line {
      assert y.start.line != y.end.line;
      LabelEnd(x);
      LabelEnd(y);
      NatToStringInjective(x.end.line + 1, y.end.line + 1);
    }
  }

  /** The default `maxLength` of `snippetPreview`. */
  const DefaultPreviewLength: int := 80

  const EmptySelection: string := "(empty selection)"

  /** The trimmed first line of the trimmed snippet. */
  function FirstLine(snippet: string): string {
    Trim(Before(Trim(snippet), '\n'))
  }

  /** `snippetPreview(snippet, maxLength)`. */
  function SnippetPreview(snippet: string, maxLength: int): (r: string)
    ensures AllWhitespace(snippet) ==> r == EmptySelection
    ensures !AllWhitespace(snippet) && |FirstLine(snippet)| <= maxLength ==> r == FirstLine(snippet)
    ensures !AllWhitespace(snippet) && |FirstLine(snippet)| > maxLength >= 3 ==>
              r == FirstLine(snippet)[..maxLength - 3] + "..."
    ensures !AllWhitespace(snippet) && maxLength >= 3 ==> |r| <= maxLength
  {
    TrimIsInfix(snippet);
    var trimmed := Trim(snippet);
    if |trimmed| == 0 then EmptySelection
    else
      var preview := Trim(Before(trimmed, '\n'));
      if |preview| > maxLength then SlicePrefix(preview, maxLength - 3) + "..." else preview
  }

  /** A snippet with some text has a non-empty first line without a line break. */
  lemma FirstLineOfText(snippet: string)
    requires !AllWhitespace(snippet)
    ensures FirstLine(snippet) != "" && '\n' !in FirstLine(snippet)
  {
    TrimIsInfix(snippet);
    var trimmed := Trim(snippet);
    var line := Before(trimmed, '\n');
    assert line != "" && line[0] == trimmed[0];
    TrimIsInfix(line);
    TrimExcludes(line, '\n');
  }

  /** A snippet with some text gives a non-empty one-line preview. */
  lemma PreviewOfText(snippet: string, maxLength: int)
    requires !AllWhitespace(snippet)
    ensures SnippetPreview(snippet, maxLength) != "" && '\n' !in SnippetPreview(snippet, maxLength)
  {
    FirstLineOfText(snippet);
    var preview := FirstLine(snippet);
    if |preview| > maxLength {
      var p := SlicePrefix(preview, maxLength - 3);
      assert '\n' !in p by {
        forall k | 0 <= k < |p| ensures p[k] != '\n' { assert p[k] == preview[k]; }
      }
      assert SnippetPreview(snippet, maxLength) == p + "...";
    } else {
      assert SnippetPreview(snippet, maxLength) == preview;
    }
  }
}
