/** `GosecParser.parse` (`src/parsers/gosec.ts`) over the parsed report. */
module GosecParser {
  import opened Wrappers
  import opened Editor
  import opened JsonTree
  import opened Findings
  import opened Text

  /** Text of decimal digits, the form in which gosec writes a line number. */
  predicate Decimal(s: string) {
    |s| > 0 && forall k :: 0 <= k < |s| ==> IsDigit(s[k])
  }

  /** The operand of `gosecFinding.line - 1`: a JSON number as it is, or decimal text,
      which `-` converts to the number it denotes. */
  function LineAt(entry: Json): (r: Result<int>)
    ensures r.Ok? <==> IntAt(entry, "line").Ok? || (StringAt(entry, "line").Ok? && Decimal(StringAt(entry, "line").value))
    ensures IntAt(entry, "line").Ok? ==> r == IntAt(entry, "line")
  {
    match Member(entry, "line")
    case Some(JNum(n)) => Ok(n)
    case Some(JStr(s)) => if Decimal(s) then Ok(DecimalValue(s)) else Fault
    case _ => Fault
  }

  /** One entry of `Issues`: the file as written, the 1-based `line` made 0-based at both
      ends, columns 0, the details, tool `gosec`. */
  function GosecFinding(entry: Json): (r: Result<ToolFinding>)
    ensures r.Ok? ==> r.value.tool == Some("gosec") && StringAt(entry, "details") == Ok(r.value.text)
    ensures r.Ok? ==> StringAt(entry, "file") == Ok(r.value.uri)
    ensures r.Ok? ==> LineAt(entry) == Ok(r.value.range.start.line + 1)
                      && r.value.range.end == r.value.range.start && r.value.range.start.character == 0
  {
    var file :- StringAt(entry, "file");
    var line :- LineAt(entry);
    var range :- MakeRange(line - 1, 0, line - 1, 0);
    var text :- StringAt(entry, "details");
    Ok(ToolFinding(file, range, text, Some("gosec")))
  }

  /** The findings `parse` returns: one per entry of `Issues` in order, up to the first
      entry that throws; nothing when `Issues` is not a list. */
  function GosecFindings(report: Json): (r: seq<ToolFinding>)
    ensures ArrayAt(report, "Issues").Fault? ==> r == []
    ensures ArrayAt(report, "Issues").Ok? ==>
              var entries := ArrayAt(report, "Issues").value;
              |r| <= |entries|
              && (forall i :: 0 <= i < |r| ==> GosecFinding(entries[i]) == Ok(r[i]))
              && (|r| < |entries| ==> GosecFinding(entries[|r|]).Fault?)
  {
    match ArrayAt(report, "Issues")
    case Fault => []
    case Ok(entries) => OkPrefix(Steps(entries, GosecFinding))
  }

  /** `parse`: push a finding per entry; a throw ends the loop and keeps what was pushed. */
  method ParseGosec(report: Json) returns (findings: seq<ToolFinding>)
    ensures findings == GosecFindings(report)
  {
    findings := [];
    var entries := ArrayAt(report, "Issues");
    if entries.Ok? {
      var complete;
      findings, complete := CollectUntilFault(entries.value, GosecFinding);
    }
  }

  /** An `Issues` entry as gosec writes it. */
  function GosecEntry(file: string, line: int, details: string): Json {
    JObj(map["file" := JStr(file), "line" := JNum(line), "details" := JStr(details)])
  }

  /** An entry converts exactly when its line is 1 or more, and then names that line less
      one. */
  lemma GosecEntryConverts(file: string, line: int, details: string)
    ensures GosecFinding(GosecEntry(file, line, details)).Ok? <==> line >= 1
    ensures line >= 1 ==> GosecFinding(GosecEntry(file, line, details))
                          == Ok(ToolFinding(file, Range(Position(line - 1, 0), Position(line - 1, 0)), details, Some("gosec")))
  {
    var e := GosecEntry(file, line, details);
    assert StringAt(e, "file") == Ok(file) && LineAt(e) == Ok(line) && StringAt(e, "details") == Ok(details);
  }

  /** An entry whose line gosec wrote as the decimal text of `line` converts as the one
      with the number itself. */
  lemma GosecLineTextConverts(file: string, line: nat, details: string)
    ensures var e := JObj(map["file" := JStr(file), "line" := JStr(NatToString(line)), "details" := JStr(details)]);
            GosecFinding(e) == GosecFinding(GosecEntry(file, line, details))
  {
    var e := JObj(map["file" := JStr(file), "line" := JStr(NatToString(line)), "details" := JStr(details)]);
    DecimalOfNatToString(line);
    assert LineAt(e) == Ok(line);
    assert StringAt(e, "file") == Ok(file) && StringAt(e, "details") == Ok(details);
    GosecEntryConverts(file, line, details);
  }

  /** When every entry converts, `parse` returns one finding per entry, in order. */
  lemma GosecOnePerEntry(report: Json)
    requires ArrayAt(report, "Issues").Ok?
    requires forall e :: e in ArrayAt(report, "Issues").value ==> GosecFinding(e).Ok?
    ensures var entries := ArrayAt(report, "Issues").value;
            |GosecFindings(report)| == |entries|
            && forall i :: 0 <= i < |entries| ==> Ok(GosecFindings(report)[i]) == GosecFinding(entries[i])
  {
    var entries := ArrayAt(report, "Issues").value;
    assert AllOk(Steps(entries, GosecFinding)) by {
      forall i | 0 <= i < |entries| ensures GosecFinding(entries[i]).Ok? {
        assert entries[i] in entries;
      }
    }
  }
}
