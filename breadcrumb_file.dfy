/** The breadcrumb file of the legacy model (`src/persistence/breadcrumbs-persistence.ts`):
    the records written as JSON and the table rebuilt from them. The JSON text itself and
    the file system are outside the model: a load is given whether the file exists and the
    parsed records, or `Fault` when the text is not JSON of that shape. */
module BreadcrumbFile {
  import opened Wrappers
  import opened Editor
  import opened OrderedMap
  import opened StableSort
  import opened LegacyBreadcrumbs
  import opened Paths

  /** The file name, inside the first workspace folder. */
  const FileName: string := ".security-notes-breadcrumbs.json"

  datatype PositionRecord = PositionRecord(line: int, character: int)

  datatype RangeRecord = RangeRecord(start: PositionRecord, end: PositionRecord)

  datatype PointRecord = PointRecord(id: string, tag: string, range: RangeRecord, uri: string,
                                     ordinal: int, noteId: Option<string>)

  datatype BreadcrumbRecord = BreadcrumbRecord(id: string, caption: string, points: seq<PointRecord>)

  function SerializePoint(p: BreadcrumbPoint): PointRecord {
    PointRecord(p.id, p.tag,
                RangeRecord(PositionRecord(p.range.start.line, p.range.start.character),
                            PositionRecord(p.range.end.line, p.range.end.character)),
                p.uri, p.ordinal, p.noteId)
  }

  function SerializePoints(ps: seq<BreadcrumbPoint>): (rs: seq<PointRecord>)
    ensures |rs| == |ps| && forall i :: 0 <= i < |ps| ==> rs[i] == SerializePoint(ps[i])
  {
    if ps == [] then [] else SerializePoints(ps[..|ps| - 1]) + [SerializePoint(ps[|ps| - 1])]
  }

  function SerializeValue(v: BreadcrumbValue): BreadcrumbRecord {
    BreadcrumbRecord(v.id, v.caption, SerializePoints(v.points))
  }

  /** The breadcrumbs of the table, as their contents, in table order. */
  function ValuesOf(bs: seq<Breadcrumb>): (vs: seq<BreadcrumbValue>)
    reads set i | 0 <= i < |bs| :: bs[i]
    ensures |vs| == |bs| && forall i :: 0 <= i < |bs| ==> vs[i] == bs[i].Value()
  {
    if bs == [] then [] else ValuesOf(bs[..|bs| - 1]) + [bs[|bs| - 1].Value()]
  }

  function SerializeValues(vs: seq<BreadcrumbValue>): (rs: seq<BreadcrumbRecord>)
    ensures |rs| == |vs| && forall i :: 0 <= i < |vs| ==> rs[i] == SerializeValue(vs[i])
  {
    if vs == [] then [] else SerializeValues(vs[..|vs| - 1]) + [SerializeValue(vs[|vs| - 1])]
  }

  /** `serializeBreadcrumbs`: one record per breadcrumb in table order, each point with its
      id, tag, four range coordinates, uri, ordinal and note id. */
  function SerializeBreadcrumbs(bs: seq<Breadcrumb>): (rs: seq<BreadcrumbRecord>)
    reads set i | 0 <= i < |bs| :: bs[i]
    ensures |rs| == |bs|
    ensures forall i :: 0 <= i < |bs| ==>
              rs[i].id == bs[i].id && rs[i].caption == bs[i].caption && |rs[i].points| == |bs[i].points|
  {
    SerializeValues(ValuesOf(bs))
  }

  /** The point `deserializeBreadcrumbs` builds; the editor refuses negative coordinates. */
  function DecodePoint(r: PointRecord): (p: Result<BreadcrumbPoint>)
    ensures p.Ok? <==> r.range.start.line >= 0 && r.range.start.character >= 0
                       && r.range.end.line >= 0 && r.range.end.character >= 0
  {
    var range :- MakeRange(r.range.start.line, r.range.start.character,
                           r.range.end.line, r.range.end.character);
    Ok(BreadcrumbPoint(r.id, r.tag, range, r.uri, r.ordinal, r.noteId))
  }

  /** Every point of a breadcrumb survives the trip through its record. */
  lemma DecodeSerializedPoint(p: BreadcrumbPoint)
    ensures DecodePoint(SerializePoint(p)) == Ok(p)
  {
  }

  function DecodePoints(rs: seq<PointRecord>): Result<seq<BreadcrumbPoint>> {
    if rs == [] then Ok([])
    else
      var init, last := DecodePoints(rs[..|rs| - 1]), DecodePoint(rs[|rs| - 1]);
      if init.Ok? && last.Ok? then Ok(init.value + [last.value]) else Fault
  }

  /** The points decode exactly when each of them does, one point per record. */
  lemma {:induction false} DecodePointsSpec(rs: seq<PointRecord>)
    ensures DecodePoints(rs).Ok? <==> forall i :: 0 <= i < |rs| ==> DecodePoint(rs[i]).Ok?
    ensures DecodePoints(rs).Ok? ==>
              |DecodePoints(rs).value| == |rs|
              && forall i :: 0 <= i < |rs| ==> DecodePoints(rs).value[i] == DecodePoint(rs[i]).value
  {
    if rs != [] {
      var init := rs[..|rs| - 1];
      DecodePointsSpec(init);
      assert forall i :: 0 <= i < |init| ==> init[i] == rs[i];
    }
  }

  /** The points of a breadcrumb after `addPoint` of each decoded point in turn. */
  function PointsAdded(ps: seq<BreadcrumbPoint>): seq<BreadcrumbPoint> {
    if ps == [] then [] else AddedPoint(PointsAdded(ps[..|ps| - 1]), ps[|ps| - 1])
  }

  /** Rebuilding through `addPoint` sorts the points by ordinal, stably, whatever order
      they were stored in. */
  lemma {:induction false} PointsAddedSorts(ps: seq<BreadcrumbPoint>)
    ensures PointsAdded(ps) == SortBy(ps, Ordinal)
  {
    if ps != [] {
      var init := ps[..|ps| - 1];
      PointsAddedSorts(init);
      AddedPointsSort(init, ps[|ps| - 1]);
      assert init + [ps[|ps| - 1]] == ps;
    }
  }

  function DecodeRecord(r: BreadcrumbRecord): Result<BreadcrumbValue> {
    var ps :- DecodePoints(r.points);
    Ok(BreadcrumbValue(r.id, r.caption, PointsAdded(ps)))
  }

  function DecodeRecords(rs: seq<BreadcrumbRecord>): Result<seq<BreadcrumbValue>> {
    if rs == [] then Ok([])
    else
      var init, last := DecodeRecords(rs[..|rs| - 1]), DecodeRecord(rs[|rs| - 1]);
      if init.Ok? && last.Ok? then Ok(init.value + [last.value]) else Fault
  }

  /** The records decode exactly when each of them does, one breadcrumb per record. */
  lemma {:induction false} DecodeRecordsSpec(rs: seq<BreadcrumbRecord>)
    ensures DecodeRecords(rs).Ok? <==> forall i :: 0 <= i < |rs| ==> DecodeRecord(rs[i]).Ok?
    ensures DecodeRecords(rs).Ok? ==>
              |DecodeRecords(rs).value| == |rs|
              && forall i :: 0 <= i < |rs| ==> DecodeRecords(rs).value[i] == DecodeRecord(rs[i]).value
  {
    if rs != [] {
      var init, last := rs[..|rs| - 1], rs[|rs| - 1];
      DecodeRecordsSpec(init);
      assert forall i :: 0 <= i < |init| ==> init[i] == rs[i];
      var a, b := DecodeRecords(init), DecodeRecord(last);
      assert DecodeRecords(rs) == if a.Ok? && b.Ok? then Ok(a.value + [b.value]) else Fault;
    }
  }

  /** What `deserializeBreadcrumbs` yields: each breadcrumb set under its id in turn, so a
      later record with the same id replaces an earlier one; a rejected point throws. */
  function Deserialized(rs: seq<BreadcrumbRecord>): (m: Result<OMap<BreadcrumbValue>>)
    ensures m.Ok? ==> KeyedBy(m.value, ValueId)
  {
    var vs :- DecodeRecords(rs);
    Ok(FromValues(vs, ValueId))
  }

  /** The contents of a table of breadcrumb objects. */
  function ViewOf(m: OMap<Breadcrumb>): OMap<BreadcrumbValue>
    reads set k | k in m.entries :: m.entries[k]
  {
    OMap(m.keys, map k | k in m.entries :: m.entries[k].Value())
  }

  /** The records of breadcrumbs whose points are sorted decode to those breadcrumbs. */
  lemma DecodeSerializedValue(v: BreadcrumbValue)
    requires SortedBy(v.points, Ordinal)
    ensures DecodeRecord(SerializeValue(v)) == Ok(v)
  {
    var rs := SerializePoints(v.points);
    forall i | 0 <= i < |rs| ensures DecodePoint(rs[i]) == Ok(v.points[i]) {
      DecodeSerializedPoint(v.points[i]);
    }
    DecodePointsSpec(rs);
    assert DecodePoints(rs).value == v.points;
    PointsAddedSorts(v.points);
    SortBySortedIdentity(v.points, Ordinal);
  }

  lemma {:induction false} DecodeSerializedValues(vs: seq<BreadcrumbValue>)
    requires forall i :: 0 <= i < |vs| ==> SortedBy(vs[i].points, Ordinal)
    ensures DecodeRecords(SerializeValues(vs)) == Ok(vs)
  {
    var rs := SerializeValues(vs);
    forall i | 0 <= i < |vs| ensures DecodeRecord(rs[i]) == Ok(vs[i]) {
      DecodeSerializedValue(vs[i]);
    }
    DecodeRecordsSpec(rs);
    assert DecodeRecords(rs).value == vs;
  }

  /** The contents of the table are the contents of its breadcrumbs, under the same keys. */
  lemma ViewOfValues(m: OMap<Breadcrumb>)
    requires KeyedBy(m, BreadcrumbId)
    ensures KeyedBy(ViewOf(m), ValueId)
    ensures ViewOf(m).Values() == ValuesOf(m.Values())
  {
  }

  /** Saving then loading a table whose keys are the ids of its breadcrumbs, each with
      sorted points, gives back the same breadcrumbs under the same keys in the same order. */
  lemma SerializeRoundTrip(m: OMap<Breadcrumb>)
    requires KeyedBy(m, BreadcrumbId)
    requires forall k :: k in m.entries ==> SortedBy(m.entries[k].points, Ordinal)
    ensures Deserialized(SerializeBreadcrumbs(m.Values())) == Ok(ViewOf(m))
  {
    ViewOfValues(m);
    var vs := ValuesOf(m.Values());
    forall i | 0 <= i < |vs| ensures SortedBy(vs[i].points, Ordinal) {
      assert vs[i] == m.entries[m.keys[i]].Value();
    }
    DecodeSerializedValues(vs);
    assert SerializeBreadcrumbs(m.Values()) == SerializeValues(vs);
    FromValuesOfValues(ViewOf(m), ValueId);
    assert Deserialized(SerializeValues(vs)) == Ok(FromValues(vs, ValueId));
  }

  /** One more decoded point extends the decoded prefix, and adding it to the points built
      from the prefix gives the points built from the longer prefix. */
  lemma DecodePointsStep(rs: seq<PointRecord>, j: nat, ps: seq<BreadcrumbPoint>,
                         before: seq<BreadcrumbPoint>, after: seq<BreadcrumbPoint>)
    requires j < |rs| && DecodePoints(rs[..j]) == Ok(ps) && DecodePoint(rs[j]).Ok?
    requires before == PointsAdded(ps) && after == AddedPoint(before, DecodePoint(rs[j]).value)
    ensures DecodePoints(rs[..j + 1]) == Ok(ps + [DecodePoint(rs[j]).value])
    ensures after == PointsAdded(ps + [DecodePoint(rs[j]).value])
  {
    assert rs[..j + 1][..j] == rs[..j];
    assert (ps + [DecodePoint(rs[j]).value])[..|ps|] == ps;
  }

  /** A record decodes exactly when its points do. */
  lemma DecodeRecordOfPoints(r: BreadcrumbRecord)
    ensures DecodeRecord(r).Ok? <==> DecodePoints(r.points).Ok?
    ensures DecodeRecord(r).Ok? ==>
              DecodeRecord(r).value == BreadcrumbValue(r.id, r.caption, PointsAdded(DecodePoints(r.points).value))
  {
  }

  /** A record with a point that does not decode does not decode. */
  lemma DecodeRecordFault(r: BreadcrumbRecord, j: nat)
    requires j < |r.points| && DecodePoint(r.points[j]).Fault?
    ensures DecodeRecord(r).Fault?
  {
    DecodePointsSpec(r.points);
    DecodeRecordOfPoints(r);
  }

  /** The body of the outer loop of `deserializeBreadcrumbs`: a new breadcrumb, with the
      record's points added one by one. */
  method BuildBreadcrumb(item: BreadcrumbRecord) returns (r: Result<Breadcrumb>)
    ensures r.Ok? <==> DecodeRecord(item).Ok?
    ensures r.Ok? ==> fresh(r.value) && r.value.Value() == DecodeRecord(item).value
  {
    var b := new Breadcrumb(item.id, item.caption);
    ghost var ps: seq<BreadcrumbPoint> := [];
    var j := 0;
    while j < |item.points|
      invariant 0 <= j <= |item.points|
      invariant DecodePoints(item.points[..j]) == Ok(ps)
      invariant fresh(b) && b.id == item.id && b.caption == item.caption && b.points == PointsAdded(ps)
    {
      var point := DecodePoint(item.points[j]);
      if point.Fault? {
        DecodeRecordFault(item, j);
        return Fault;
      }
      ghost var before := b.points;
      b.AddPoint(point.value);
      DecodePointsStep(item.points, j, ps, before, b.points);
      ps := ps + [point.value];
      j := j + 1;
    }
    assert item.points[..j] == item.points;
    DecodeRecordOfPoints(item);
    assert DecodeRecord(item) == Ok(b.Value());
    r := Ok(b);
  }

  lemma ViewOfPut(m: OMap<Breadcrumb>, b: Breadcrumb)
    requires m.Valid()
    ensures ViewOf(m.Put(b.id, b)) == ViewOf(m).Put(b.id, b.Value())
  {
  }

  /** Setting one more breadcrumb under its id keeps the table keyed by id, and its
      contents are the decoded breadcrumbs so far with that one set last. */
  lemma TableStep(m: OMap<Breadcrumb>, vs: seq<BreadcrumbValue>, b: Breadcrumb)
    requires KeyedBy(m, BreadcrumbId) && ViewOf(m) == FromValues(vs, ValueId)
    ensures KeyedBy(m.Put(b.id, b), BreadcrumbId)
    ensures ViewOf(m.Put(b.id, b)) == FromValues(vs + [b.Value()], ValueId)
  {
    ViewOfPut(m, b);
    assert (vs + [b.Value()])[..|vs|] == vs;
  }

  /** One more record that decodes extends the decoded breadcrumbs by its breadcrumb. */
  lemma DecodeRecordsStep(rs: seq<BreadcrumbRecord>, i: nat, vs: seq<BreadcrumbValue>, v: BreadcrumbValue)
    requires i < |rs| && DecodeRecords(rs[..i]) == Ok(vs) && DecodeRecord(rs[i]) == Ok(v)
    ensures DecodeRecords(rs[..i + 1]) == Ok(vs + [v])
  {
    assert rs[..i + 1][..i] == rs[..i];
  }

  /** `deserializeBreadcrumbs`: for each record a new breadcrumb, its points added one by
      one, set into a new table under its id. */
  method DeserializeBreadcrumbs(rs: seq<BreadcrumbRecord>) returns (r: Result<OMap<Breadcrumb>>)
    ensures r.Ok? <==> Deserialized(rs).Ok?
    ensures r.Ok? ==> KeyedBy(r.value, BreadcrumbId) && ViewOf(r.value) == Deserialized(rs).value
    ensures r.Ok? ==> forall k :: k in r.value.entries ==> fresh(r.value.entries[k])
  {
    var m: OMap<Breadcrumb> := Empty();
    ghost var vs: seq<BreadcrumbValue> := [];
    var i := 0;
    while i < |rs|
      invariant 0 <= i <= |rs|
      invariant DecodeRecords(rs[..i]) == Ok(vs)
      invariant KeyedBy(m, BreadcrumbId) && ViewOf(m) == FromValues(vs, ValueId)
      invariant forall k :: k in m.entries ==> fresh(m.entries[k])
    {
      var b := BuildBreadcrumb(rs[i]);
      if b.Fault? {
        DecodeRecordsSpec(rs);
        return Fault;
      }
      TableStep(m, vs, b.value);
      DecodeRecordsStep(rs, i, vs, b.value.Value());
      vs := vs + [b.value.Value()];
      m := m.Put(b.value.id, b.value);
      i := i + 1;
    }
    assert rs[..i] == rs;
    r := Ok(m);
  }

  /** What `saveBreadcrumbsToFile` does. */
  datatype SaveAction = ReportNoWorkspace | Write(path: string, records: seq<BreadcrumbRecord>)

  /** Without a workspace folder nothing is written and an error is shown; otherwise the
      records go to the breadcrumb file of the first folder. */
  function SaveBreadcrumbs(workspace: Option<string>, bs: seq<Breadcrumb>): (a: SaveAction)
    reads set i | 0 <= i < |bs| :: bs[i]
    ensures a.ReportNoWorkspace? <==> workspace.None?
    ensures a.Write? ==> a.path == JoinPath(workspace.value, FileName)
                         && a.records == SerializeBreadcrumbs(bs)
  {
    match workspace
    case None => ReportNoWorkspace
    case Some(root) => Write(JoinPath(root, FileName), SerializeBreadcrumbs(bs))
  }

  /** `loadBreadcrumbsFromFile`: an empty table without a workspace, without the file,
      when the text does not parse, or when building a point throws. */
  method LoadBreadcrumbs(workspace: Option<string>, fileExists: bool,
                         parsed: Result<seq<BreadcrumbRecord>>) returns (m: OMap<Breadcrumb>)
    ensures KeyedBy(m, BreadcrumbId)
    ensures workspace.None? || !fileExists || parsed.Fault? ==> m == Empty()
    ensures workspace.Some? && fileExists && parsed.Ok? ==>
              if Deserialized(parsed.value).Ok? then ViewOf(m) == Deserialized(parsed.value).value
              else m == Empty()
  {
    if workspace.None? || !fileExists || parsed.Fault? {
      return Empty();
    }
    var r := DeserializeBreadcrumbs(parsed.value);
    if r.Fault? {
      return Empty();
    }
    m := r.value;
  }
}
