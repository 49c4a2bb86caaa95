/** The trail file (`src/persistence/local-db/breadcrumbs.ts`): the store's snapshot written
    as JSON, with crumb paths relative to the workspace, and read back. The JSON text and the
    file system are outside the model: a load is given whether the file exists and the
    parsed state, or `Fault` when reading or parsing throws. */
module TrailFile {
  import opened Wrappers
  import opened Editor
  import opened Paths
  import opened OrderedMap
  import opened TrailStore

  datatype PersistedRange = PersistedRange(startLine: int, startCharacter: int,
                                           endLine: int, endCharacter: int)

  /** A crumb as stored; `uri` is relative to the workspace folder. */
  datatype PersistedCrumb = PersistedCrumb(id: string, trailId: string, uri: string,
                                           range: PersistedRange, snippet: string,
                                           note: Option<string>, createdAt: nat)

  datatype PersistedTrail = PersistedTrail(id: string, name: string, description: Option<string>,
                                           createdAt: nat, updatedAt: nat,
                                           crumbs: seq<PersistedCrumb>)

  datatype PersistedState = PersistedState(activeTrailId: Option<string>, trails: seq<PersistedTrail>)

  /** `serializeRange`: the four coordinates. */
  function SerializeRange(r: Range): PersistedRange {
    PersistedRange(r.start.line, r.start.character, r.end.line, r.end.character)
  }

  /** `deserializeRange`: the editor range of the four coordinates; a negative one throws. */
  function DeserializeRange(p: PersistedRange): (r: Result<Range>)
    ensures r.Ok? <==> p.startLine >= 0 && p.startCharacter >= 0 && p.endLine >= 0 && p.endCharacter >= 0
    ensures r.Ok? ==> SerializeRange(r.value) == p
  {
    MakeRange(p.startLine, p.startCharacter, p.endLine, p.endCharacter)
  }

  /** `serializeCrumb`: the crumb with its path made relative to the workspace. */
  function SerializeCrumb(c: Crumb, workspace: Option<string>): PersistedCrumb {
    PersistedCrumb(c.id, c.trailId, FullPathToRelative(c.uri, None, workspace),
                   SerializeRange(c.range), c.snippet, c.note, c.createdAt)
  }

  /** `deserializeCrumb`: the crumb with its path made full again. */
  function DeserializeCrumb(p: PersistedCrumb, workspace: Option<string>): (r: Result<Crumb>)
    ensures r.Ok? <==> DeserializeRange(p.range).Ok?
  {
    var range :- DeserializeRange(p.range);
    Ok(Crumb(p.id, p.trailId, RelativePathToFull(p.uri, None, workspace), range,
             p.snippet, p.note, p.createdAt))
  }

  function SerializeCrumbs(cs: seq<Crumb>, workspace: Option<string>): (ps: seq<PersistedCrumb>)
    ensures |ps| == |cs| && forall i :: 0 <= i < |cs| ==> ps[i] == SerializeCrumb(cs[i], workspace)
  {
    if cs == [] then [] else SerializeCrumbs(cs[..|cs| - 1], workspace) + [SerializeCrumb(cs[|cs| - 1], workspace)]
  }

  /** `crumbs.map(deserializeCrumb)`: throws when any crumb does. */
  function DeserializeCrumbs(ps: seq<PersistedCrumb>, workspace: Option<string>): (r: Result<seq<Crumb>>)
    ensures r.Ok? <==> forall i :: 0 <= i < |ps| ==> DeserializeCrumb(ps[i], workspace).Ok?
    ensures r.Ok? ==> |r.value| == |ps|
                      && forall i :: 0 <= i < |ps| ==> r.value[i] == DeserializeCrumb(ps[i], workspace).value
  {
    if ps == [] then Ok([])
    else
      match (DeserializeCrumbs(ps[..|ps| - 1], workspace), DeserializeCrumb(ps[|ps| - 1], workspace))
      case (Ok(init), Ok(last)) => Ok(init + [last])
      case _ => Fault
  }

  /** `serializeTrail`. */
  function SerializeTrail(t: Trail, workspace: Option<string>): PersistedTrail {
    PersistedTrail(t.id, t.name, t.description, t.createdAt, t.updatedAt,
                   SerializeCrumbs(t.crumbs, workspace))
  }

  /** `deserializeTrail`. */
  function DeserializeTrail(p: PersistedTrail, workspace: Option<string>): (r: Result<Trail>)
    ensures r.Ok? <==> DeserializeCrumbs(p.crumbs, workspace).Ok?
  {
    var crumbs :- DeserializeCrumbs(p.crumbs, workspace);
    Ok(Trail(p.id, p.name, p.description, p.createdAt, p.updatedAt, crumbs))
  }

  function SerializeTrails(ts: seq<Trail>, workspace: Option<string>): (ps: seq<PersistedTrail>)
    ensures |ps| == |ts| && forall i :: 0 <= i < |ts| ==> ps[i] == SerializeTrail(ts[i], workspace)
  {
    if ts == [] then [] else SerializeTrails(ts[..|ts| - 1], workspace) + [SerializeTrail(ts[|ts| - 1], workspace)]
  }

  function DeserializeTrails(ps: seq<PersistedTrail>, workspace: Option<string>): (r: Result<seq<Trail>>)
    ensures r.Ok? <==> forall i :: 0 <= i < |ps| ==> DeserializeTrail(ps[i], workspace).Ok?
    ensures r.Ok? ==> |r.value| == |ps|
                      && forall i :: 0 <= i < |ps| ==> r.value[i] == DeserializeTrail(ps[i], workspace).value
  {
    if ps == [] then Ok([])
    else
      match (DeserializeTrails(ps[..|ps| - 1], workspace), DeserializeTrail(ps[|ps| - 1], workspace))
      case (Ok(init), Ok(last)) => Ok(init + [last])
      case _ => Fault
  }

  /** The state `saveBreadcrumbsToFile` writes. */
  function SerializeState(st: BreadcrumbState, workspace: Option<string>): PersistedState {
    PersistedState(st.activeTrailId, SerializeTrails(st.trails, workspace))
  }

  /** The state `loadBreadcrumbsFromFile` returns for a parsed file; the active id is taken
      as stored whether or not it names a trail. */
  function DeserializeState(p: PersistedState, workspace: Option<string>): (r: Result<BreadcrumbState>)
    ensures r.Ok? <==> DeserializeTrails(p.trails, workspace).Ok?
    ensures r.Ok? ==> r.value.activeTrailId == p.activeTrailId && |r.value.trails| == |p.trails|
  {
    var trails :- DeserializeTrails(p.trails, workspace);
    Ok(BreadcrumbState(p.activeTrailId, trails))
  }

  function EmptyState(): BreadcrumbState {
    BreadcrumbState(None, [])
  }

  /** Every crumb path of the state lies in the workspace folder. */
  predicate InWorkspace(st: BreadcrumbState, workspace: Option<string>) {
    forall i, j :: 0 <= i < |st.trails| && 0 <= j < |st.trails[i].crumbs| ==>
      Within(WorkspacePath(workspace), st.trails[i].crumbs[j].uri)
  }

  /** Saving rebuilds a range exactly. */
  lemma RangeRoundTrip(r: Range)
    ensures DeserializeRange(SerializeRange(r)) == Ok(r)
  {
  }

  /** A crumb whose path lies in the workspace is read back as it was written. */
  lemma CrumbRoundTrip(c: Crumb, workspace: Option<string>)
    requires Within(WorkspacePath(workspace), c.uri)
    ensures DeserializeCrumb(SerializeCrumb(c, workspace), workspace) == Ok(c)
  {
    PathConversionsInverse(c.uri, None, workspace);
  }

  /** A stored crumb that can be read is written back as it was stored. */
  lemma PersistedCrumbRoundTrip(p: PersistedCrumb, workspace: Option<string>)
    requires DeserializeCrumb(p, workspace).Ok?
    ensures SerializeCrumb(DeserializeCrumb(p, workspace).value, workspace) == p
  {
    PathConversionsInverse(p.uri, None, workspace);
  }

  lemma TrailRoundTrip(t: Trail, workspace: Option<string>)
    requires forall j :: 0 <= j < |t.crumbs| ==> Within(WorkspacePath(workspace), t.crumbs[j].uri)
    ensures DeserializeTrail(SerializeTrail(t, workspace), workspace) == Ok(t)
  {
    var ps := SerializeCrumbs(t.crumbs, workspace);
    forall j | 0 <= j < |t.crumbs| ensures DeserializeCrumb(ps[j], workspace) == Ok(t.crumbs[j]) {
      CrumbRoundTrip(t.crumbs[j], workspace);
    }
    assert DeserializeCrumbs(ps, workspace).value == t.crumbs;
  }

  /** Saving then loading gives back the snapshot when every crumb path lies in the
      workspace folder. */
  lemma StateRoundTrip(st: BreadcrumbState, workspace: Option<string>)
    requires InWorkspace(st, workspace)
    ensures DeserializeState(SerializeState(st, workspace), workspace) == Ok(st)
  {
    var ps := SerializeTrails(st.trails, workspace);
    forall i | 0 <= i < |st.trails| ensures DeserializeTrail(ps[i], workspace) == Ok(st.trails[i]) {
      TrailRoundTrip(st.trails[i], workspace);
    }
    assert DeserializeTrails(ps, workspace).value == st.trails;
  }

  /** `saveBreadcrumbsToFile`: nothing is written when there is no file yet and no trail;
      otherwise the snapshot of the store, in insertion order. */
  method SaveBreadcrumbs(store: BreadcrumbStore, fileExists: bool, workspace: Option<string>)
    returns (written: Option<PersistedState>)
    requires store.Valid()
    ensures written.None? <==> !fileExists && store.trails.keys == []
    ensures written.Some? ==>
              written.value == SerializeState(BreadcrumbState(store.activeTrailId, store.trails.Values()), workspace)
  {
    var state := store.GetState();
    if !fileExists && |state.trails| == 0 {
      return None;
    }
    assert state.trails == store.trails.Values();
    written := Some(SerializeState(state, workspace));
  }

  /** What `loadBreadcrumbsFromFile` returns, and whether it showed an error message. */
  datatype Loaded = Loaded(state: BreadcrumbState, reportedError: bool)

  /** `loadBreadcrumbsFromFile`: an empty state without the file; an empty state and an
      error message when reading, parsing or rebuilding a range throws. */
  function LoadBreadcrumbs(fileExists: bool, parsed: Result<PersistedState>, workspace: Option<string>): (r: Loaded)
    ensures !fileExists ==> r == Loaded(EmptyState(), false)
    ensures fileExists ==>
              (r.reportedError <==> parsed.Fault? || DeserializeState(parsed.value, workspace).Fault?)
    ensures r.reportedError ==> r.state == EmptyState()
    ensures fileExists && !r.reportedError ==> Ok(r.state) == DeserializeState(parsed.value, workspace)
  {
    if !fileExists then Loaded(EmptyState(), false)
    else if parsed.Fault? then Loaded(EmptyState(), true)
    else
      match DeserializeState(parsed.value, workspace)
      case Ok(st) => Loaded(st, false)
      case Fault => Loaded(EmptyState(), true)
  }

  /** What is saved is loaded back unchanged, without an error, while the crumb paths lie
      in the workspace folder. */
  lemma SaveLoadRoundTrip(st: BreadcrumbState, workspace: Option<string>)
    requires InWorkspace(st, workspace)
    ensures LoadBreadcrumbs(true, Ok(SerializeState(st, workspace)), workspace) == Loaded(st, false)
  {
    StateRoundTrip(st, workspace);
  }
}
