/** The note file format (`src/persistence/serialization/serializer.ts` and
    `deserializer.ts`): every note thread as a record with its lines, its path relative to
    the workspace, its key and its comments; reading builds new threads and comments from
    the records. The JSON text itself is outside the model: records are given as values. */
module NoteSerialization {
  import opened Wrappers
  import opened Editor
  import opened Text
  import opened Paths
  import opened OrderedMap
  import opened Notes

  /** What the paths of a record depend on: the platform, the folder of the extension
      (the base of icon paths) and the workspace folder (the base of note paths). */
  datatype Host = Host(platform: Platform, extensionPath: string, workspace: Option<string>)

  datatype ReactionRecord = ReactionRecord(count: int, iconPath: string, caption: string)

  /** A comment as stored; a file written by this format always has the timestamp. */
  datatype CommentRecord = CommentRecord(author: string, body: string,
                                         reactions: seq<ReactionRecord>, timestamp: Option<nat>)

  datatype RangeRecord = RangeRecord(startLine: int, endLine: int)

  datatype ThreadRecord = ThreadRecord(range: RangeRecord, uri: string,
                                       comments: seq<CommentRecord>, id: Option<string>)

  /** A path as written: made relative to `base`, with POSIX separators on Windows. */
  function StoredPath(path: string, base: Option<string>, h: Host): string {
    var rel := FullPathToRelative(path, base, h.workspace);
    if h.platform == Windows then PathToPosix(rel, h.platform.Sep()) else rel
  }

  /** A path as read back: joined to `base`; `pathToWin32` afterwards changes nothing. */
  function LoadedPath(path: string, base: Option<string>, h: Host): string {
    var full := RelativePathToFull(path, base, h.workspace);
    if h.platform == Windows then PathToWin32(full) else full
  }

  /** A stored path read back and written again comes out as it was, with every `\`
      turned into `/` on Windows. */
  lemma StoredPathOfLoaded(path: string, base: Option<string>, h: Host)
    ensures StoredPath(LoadedPath(path, base, h), base, h)
            == if h.platform == Windows then ReplaceChar(path, '\\', '/') else path
  {
    var full := RelativePathToFull(path, base, h.workspace);
    PathToWin32Identity(full);
    PathConversionsInverse(path, base, h.workspace);
    PathToPosixReplaces(path, '\\');
  }

  /** On POSIX a full path inside the base, written and read back, is unchanged. */
  lemma LoadedPathOfStored(path: string, base: Option<string>, h: Host)
    requires h.platform == Posix && Within(BaseOf(base, h.workspace), path)
    ensures LoadedPath(StoredPath(path, base, h), base, h) == path
  {
    PathConversionsInverse(path, base, h.workspace);
  }

  /** `serializeReaction`: count and label, and the icon path relative to the extension;
      whether the author reacted is dropped. */
  function SerializeReaction(r: Reaction, h: Host): (rec: ReactionRecord)
    ensures rec.count == r.count && rec.caption == r.caption
    ensures h.platform == Windows ==> '\\' !in rec.iconPath
  {
    PathToPosixReplaces(FullPathToRelative(r.iconPath, Some(h.extensionPath), h.workspace), '\\');
    ReactionRecord(r.count, StoredPath(r.iconPath, Some(h.extensionPath), h), r.caption)
  }

  /** `deserializeReaction`: count and label kept, the icon path made full, and no
      reaction of the author. */
  function DeserializeReaction(rec: ReactionRecord, h: Host): (r: Reaction)
    ensures r.count == rec.count && r.caption == rec.caption && !r.authorHasReacted
  {
    Reaction(rec.caption, rec.count, false, LoadedPath(rec.iconPath, Some(h.extensionPath), h))
  }

  function SerializeReactions(rs: seq<Reaction>, h: Host): (recs: seq<ReactionRecord>)
    ensures |recs| == |rs| && forall i :: 0 <= i < |rs| ==> recs[i] == SerializeReaction(rs[i], h)
  {
    if rs == [] then [] else SerializeReactions(rs[..|rs| - 1], h) + [SerializeReaction(rs[|rs| - 1], h)]
  }

  function DeserializeReactions(recs: seq<ReactionRecord>, h: Host): (rs: seq<Reaction>)
    ensures |rs| == |recs| && forall i :: 0 <= i < |recs| ==> rs[i] == DeserializeReaction(recs[i], h)
  {
    if recs == [] then []
    else DeserializeReactions(recs[..|recs| - 1], h) + [DeserializeReaction(recs[|recs| - 1], h)]
  }

  /** `serializeRange`: the start and end lines; the columns are not kept. */
  function SerializeRange(r: Range): RangeRecord {
    RangeRecord(r.start.line, r.end.line)
  }

  /** `deserializeRange`: the lines at column 0; a negative line throws. */
  function DeserializeRange(rec: RangeRecord): (r: Result<Range>)
    ensures r.Ok? <==> rec.startLine >= 0 && rec.endLine >= 0
    ensures r.Ok? ==> r.value.start.character == 0 && r.value.end.character == 0
                      && SerializeRange(r.value) == rec
  {
    MakeRange(rec.startLine, 0, rec.endLine, 0)
  }

  /** Writing and reading a range keeps its lines and moves both ends to column 0. */
  lemma RangeRoundTrip(r: Range)
    ensures DeserializeRange(SerializeRange(r)) == Ok(Range(Position(r.start.line, 0), Position(r.end.line, 0)))
  {
  }

  /** The record `serializeComment` makes of a comment. */
  function CommentRecordOf(c: NoteComment, h: Host): CommentRecord
    reads c
  {
    CommentRecord(c.author, c.body, SerializeReactions(c.reactions, h), Some(c.timestamp))
  }

  function CommentRecords(cs: seq<NoteComment>, h: Host): (recs: seq<CommentRecord>)
    reads cs
    ensures |recs| == |cs| && forall i :: 0 <= i < |cs| ==> recs[i] == CommentRecordOf(cs[i], h)
  {
    if cs == [] then [] else CommentRecords(cs[..|cs| - 1], h) + [CommentRecordOf(cs[|cs| - 1], h)]
  }

  /** The record `serializeThread` makes of a thread. */
  function ThreadRecordOf(t: NoteThread, h: Host): ThreadRecord
    reads t, t.comments
  {
    ThreadRecord(SerializeRange(t.range), StoredPath(t.uri, None, h), CommentRecords(t.comments, h),
                 t.contextValue)
  }

  /** `serializeComment`: author name, body, timestamp, and the reactions one by one. */
  method SerializeComment(c: NoteComment, h: Host) returns (rec: CommentRecord)
    ensures rec == CommentRecordOf(c, h)
  {
    var reactions: seq<ReactionRecord> := [];
    var i := 0;
    while i < |c.reactions|
      invariant 0 <= i <= |c.reactions|
      invariant reactions == SerializeReactions(c.reactions[..i], h)
    {
      assert c.reactions[..i + 1][..i] == c.reactions[..i];
      reactions := reactions + [SerializeReaction(c.reactions[i], h)];
      i := i + 1;
    }
    assert c.reactions[..i] == c.reactions;
    rec := CommentRecord(c.author, c.body, reactions, Some(c.timestamp));
  }

  /** `serializeThread`: the lines, the relative path, the key as `id`, and the comments
      one for one in order. */
  method SerializeThread(t: NoteThread, h: Host) returns (rec: ThreadRecord)
    ensures rec == ThreadRecordOf(t, h)
  {
    var comments: seq<CommentRecord> := [];
    var i := 0;
    while i < |t.comments|
      invariant 0 <= i <= |t.comments| && |comments| == i
      invariant forall j :: 0 <= j < i ==> comments[j] == CommentRecordOf(t.comments[j], h)
    {
      var c := SerializeComment(t.comments[i], h);
      comments := comments + [c];
      i := i + 1;
    }
    assert comments == CommentRecords(t.comments, h);
    rec := ThreadRecord(SerializeRange(t.range), StoredPath(t.uri, None, h), comments, t.contextValue);
  }

  /** The loop of `serialize`: the records of the notes one by one. */
  method SerializeThreads(ts: seq<NoteThread>, h: Host) returns (recs: seq<ThreadRecord>)
    ensures |recs| == |ts| && forall i :: 0 <= i < |ts| ==> recs[i] == ThreadRecordOf(ts[i], h)
  {
    recs := [];
    var i := 0;
    while i < |ts|
      invariant 0 <= i <= |ts| && |recs| == i
      invariant forall j :: 0 <= j < i ==> recs[j] == old(ThreadRecordOf(ts[j], h))
    {
      var rec := SerializeThread(ts[i], h);
      recs := recs + [rec];
      i := i + 1;
    }
  }

  /** `serialize`: one record per note of the map, in the map's order. */
  method Serialize(noteMap: NoteMap, h: Host) returns (recs: seq<ThreadRecord>)
    requires noteMap.notes.Valid()
    ensures |recs| == |noteMap.notes.keys|
    ensures forall i :: 0 <= i < |recs| ==> recs[i] == ThreadRecordOf(noteMap.notes.Values()[i], h)
  {
    recs := SerializeThreads(noteMap.notes.Values(), h);
  }

  /** `c` is the comment `deserializeComment` builds from `rec` under `parent`. */
  ghost predicate CommentBuiltFrom(c: NoteComment, rec: CommentRecord, parent: NoteThread, h: Host, now: nat)
    reads c
  {
    c.body == rec.body && c.savedBody == rec.body && c.mode == Preview && c.author == rec.author
    && c.parent == parent && c.reactions == DeserializeReactions(rec.reactions, h)
    && c.contextValue == None && c.timestamp == rec.timestamp.GetOr(now)
  }

  /** `t` is the thread `deserializeThread` builds from `rec`. */
  ghost predicate ThreadBuiltFrom(t: NoteThread, rec: ThreadRecord, h: Host, now: nat)
    reads t, t.comments
  {
    t.uri == LoadedPath(rec.uri, None, h) && DeserializeRange(rec.range) == Ok(t.range)
    && t.contextValue == rec.id && !t.disposed && |t.comments| == |rec.comments|
    && forall i :: 0 <= i < |rec.comments| ==> CommentBuiltFrom(t.comments[i], rec.comments[i], t, h, now)
  }

  /** `deserializeComment`: a new comment in preview mode with the record's body, author,
      reactions and timestamp (the current time without one), and no key. */
  method DeserializeComment(rec: CommentRecord, parent: NoteThread, h: Host, counter: CommentCounter, now: nat)
    returns (c: NoteComment)
    modifies counter
    ensures fresh(c) && CommentBuiltFrom(c, rec, parent, h, now)
    ensures c.id == old(counter.last) + 1 && counter.last == c.id
  {
    var reactions: seq<Reaction> := [];
    var i := 0;
    while i < |rec.reactions|
      invariant 0 <= i <= |rec.reactions|
      invariant reactions == DeserializeReactions(rec.reactions[..i], h)
    {
      assert rec.reactions[..i + 1][..i] == rec.reactions[..i];
      reactions := reactions + [DeserializeReaction(rec.reactions[i], h)];
      i := i + 1;
    }
    assert rec.reactions[..i] == rec.reactions;
    c := new NoteComment(rec.body, Preview, rec.author, parent, reactions, None, rec.timestamp, now, counter);
  }

  /** `deserializeThread`: a new thread at the full path and the record's lines, keyed by
      the record's `id`, holding one new comment per record in order, with consecutive ids.
      A negative line throws before anything is built. */
  method DeserializeThread(rec: ThreadRecord, h: Host, counter: CommentCounter, now: nat)
    returns (r: Result<NoteThread>)
    modifies counter
    ensures r.Fault? <==> DeserializeRange(rec.range).Fault?
    ensures r.Fault? ==> counter.last == old(counter.last)
    ensures r.Ok? ==> fresh(r.value) && ThreadBuiltFrom(r.value, rec, h, now)
                      && counter.last == old(counter.last) + |rec.comments|
                      && forall i :: 0 <= i < |rec.comments| ==>
                           fresh(r.value.comments[i]) && r.value.comments[i].id == old(counter.last) + 1 + i
  {
    var range := DeserializeRange(rec.range);
    if range.Fault? {
      return Fault;
    }
    var t := new NoteThread(LoadedPath(rec.uri, None, h), range.value);
    t.contextValue := rec.id;
    var cs: seq<NoteComment> := [];
    var i := 0;
    while i < |rec.comments|
      invariant 0 <= i <= |rec.comments| && |cs| == i
      invariant t.uri == LoadedPath(rec.uri, None, h) && t.range == range.value
      invariant t.contextValue == rec.id && !t.disposed
      invariant counter.last == old(counter.last) + i
      invariant forall j :: 0 <= j < i ==>
                  fresh(cs[j]) && cs[j].id == old(counter.last) + 1 + j
                  && CommentBuiltFrom(cs[j], rec.comments[j], t, h, now)
    {
      var c := DeserializeComment(rec.comments[i], t, h, counter, now);
      cs := cs + [c];
      i := i + 1;
    }
    t.comments := cs;
    r := Ok(t);
  }

  /** `deserialize`: one new thread per record, in order; a record that throws stops the
      whole read. */
  method Deserialize(recs: seq<ThreadRecord>, h: Host, counter: CommentCounter, now: nat)
    returns (r: Result<seq<NoteThread>>)
    modifies counter
    ensures r.Ok? <==> forall i :: 0 <= i < |recs| ==> DeserializeRange(recs[i].range).Ok?
    ensures r.Ok? ==> |r.value| == |recs|
                      && forall i :: 0 <= i < |recs| ==> fresh(r.value[i]) && ThreadBuiltFrom(r.value[i], recs[i], h, now)
  {
    var ts: seq<NoteThread> := [];
    var i := 0;
    while i < |recs|
      invariant 0 <= i <= |recs| && |ts| == i
      invariant forall j :: 0 <= j < i ==> DeserializeRange(recs[j].range).Ok?
      invariant forall j :: 0 <= j < i ==> fresh(ts[j]) && ThreadBuiltFrom(ts[j], recs[j], h, now)
    {
      var t := DeserializeThread(recs[i], h, counter, now);
      if t.Fault? {
        return Fault;
      }
      ts := ts + [t.value];
      i := i + 1;
    }
    r := Ok(ts);
  }

  /** A record as it is written again after reading: timestamps filled in with the time
      of reading and, on Windows, `/` for every `\` in the paths. */
  function Normalized(rec: ThreadRecord, h: Host, now: nat): ThreadRecord {
    rec.(uri := PosixSeparators(rec.uri, h),
         comments := seq(|rec.comments|, i requires 0 <= i < |rec.comments| =>
                           var c := rec.comments[i];
                           c.(reactions := seq(|c.reactions|, k requires 0 <= k < |c.reactions| =>
                                                 c.reactions[k].(iconPath := PosixSeparators(c.reactions[k].iconPath, h))),
                              timestamp := Some(c.timestamp.GetOr(now)))))
  }

  function PosixSeparators(path: string, h: Host): string {
    if h.platform == Windows then ReplaceChar(path, '\\', '/') else path
  }

  /** Reading a record and writing the thread again gives the record back, normalised. */
  lemma RecordRoundTrip(t: NoteThread, rec: ThreadRecord, h: Host, now: nat)
    requires ThreadBuiltFrom(t, rec, h, now)
    ensures ThreadRecordOf(t, h) == Normalized(rec, h, now)
  {
    StoredPathOfLoaded(rec.uri, None, h);
    var out := ThreadRecordOf(t, h);
    var norm := Normalized(rec, h, now);
    forall i | 0 <= i < |rec.comments| ensures out.comments[i] == norm.comments[i] {
      var c := rec.comments[i];
      var rs := SerializeReactions(DeserializeReactions(c.reactions, h), h);
      forall k | 0 <= k < |c.reactions| ensures rs[k] == norm.comments[i].reactions[k] {
        StoredPathOfLoaded(c.reactions[k].iconPath, Some(h.extensionPath), h);
      }
    }
  }

  /** The reactions as read back: none of them by the author. */
  function Unreacted(rs: seq<Reaction>): (r: seq<Reaction>)
    ensures |r| == |rs| && forall k :: 0 <= k < |rs| ==> r[k] == rs[k].(authorHasReacted := false)
  {
    seq(|rs|, k requires 0 <= k < |rs| => rs[k].(authorHasReacted := false))
  }

  /** Writing a thread and reading it back on POSIX, with its paths inside their bases:
      the path, the lines and the key survive, the columns become 0, and each comment keeps
      its body, author, timestamp and reactions, but no longer counts as reacted by the
      author, is in preview mode and has no key. */
  lemma ThreadRoundTrip(t: NoteThread, back: NoteThread, h: Host, now: nat)
    requires h.platform == Posix && Within(BaseOf(None, h.workspace), t.uri)
    requires forall i, k :: 0 <= i < |t.comments| && 0 <= k < |t.comments[i].reactions| ==>
               Within(BaseOf(Some(h.extensionPath), h.workspace), t.comments[i].reactions[k].iconPath)
    requires ThreadBuiltFrom(back, ThreadRecordOf(t, h), h, now)
    ensures back.uri == t.uri && back.contextValue == t.contextValue
    ensures back.range == Range(Position(t.range.start.line, 0), Position(t.range.end.line, 0))
    ensures |back.comments| == |t.comments|
    ensures forall i :: 0 <= i < |t.comments| ==>
              var c, d := t.comments[i], back.comments[i];
              d.body == c.body && d.author == c.author && d.timestamp == c.timestamp
              && d.reactions == Unreacted(c.reactions)
              && d.mode == Preview && d.contextValue == None && d.parent == back
  {
    LoadedPathOfStored(t.uri, None, h);
    forall i | 0 <= i < |t.comments|
      ensures back.comments[i].reactions == Unreacted(t.comments[i].reactions)
    {
      ReactionsRoundTrip(t.comments[i].reactions, h);
    }
  }

  /** Writing reactions and reading them back on POSIX, with their icons inside the
      extension: each keeps its label, count and icon, but not the author's reaction. */
  lemma ReactionsRoundTrip(rs: seq<Reaction>, h: Host)
    requires h.platform == Posix
    requires forall k :: 0 <= k < |rs| ==> Within(BaseOf(Some(h.extensionPath), h.workspace), rs[k].iconPath)
    ensures DeserializeReactions(SerializeReactions(rs, h), h) == Unreacted(rs)
  {
    forall k | 0 <= k < |rs|
      ensures DeserializeReaction(SerializeReaction(rs[k], h), h) == rs[k].(authorHasReacted := false)
    {
      LoadedPathOfStored(rs[k].iconPath, Some(h.extensionPath), h);
    }
  }
}
