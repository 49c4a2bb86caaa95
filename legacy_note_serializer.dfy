/** The first note file format (`src/persistence/serializer.ts` and
    `src/persistence/deserializer.ts`): the same records without a thread key, with the
    paths stored as they are, and read back without timestamps. Producing the JSON text is
    outside the model: the records are given as values. */
module LegacyNoteSerialization {
  import opened Wrappers
  import opened Editor
  import opened Notes
  import NS = NoteSerialization

  datatype ThreadRecord = ThreadRecord(range: NS.RangeRecord, uri: string, comments: seq<NS.CommentRecord>)

  /** `serializeReaction`: count, icon path and label as they are. */
  function SerializeReaction(r: Reaction): (rec: NS.ReactionRecord)
    ensures rec.count == r.count && rec.iconPath == r.iconPath && rec.caption == r.caption
  {
    NS.ReactionRecord(r.count, r.iconPath, r.caption)
  }

  /** `deserializeReaction`: count, icon path and label as stored, not reacted by the author. */
  function DeserializeReaction(rec: NS.ReactionRecord): (r: Reaction)
    ensures r.count == rec.count && r.iconPath == rec.iconPath && r.caption == rec.caption
    ensures !r.authorHasReacted
  {
    Reaction(rec.caption, rec.count, false, rec.iconPath)
  }

  /** Reading a reaction record gives back the record when written again. */
  lemma ReactionRecordRoundTrip(rec: NS.ReactionRecord)
    ensures SerializeReaction(DeserializeReaction(rec)) == rec
  {
  }

  function SerializeReactions(rs: seq<Reaction>): (recs: seq<NS.ReactionRecord>)
    ensures |recs| == |rs| && forall i :: 0 <= i < |rs| ==> recs[i] == SerializeReaction(rs[i])
  {
    if rs == [] then [] else SerializeReactions(rs[..|rs| - 1]) + [SerializeReaction(rs[|rs| - 1])]
  }

  function DeserializeReactions(recs: seq<NS.ReactionRecord>): (rs: seq<Reaction>)
    ensures |rs| == |recs| && forall i :: 0 <= i < |recs| ==> rs[i] == DeserializeReaction(recs[i])
  {
    if recs == [] then [] else DeserializeReactions(recs[..|recs| - 1]) + [DeserializeReaction(recs[|recs| - 1])]
  }

  /** The record `serializeComment` makes of a comment. */
  function CommentRecordOf(c: NoteComment): NS.CommentRecord
    reads c
  {
    NS.CommentRecord(c.author, c.body, SerializeReactions(c.reactions), Some(c.timestamp))
  }

  function CommentRecords(cs: seq<NoteComment>): (recs: seq<NS.CommentRecord>)
    reads cs
    ensures |recs| == |cs| && forall i :: 0 <= i < |cs| ==> recs[i] == CommentRecordOf(cs[i])
  {
    if cs == [] then [] else CommentRecords(cs[..|cs| - 1]) + [CommentRecordOf(cs[|cs| - 1])]
  }

  /** The record `serializeThread` makes of a thread: the lines, the path as it is, and
      the comments; the thread's key is not written. */
  function ThreadRecordOf(t: NoteThread): ThreadRecord
    reads t, t.comments
  {
    ThreadRecord(NS.SerializeRange(t.range), t.uri, CommentRecords(t.comments))
  }

  /** `serializeComment`: author name, body, timestamp, and the reactions one by one. */
  method SerializeComment(c: NoteComment) returns (rec: NS.CommentRecord)
    ensures rec == CommentRecordOf(c)
  {
    var reactions: seq<NS.ReactionRecord> := [];
    var i := 0;
    while i < |c.reactions|
      invariant 0 <= i <= |c.reactions|
      invariant reactions == SerializeReactions(c.reactions[..i])
    {
      assert c.reactions[..i + 1][..i] == c.reactions[..i];
      reactions := reactions + [SerializeReaction(c.reactions[i])];
      i := i + 1;
    }
    assert c.reactions[..i] == c.reactions;
    rec := NS.CommentRecord(c.author, c.body, reactions, Some(c.timestamp));
  }

  /** `serializeThread`: the comments one for one in order. */
  method SerializeThread(t: NoteThread) returns (rec: ThreadRecord)
    ensures rec == ThreadRecordOf(t)
  {
    var comments: seq<NS.CommentRecord> := [];
    var i := 0;
    while i < |t.comments|
      invariant 0 <= i <= |t.comments| && |comments| == i
      invariant forall j :: 0 <= j < i ==> comments[j] == CommentRecordOf(t.comments[j])
    {
      var c := SerializeComment(t.comments[i]);
      comments := comments + [c];
      i := i + 1;
    }
    assert comments == CommentRecords(t.comments);
    rec := ThreadRecord(NS.SerializeRange(t.range), t.uri, comments);
  }

  /** `serialize`: one record per thread of the list, in list order. */
  method Serialize(threads: seq<NoteThread>) returns (recs: seq<ThreadRecord>)
    ensures |recs| == |threads| && forall i :: 0 <= i < |threads| ==> recs[i] == ThreadRecordOf(threads[i])
  {
    recs := [];
    var i := 0;
    while i < |threads|
      invariant 0 <= i <= |threads| && |recs| == i
      invariant forall j :: 0 <= j < i ==> recs[j] == ThreadRecordOf(threads[j])
    {
      var rec := SerializeThread(threads[i]);
      recs := recs + [rec];
      i := i + 1;
    }
  }

  /** `c` is the comment the legacy `deserializeComment` builds from `rec` under `parent`:
      the stored timestamp is not passed on, so the comment is stamped `now`. */
  ghost predicate CommentBuiltFrom(c: NoteComment, rec: NS.CommentRecord, parent: NoteThread, now: nat)
    reads c
  {
    c.body == rec.body && c.savedBody == rec.body && c.mode == Preview && c.author == rec.author
    && c.parent == parent && c.reactions == DeserializeReactions(rec.reactions)
    && c.contextValue == None && c.timestamp == now
  }

  /** `t` is the thread the legacy `deserializeThread` builds from `rec`: no key is set. */
  ghost predicate ThreadBuiltFrom(t: NoteThread, rec: ThreadRecord, now: nat)
    reads t, t.comments
  {
    t.uri == rec.uri && NS.DeserializeRange(rec.range) == Ok(t.range)
    && t.contextValue == None && !t.disposed && |t.comments| == |rec.comments|
    && forall i :: 0 <= i < |rec.comments| ==> CommentBuiltFrom(t.comments[i], rec.comments[i], t, now)
  }

  /** The legacy `deserializeComment`. */
  method DeserializeComment(rec: NS.CommentRecord, parent: NoteThread, counter: CommentCounter, now: nat)
    returns (c: NoteComment)
    modifies counter
    ensures fresh(c) && CommentBuiltFrom(c, rec, parent, now)
    ensures c.id == old(counter.last) + 1 && counter.last == c.id
  {
    var reactions: seq<Reaction> := [];
    var i := 0;
    while i < |rec.reactions|
      invariant 0 <= i <= |rec.reactions|
      invariant reactions == DeserializeReactions(rec.reactions[..i])
    {
      assert rec.reactions[..i + 1][..i] == rec.reactions[..i];
      reactions := reactions + [DeserializeReaction(rec.reactions[i])];
      i := i + 1;
    }
    assert rec.reactions[..i] == rec.reactions;
    c := new NoteComment(rec.body, Preview, rec.author, parent, reactions, None, None, now, counter);
  }

  /** The legacy `deserializeThread`: a new thread at the stored path with one new
      comment per record; a negative line throws before anything is built. */
  method DeserializeThread(rec: ThreadRecord, counter: CommentCounter, now: nat)
    returns (r: Result<NoteThread>)
    modifies counter
    ensures r.Fault? <==> NS.DeserializeRange(rec.range).Fault?
    ensures r.Fault? ==> counter.last == old(counter.last)
    ensures r.Ok? ==> fresh(r.value) && ThreadBuiltFrom(r.value, rec, now)
                      && counter.last == old(counter.last) + |rec.comments|
                      && forall i :: 0 <= i < |rec.comments| ==>
                           fresh(r.value.comments[i]) && r.value.comments[i].id == old(counter.last) + 1 + i
  {
    var range := NS.DeserializeRange(rec.range);
    if range.Fault? {
      return Fault;
    }
    var t := new NoteThread(rec.uri, range.value);
    var cs: seq<NoteComment> := [];
    var i := 0;
    while i < |rec.comments|
      invariant 0 <= i <= |rec.comments| && |cs| == i
      invariant t.uri == rec.uri && t.range == range.value && t.contextValue == None && !t.disposed
      invariant counter.last == old(counter.last) + i
      invariant forall j :: 0 <= j < i ==>
                  fresh(cs[j]) && cs[j].id == old(counter.last) + 1 + j
                  && CommentBuiltFrom(cs[j], rec.comments[j], t, now)
    {
      var c := DeserializeComment(rec.comments[i], t, counter, now);
      cs := cs + [c];
      i := i + 1;
    }
    t.comments := cs;
    r := Ok(t);
  }

  /** The legacy `deserialize`: one new thread per record, in order. */
  method Deserialize(recs: seq<ThreadRecord>, counter: CommentCounter, now: nat)
    returns (r: Result<seq<NoteThread>>)
    modifies counter
    ensures r.Ok? <==> forall i :: 0 <= i < |recs| ==> NS.DeserializeRange(recs[i].range).Ok?
    ensures r.Ok? ==> |r.value| == |recs|
                      && forall i :: 0 <= i < |recs| ==> fresh(r.value[i]) && ThreadBuiltFrom(r.value[i], recs[i], now)
  {
    var ts: seq<NoteThread> := [];
    var i := 0;
    while i < |recs|
      invariant 0 <= i <= |recs| && |ts| == i
      invariant forall j :: 0 <= j < i ==> NS.DeserializeRange(recs[j].range).Ok?
      invariant forall j :: 0 <= j < i ==> fresh(ts[j]) && ThreadBuiltFrom(ts[j], recs[j], now)
    {
      var t := DeserializeThread(recs[i], counter, now);
      if t.Fault? {
        return Fault;
      }
      ts := ts + [t.value];
      i := i + 1;
    }
    r := Ok(ts);
  }

  /** The record with every comment stamped `now`. */
  function Restamped(rec: ThreadRecord, now: nat): ThreadRecord {
    rec.(comments := seq(|rec.comments|, i requires 0 <= i < |rec.comments| =>
                           rec.comments[i].(timestamp := Some(now))))
  }

  /** Reading a legacy record and writing the thread again gives the record back, except
      that every timestamp is the time of reading. */
  lemma RecordRoundTrip(t: NoteThread, rec: ThreadRecord, now: nat)
    requires ThreadBuiltFrom(t, rec, now)
    ensures ThreadRecordOf(t) == Restamped(rec, now)
  {
    var out := ThreadRecordOf(t);
    forall i | 0 <= i < |rec.comments| ensures out.comments[i] == Restamped(rec, now).comments[i] {
      assert SerializeReactions(DeserializeReactions(rec.comments[i].reactions)) == rec.comments[i].reactions;
    }
  }

  /** Writing a thread and reading it back: path, lines, bodies, authors and reactions
      survive (none reacted by the author); the columns become 0, the key is lost and every
      comment is stamped with the time of reading. */
  lemma ThreadRoundTrip(t: NoteThread, back: NoteThread, now: nat)
    requires ThreadBuiltFrom(back, ThreadRecordOf(t), now)
    ensures back.uri == t.uri && back.contextValue == None
    ensures back.range == Range(Position(t.range.start.line, 0), Position(t.range.end.line, 0))
    ensures |back.comments| == |t.comments|
    ensures forall i :: 0 <= i < |t.comments| ==>
              var c, d := t.comments[i], back.comments[i];
              d.body == c.body && d.author == c.author && d.timestamp == now
              && d.reactions == NS.Unreacted(c.reactions)
  {
  }
}
