/** The comment commands the extension registers (`src/extension.ts`): deleting a comment
    or a whole note, the edit / cancel / save cycle of a comment, and placing the threads
    read at start-up into the note map. */
module CommentCommands {
  import opened Wrappers
  import opened Editor
  import opened OrderedMap
  import opened Notes

  /** `comments.filter(cmt => cmt.id !== id)`. */
  function DropId(cs: seq<NoteComment>, id: int): (r: seq<NoteComment>)
    ensures |r| <= |cs|
    ensures forall j :: 0 <= j < |r| ==> r[j] in cs && r[j].id != id
    ensures forall j :: 0 <= j < |cs| && cs[j].id != id ==> cs[j] in r
    ensures (forall j :: 0 <= j < |cs| ==> cs[j].id != id) ==> r == cs
  {
    if cs == [] then []
    else if cs[0].id == id then DropId(cs[1..], id)
    else [cs[0]] + DropId(cs[1..], id)
  }

  /** The filter keeps the order: filtering a concatenation filters each part. */
  lemma {:induction false} DropIdAppend(a: seq<NoteComment>, b: seq<NoteComment>, id: int)
    ensures DropId(a + b, id) == DropId(a, id) + DropId(b, id)
  {
    if a != [] {
      var ab := a + b;
      assert ab[0] == a[0] && ab[1..] == a[1..] + b;
      DropIdAppend(a[1..], b, id);
      if a[0].id != id {
        assert DropId(ab, id) == [a[0]] + DropId(ab[1..], id);
      }
    } else {
      assert a + b == b;
    }
  }

  /** `deleteNoteComment`: without a parent nothing happens; otherwise the comments with
      the id go, the others stay in order, and a thread left empty is disposed. */
  method DeleteNoteComment(comment: NoteComment)
    modifies (if comment.parent == null then {} else {comment.parent})`comments
    modifies (if comment.parent == null then {} else {comment.parent})`disposed
    ensures comment.parent != null ==>
              comment.parent.comments == DropId(old(comment.parent.comments), comment.id)
              && comment.parent.disposed == (old(comment.parent.disposed) || comment.parent.comments == [])
  {
    var thread := comment.parent;
    if thread == null {
      return;
    }
    thread.comments := DropId(thread.comments, comment.id);
    if |thread.comments| == 0 {
      thread.disposed := true;
    }
  }

  /** A `contextValue` that JavaScript treats as true: present and not empty. */
  predicate Truthy(v: Option<string>) {
    v.Some? && v.value != ""
  }

  /** `deleteNote`: the thread is disposed, and when it has a key it leaves the note map. */
  method DeleteNote(thread: NoteThread, noteMap: NoteMap)
    requires noteMap.notes.Valid()
    modifies thread`disposed, noteMap`notes
    ensures thread.disposed && thread.contextValue == old(thread.contextValue)
    ensures noteMap.notes.Valid()
    ensures Truthy(thread.contextValue) ==>
              noteMap.notes == old(noteMap.notes).Remove(thread.contextValue.value)
              && thread.contextValue.value !in noteMap.notes.entries
    ensures !Truthy(thread.contextValue) ==> noteMap.notes == old(noteMap.notes)
  {
    thread.disposed := true;
    if Truthy(thread.contextValue) {
      noteMap.notes := noteMap.notes.Remove(thread.contextValue.value);
    }
  }

  /** `editNoteComment`: every comment of the thread with the id enters editing mode;
      bodies and saved bodies are untouched. */
  method EditNoteComment(comment: NoteComment)
    modifies (if comment.parent == null then {} else set c | c in comment.parent.comments)`mode
    ensures comment.parent != null ==>
              forall j :: 0 <= j < |comment.parent.comments| ==>
                var c := comment.parent.comments[j];
                c.mode == if c.id == comment.id then Editing else old(c.mode)
  {
    var thread := comment.parent;
    if thread == null {
      return;
    }
    var cs := thread.comments;
    ghost var objs := set c | c in cs;
    ghost var done: set<NoteComment> := {};
    var i := 0;
    while i < |cs|
      invariant 0 <= i <= |cs| && thread.comments == cs
      invariant forall j :: 0 <= j < i ==> cs[j] in done
      invariant forall c :: c in objs ==>
                  c.mode == if c.id == comment.id && c in done then Editing else old(c.mode)
    {
      var c := cs[i];
      if c.id == comment.id {
        c.mode := Editing;
      }
      done := done + {c};
      i := i + 1;
    }
  }

  /** `cancelEditNoteComment`: every comment of the thread with the id gets its saved body
      back and returns to preview mode. */
  method CancelEditNoteComment(comment: NoteComment)
    modifies (if comment.parent == null then {} else set c | c in comment.parent.comments)`body
    modifies (if comment.parent == null then {} else set c | c in comment.parent.comments)`mode
    ensures comment.parent != null ==>
              forall j :: 0 <= j < |comment.parent.comments| ==>
                var c := comment.parent.comments[j];
                if c.id == comment.id then c.body == old(c.savedBody) && c.mode == Preview
                else c.body == old(c.body) && c.mode == old(c.mode)
  {
    var thread := comment.parent;
    if thread == null {
      return;
    }
    var cs := thread.comments;
    ghost var objs := set c | c in cs;
    ghost var done: set<NoteComment> := {};
    var i := 0;
    while i < |cs|
      invariant 0 <= i <= |cs| && thread.comments == cs
      invariant forall j :: 0 <= j < i ==> cs[j] in done
      invariant forall c :: c in objs ==>
                  if c.id == comment.id && c in done then c.body == c.savedBody && c.mode == Preview
                  else c.body == old(c.body) && c.mode == old(c.mode)
    {
      var c := cs[i];
      if c.id == comment.id {
        c.body := c.savedBody;
        c.mode := Preview;
      }
      done := done + {c};
      i := i + 1;
    }
  }

  /** `n` copies of the thread, as pushed to the remote store. */
  function Copies(t: NoteThread, n: nat): (s: seq<NoteThread>)
    ensures |s| == n && forall j :: 0 <= j < n ==> s[j] == t
  {
    if n == 0 then [] else Copies(t, n - 1) + [t]
  }

  /** `saveEditNoteComment`: every comment of the thread with the id keeps its body as the
      saved one and returns to preview mode; with a remote store the thread is pushed once
      per comment of the thread, matching or not. */
  method SaveEditNoteComment(comment: NoteComment, remote: RemoteDb?)
    modifies (if comment.parent == null then {} else set c | c in comment.parent.comments)`savedBody
    modifies (if comment.parent == null then {} else set c | c in comment.parent.comments)`mode
    modifies (if comment.parent == null || remote == null then {} else {remote})`pushed
    ensures comment.parent != null ==>
              forall j :: 0 <= j < |comment.parent.comments| ==>
                var c := comment.parent.comments[j];
                if c.id == comment.id then c.savedBody == old(c.body) && c.mode == Preview
                else c.savedBody == old(c.savedBody) && c.mode == old(c.mode)
    ensures comment.parent != null && remote != null ==>
              remote.pushed == old(remote.pushed) + Copies(comment.parent, |comment.parent.comments|)
  {
    var thread := comment.parent;
    if thread == null {
      return;
    }
    var cs := thread.comments;
    ghost var objs := set c | c in cs;
    ghost var done: set<NoteComment> := {};
    var i := 0;
    while i < |cs|
      invariant 0 <= i <= |cs| && thread.comments == cs
      invariant forall j :: 0 <= j < i ==> cs[j] in done
      invariant forall c :: c in objs ==>
                  if c.id == comment.id && c in done then c.savedBody == c.body && c.mode == Preview
                  else c.savedBody == old(c.savedBody) && c.mode == old(c.mode)
      invariant remote != null ==> remote.pushed == old(remote.pushed) + Copies(thread, i)
    {
      var c := cs[i];
      if c.id == comment.id {
        c.savedBody := c.body;
        c.mode := Preview;
      }
      if remote != null {
        remote.pushed := remote.pushed + [thread];
      }
      done := done + {c};
      i := i + 1;
    }
  }

  /** Editing a comment, typing over its body and cancelling gives back the body saved last,
      in preview mode. */
  method EditChangeCancel(comment: NoteComment, typed: string)
    requires comment.parent != null && comment in comment.parent.comments
    modifies (set c | c in comment.parent.comments)`body
    modifies (set c | c in comment.parent.comments)`mode
    ensures comment.body == old(comment.savedBody) && comment.mode == Preview
  {
    EditNoteComment(comment);
    comment.body := typed;
    CancelEditNoteComment(comment);
  }

  /** The key a thread read at start-up is placed under: its `contextValue`, or '' without one. */
  function NoteKey(contextValue: Option<string>): (k: string)
    ensures Truthy(contextValue) ==> k == contextValue.value
    ensures !Truthy(contextValue) ==> k == ""
  {
    contextValue.GetOr("")
  }

  function NoteKeys(ts: seq<NoteThread>): (ks: seq<string>)
    reads ts
    ensures |ks| == |ts| && forall i :: 0 <= i < |ts| ==> ks[i] == NoteKey(ts[i].contextValue)
  {
    if ts == [] then [] else NoteKeys(ts[..|ts| - 1]) + [NoteKey(ts[|ts| - 1].contextValue)]
  }

  /** The start-up loop `persistedThreads.forEach(t => noteMap.set(key, t))`. */
  method LoadPersistedThreads(threads: seq<NoteThread>, noteMap: NoteMap)
    requires noteMap.notes.Valid()
    modifies noteMap`notes
    ensures noteMap.notes == PutAll(old(noteMap.notes), NoteKeys(threads), threads)
  {
    ghost var ks, m0 := NoteKeys(threads), noteMap.notes;
    var i := 0;
    while i < |threads|
      invariant 0 <= i <= |threads|
      invariant noteMap.notes == PutAll(m0, ks[..i], threads[..i])
    {
      var key := NoteKey(threads[i].contextValue);
      assert key == ks[i];
      PutAllStep(m0, ks, threads, i);
      noteMap.notes := noteMap.notes.Put(key, threads[i]);
      i := i + 1;
    }
    assert ks[..i] == ks && threads[..i] == threads;
  }

  /** After start-up each thread read, unless a later one has the same key, is found in the
      note map under its `contextValue`, or under '' without one. */
  lemma LoadedUnderKey(m: OMap<NoteThread>, ts: seq<NoteThread>, i: nat)
    requires m.Valid() && i < |ts|
    requires forall j :: i < j < |ts| ==> NoteKey(ts[j].contextValue) != NoteKey(ts[i].contextValue)
    ensures PutAll(m, NoteKeys(ts), ts).Get(NoteKey(ts[i].contextValue)) == Some(ts[i])
  {
    PutAllLastWins(m, NoteKeys(ts), ts, i);
  }
}
