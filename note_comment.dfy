/** Notes as the comment API holds them (`src/models/noteComment.ts`): a note is a comment
    thread on a range of a file, holding note comments. The editor's thread and reaction
    types are given here as the data the extension reads and writes. */
module Notes {
  import opened Wrappers
  import opened Editor
  import opened OrderedMap

  /** The three statuses a note can have, and the text of each. */
  datatype NoteStatus = ToDo | Vulnerable | NotVulnerable {
    function Text(): string {
      match this
      case ToDo => "TODO"
      case Vulnerable => "Vulnerable"
      case NotVulnerable => "Not Vulnerable"
    }
  }

  /** `vscode.CommentReaction`; `label` of the source is `caption` here. */
  datatype Reaction = Reaction(caption: string, count: int, authorHasReacted: bool, iconPath: string)

  /** One entry of the extension's fixed reaction group: a label and its icon. */
  datatype ReactionKind = ReactionKind(caption: string, icon: string)

  /** The reactions a new comment starts with: one per entry of the group, in group order,
      none counted and none by the author. */
  function FreshReactions(group: seq<ReactionKind>): (rs: seq<Reaction>)
    ensures |rs| == |group|
    ensures forall i :: 0 <= i < |group| ==>
              rs[i] == Reaction(group[i].caption, 0, false, group[i].icon)
  {
    if group == [] then []
    else FreshReactions(group[..|group| - 1])
         + [Reaction(group[|group| - 1].caption, 0, false, group[|group| - 1].icon)]
  }

  /** The module-level `commentId` of the comment model: the last id handed out. */
  class CommentCounter {
    var last: int

    constructor ()
      ensures last == 1
    {
      last := 1;
    }
  }

  /** `vscode.CommentThread`: the comments of a note on a range of a file. */
  class NoteThread {
    var comments: seq<NoteComment>
    var contextValue: Option<string>
    var uri: string
    var range: Range
    /** Whether `dispose` has been called. */
    var disposed: bool

    /** `commentController.createCommentThread(uri, range, [])`. */
    constructor (uri: string, range: Range)
      ensures this.uri == uri && this.range == range
      ensures comments == [] && contextValue == None && !disposed
    {
      this.uri := uri;
      this.range := range;
      comments := [];
      contextValue := None;
      disposed := false;
    }
  }

  class NoteComment {
    const id: int
    var body: string
    /** The body to restore when an edit is cancelled. */
    var savedBody: string
    var mode: CommentMode
    /** The author's name. */
    var author: string
    var parent: NoteThread?
    var reactions: seq<Reaction>
    var contextValue: Option<string>
    /** Milliseconds since the epoch. */
    var timestamp: nat

    /** The comment constructor: the next id of the counter, the saved body equal to the
        body, and the given timestamp or, without one, the current time `now`. */
    constructor (body: string, mode: CommentMode, author: string, parent: NoteThread?,
                 reactions: seq<Reaction>, contextValue: Option<string>,
                 timestamp: Option<nat>, now: nat, counter: CommentCounter)
      modifies counter
      ensures id == old(counter.last) + 1 && counter.last == id
      ensures this.body == body && savedBody == body && this.mode == mode
      ensures this.author == author && this.parent == parent
      ensures this.reactions == reactions && this.contextValue == contextValue
      ensures this.timestamp == timestamp.GetOr(now)
    {
      counter.last := counter.last + 1;
      id := counter.last;
      this.body := body;
      savedBody := body;
      this.mode := mode;
      this.author := author;
      this.parent := parent;
      this.reactions := reactions;
      this.contextValue := contextValue;
      this.timestamp := timestamp.GetOr(now);
    }
  }

  /** The array of threads `saveNoteComment` pushes a new note onto. */
  class NoteList {
    var threads: seq<NoteThread>

    constructor ()
      ensures threads == []
    {
      threads := [];
    }
  }

  /** The extension's `noteMap`: notes keyed by their `contextValue`, in insertion order. */
  class NoteMap {
    var notes: OMap<NoteThread>

    constructor ()
      ensures notes == Empty()
    {
      notes := Empty();
    }
  }

  /** The remote store, seen only through the threads pushed to it. */
  class RemoteDb {
    var pushed: seq<NoteThread>

    constructor ()
      ensures pushed == []
    {
      pushed := [];
    }
  }
}
