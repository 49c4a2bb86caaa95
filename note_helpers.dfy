/** Note helpers (`src/helpers.ts`): adding a comment to a note, and the status prefix
    `[<status>] ` kept at the head of a note's first comment. */
module NoteHelpers {
  import opened Wrappers
  import opened Editor
  import opened Text
  import opened Notes

  /** The index of the first line terminator of `s`, or `|s|`. */
  function LineEnd(s: string): (e: nat)
    ensures e <= |s|
    ensures forall i :: 0 <= i < e ==> !IsLineTerminator(s[i])
    ensures e < |s| ==> IsLineTerminator(s[e])
  {
    if s == [] || IsLineTerminator(s[0]) then 0 else 1 + LineEnd(s[1..])
  }

  /** `s[..p]` is a match of `/^\[.*\] /`: an opening bracket, any characters but line
      terminators, then `] `. */
  predicate MatchesStatus(s: string, p: int) {
    3 <= p <= |s| && s[0] == '[' && s[p - 2] == ']' && s[p - 1] == ' '
    && forall i :: 1 <= i < p - 2 ==> !IsLineTerminator(s[i])
  }

  /** `] ` starts at index `k` of `s`. */
  predicate CloseAt(s: string, k: int) {
    0 <= k && k + 1 < |s| && s[k] == ']' && s[k + 1] == ' '
  }

  /** The last `k` in `1..hi` where `] ` starts, or -1. */
  function LastClose(s: string, hi: int): (k: int)
    requires hi + 1 < |s| || hi < 1
    ensures k == -1 || (1 <= k <= hi && CloseAt(s, k))
    ensures forall j :: 1 <= j <= hi && j > k ==> !CloseAt(s, j)
    decreases hi
  {
    if hi < 1 then -1
    else if s[hi] == ']' && s[hi + 1] == ' ' then hi
    else LastClose(s, hi - 1)
  }

  /** The length of the text `replace(/^\[.*\] /, '')` removes: the match of the regular
      expression, which through the greedy `.*` is the longest one, or 0 without a match. */
  function StatusPrefixEnd(s: string): (p: nat)
    ensures p == 0 ==> forall q :: !MatchesStatus(s, q)
    ensures p > 0 ==> MatchesStatus(s, p) && forall q :: q > p ==> !MatchesStatus(s, q)
  {
    if |s| > 0 && s[0] == '[' then
      var e := LineEnd(s);
      var k := LastClose(s, e - 2);
      assert forall q :: MatchesStatus(s, q) ==> q <= e && CloseAt(s, q - 2);
      if k < 0 then 0 else k + 2
    else 0
  }

  /** The body with its status prefix, if any, removed. */
  function StripStatus(s: string): string {
    s[StatusPrefixEnd(s)..]
  }

  /** The prefix of a note with the status. */
  function StatusPrefix(status: NoteStatus): string {
    "[" + status.Text() + "] "
  }

  /** The body `updateNoteStatus` leaves: the new prefix, then the old body without its
      prefix. */
  function UpdatedBody(body: string, status: NoteStatus): string {
    StatusPrefix(status) + StripStatus(body)
  }

  /** No `] ` on the first line of `t`. */
  predicate NoCloseOnFirstLine(t: string) {
    forall k :: 0 <= k && k + 2 <= LineEnd(t) ==> !CloseAt(t, k)
  }

  /** A status prefix is itself a match, and has no `] ` but its last two characters. */
  lemma StatusPrefixMatches(status: NoteStatus, t: string)
    ensures MatchesStatus(StatusPrefix(status) + t, |StatusPrefix(status)|)
    ensures (StatusPrefix(status) + t)[|StatusPrefix(status)| - 1] == ' '
  {
    var x := StatusPrefix(status) + t;
    assert forall i :: 0 <= i < |StatusPrefix(status)| ==> x[i] == StatusPrefix(status)[i];
  }

  /** Behind a status prefix, a longer match ends with a `] ` on the first line of the text. */
  lemma LaterMatchCloses(status: NoteStatus, t: string, q: int)
    requires q > |StatusPrefix(status)|
    ensures var k := q - 2 - |StatusPrefix(status)|;
            MatchesStatus(StatusPrefix(status) + t, q) ==> k + 2 <= LineEnd(t) && CloseAt(t, k)
  {
    var pre := StatusPrefix(status);
    var x := pre + t;
    if MatchesStatus(x, q) {
      StatusPrefixMatches(status, t);
      var k := q - 2 - |pre|;
      assert k >= 0;
      forall i | 0 <= i < k + 2 ensures !IsLineTerminator(t[i]) {
        assert t[i] == x[|pre| + i];
      }
      LineEndAtLeast(t, k + 2);
      assert t[k] == x[q - 2] && t[k + 1] == x[q - 1];
    }
  }

  /** Behind a status prefix, a text with no `] ` on its first line gives no longer match. */
  lemma NoLaterMatch(status: NoteStatus, t: string, q: int)
    requires NoCloseOnFirstLine(t)
    ensures q > |StatusPrefix(status)| ==> !MatchesStatus(StatusPrefix(status) + t, q)
  {
    if q > |StatusPrefix(status)| {
      LaterMatchCloses(status, t, q);
    }
  }

  /** Behind a status prefix, a text with no `] ` on its first line: the match is exactly
      the prefix. */
  lemma PrefixedEnd(status: NoteStatus, t: string)
    requires NoCloseOnFirstLine(t)
    ensures StatusPrefixEnd(StatusPrefix(status) + t) == |StatusPrefix(status)|
  {
    StatusPrefixMatches(status, t);
    NoLaterMatch(status, t, StatusPrefixEnd(StatusPrefix(status) + t));
  }

  /** An updated body starts with the status prefix, and with no further `] ` on the first
      line its prefix is exactly that prefix. */
  lemma UpdatedBodyPrefix(body: string, status: NoteStatus)
    ensures StartsWith(UpdatedBody(body, status), StatusPrefix(status))
    ensures NoCloseOnFirstLine(StripStatus(body)) ==>
              StatusPrefixEnd(UpdatedBody(body, status)) == |StatusPrefix(status)|
  {
    var pre := StatusPrefix(status);
    assert (pre + StripStatus(body))[..|pre|] == pre;
    if NoCloseOnFirstLine(StripStatus(body)) {
      PrefixedEnd(status, StripStatus(body));
    }
  }

  /** A line with no terminator among its first `n` characters is at least `n` long. */
  lemma {:induction false} LineEndAtLeast(t: string, n: nat)
    requires n <= |t| && forall i :: 0 <= i < n ==> !IsLineTerminator(t[i])
    ensures LineEnd(t) >= n
  {
    if n > 0 {
      LineEndAtLeast(t[1..], n - 1);
    }
  }

  /** A `] ` on the first line after a match makes a longer match. */
  lemma CloseExtendsMatch(body: string, p: nat, k: nat)
    requires MatchesStatus(body, p) && k + 2 <= LineEnd(body[p..])
    ensures CloseAt(body[p..], k) ==> MatchesStatus(body, p + k + 2)
  {
    var t := body[p..];
    if CloseAt(t, k) {
      forall i | 1 <= i < p + k ensures !IsLineTerminator(body[i]) {
        if i >= p {
          assert body[i] == t[i - p];
        }
      }
      assert body[p + k] == t[k] && body[p + k + 1] == t[k + 1];
    }
  }

  /** The greedy match leaves no `] ` on the rest of the first line. */
  lemma StripLeavesNoClose(body: string)
    requires StatusPrefixEnd(body) > 0
    ensures NoCloseOnFirstLine(StripStatus(body))
  {
    var p := StatusPrefixEnd(body);
    forall k | 0 <= k && k + 2 <= LineEnd(body[p..]) ensures !CloseAt(body[p..], k) {
      CloseExtendsMatch(body, p, k);
    }
  }

  /** Changing the status again replaces the prefix: exactly one prefix is left, when the
      body after its old prefix has no `] ` on its first line. */
  lemma StatusTwice(body: string, s1: NoteStatus, s2: NoteStatus)
    requires NoCloseOnFirstLine(StripStatus(body))
    ensures UpdatedBody(UpdatedBody(body, s1), s2) == UpdatedBody(body, s2)
  {
    UpdatedBodyPrefix(body, s1);
    var x := UpdatedBody(body, s1);
    assert x[|StatusPrefix(s1)|..] == StripStatus(body);
  }

  /** A body that already has a prefix: any number of status changes leave one prefix. */
  lemma StatusChangesOnPrefixed(body: string, s1: NoteStatus, s2: NoteStatus)
    requires StatusPrefixEnd(body) > 0
    ensures UpdatedBody(UpdatedBody(body, s1), s2) == UpdatedBody(body, s2)
  {
    StripLeavesNoClose(body);
    StatusTwice(body, s1, s2);
  }

  /** A first comment `see a[i] here` gets the TODO prefix in front of its whole text. */
  lemma FirstStatusKeepsText()
    ensures UpdatedBody("see a[i] here", ToDo) == "[TODO] see a[i] here"
  {
    var b := "see a[i] here";
    assert b[0] == 's';
    assert StripStatus(b) == b;
  }

  /** The greedy match also eats text of the note: when a later `] ` on the first line
      follows the prefix, a status change keeps less than the text behind the prefix. */
  lemma GreedyMatchCutsText(s1: NoteStatus, s2: NoteStatus, t: string, q: int)
    requires q > |StatusPrefix(s1)| && MatchesStatus(StatusPrefix(s1) + t, q)
    ensures |StripStatus(StatusPrefix(s1) + t)| < |t|
    ensures |UpdatedBody(StatusPrefix(s1) + t, s2)| < |StatusPrefix(s2)| + |t|
  {
    var p := StatusPrefixEnd(StatusPrefix(s1) + t);
    assert p >= q;
  }

  /** After `[TODO] see a[i] here` the next status change keeps only `here`. */
  lemma StatusChangeCutsText()
    ensures StripStatus("[TODO] see a[i] " + "here") == "here"
    ensures UpdatedBody("[TODO] see a[i] " + "here", Vulnerable) == StatusPrefix(Vulnerable) + "here"
  {
    var a := "[TODO] see a[i] ";
    var x := a + "here";
    assert MatchesStatus(x, 16) by {
      assert x[0] == '[' && x[14] == ']' && x[15] == ' ';
      assert forall i :: 1 <= i < 14 ==> !IsLineTerminator(x[i]);
    }
    assert forall j :: 15 <= j < |x| ==> x[j] != ']';
    MatchIsGreatest(x, 16);
    assert x[16..] == "here";
  }

  /** The match that no longer match follows is the one removed. */
  lemma MatchIsGreatest(s: string, p: nat)
    requires MatchesStatus(s, p)
    requires forall j :: p - 1 <= j < |s| ==> s[j] != ']'
    ensures StatusPrefixEnd(s) == p
  {
  }

  /** `updateNoteStatus`: the old prefix removed, then the new one put in front. */
  method UpdateNoteStatus(comment: NoteComment, status: NoteStatus)
    modifies comment`body
    ensures comment.body == UpdatedBody(old(comment.body), status)
  {
    comment.body := StripStatus(comment.body);
    comment.body := StatusPrefix(status) + comment.body;
  }

  /** The author name `{ name: author ? author : getSetting('authorName') }`. */
  function AuthorName(author: Option<string>, authorSetting: string): string {
    if author.Some? && author.value != "" then author.value else authorSetting
  }

  /** `saveNoteComment`: one new comment at the end of the thread, in preview mode, with
      fresh reactions, deletable when the thread had comments before. A first comment also
      gets the TODO prefix, while its saved body stays the typed text, and the thread is
      pushed once onto the note list. */
  method SaveNoteComment(thread: NoteThread, text: string, firstComment: bool, noteList: NoteList,
                         author: Option<string>, authorSetting: string, group: seq<ReactionKind>,
                         counter: CommentCounter, now: nat)
    modifies thread`comments, noteList`threads, counter
    ensures |thread.comments| == |old(thread.comments)| + 1
    ensures thread.comments[..|old(thread.comments)|] == old(thread.comments)
    ensures var c := thread.comments[|thread.comments| - 1];
            fresh(c) && c.id == old(counter.last) + 1 && counter.last == c.id
            && c.body == (if firstComment then UpdatedBody(text, ToDo) else text)
            && c.savedBody == text && c.mode == Preview
            && c.author == AuthorName(author, authorSetting) && c.parent == thread
            && c.reactions == FreshReactions(group) && c.timestamp == now
            && (c.contextValue == Some("canDelete") <==> |old(thread.comments)| > 0)
            && (c.contextValue == None <==> |old(thread.comments)| == 0)
    ensures noteList.threads == if firstComment then old(noteList.threads) + [thread]
                                else old(noteList.threads)
  {
    var canDelete := if |thread.comments| > 0 then Some("canDelete") else None;
    var c := new NoteComment(text, Preview, AuthorName(author, authorSetting), thread,
                             FreshReactions(group), canDelete, None, now, counter);
    thread.comments := thread.comments + [c];
    if firstComment {
      UpdateNoteStatus(c, ToDo);
      noteList.threads := noteList.threads + [thread];
    }
  }

  /** The text of the comment `setNoteStatus` adds. */
  function StatusChangedText(status: NoteStatus): string {
    "Status changed to " + status.Text() + "."
  }

  /** `setNoteStatus`: the first comment's prefix is rewritten (its other fields are kept), and a deletable comment
      recording the change is added at the end. On a thread without comments reading the
      first comment throws (`thrown`) before anything changes. */
  method SetNoteStatus(thread: NoteThread, status: NoteStatus, authorSetting: string,
                       group: seq<ReactionKind>, counter: CommentCounter, now: nat)
    returns (thrown: bool)
    modifies thread`comments, counter, if |thread.comments| > 0 then {thread.comments[0]} else {}
    ensures thrown <==> |old(thread.comments)| == 0
    ensures thrown ==> thread.comments == old(thread.comments) && counter.last == old(counter.last)
    ensures !thrown ==>
              var first := old(thread.comments)[0];
              first.body == UpdatedBody(old(first.body), status)
              && first.savedBody == old(first.savedBody) && first.mode == old(first.mode)
              && first.author == old(first.author) && first.parent == old(first.parent)
              && first.reactions == old(first.reactions)
              && first.contextValue == old(first.contextValue)
              && first.timestamp == old(first.timestamp)
              && |thread.comments| == |old(thread.comments)| + 1
              && thread.comments[..|old(thread.comments)|] == old(thread.comments)
              && var c := thread.comments[|thread.comments| - 1];
                 fresh(c) && c.id == old(counter.last) + 1 && counter.last == c.id
                 && c.body == StatusChangedText(status) && c.savedBody == c.body
                 && c.mode == Preview && c.author == authorSetting && c.parent == thread
                 && c.reactions == FreshReactions(group) && c.contextValue == Some("canDelete")
                 && c.timestamp == now
  {
    if |thread.comments| == 0 {
      return true;
    }
    UpdateNoteStatus(thread.comments[0], status);
    var c := new NoteComment(StatusChangedText(status), Preview, authorSetting, thread,
                             FreshReactions(group), Some("canDelete"), None, now, counter);
    thread.comments := thread.comments + [c];
    thrown := false;
  }
}
