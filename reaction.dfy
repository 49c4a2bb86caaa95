/** The reaction handler (`src/handlers/reaction.ts`): a click on a reaction of a comment
    toggles it on every comment of the thread that has the clicked comment's id. */
module Reactions {
  import opened Notes

  /** The replacement reaction: the clicked one with its flag negated and its count moved
      one step toward the new flag. */
  function Toggled(r: Reaction): (t: Reaction)
    ensures t.caption == r.caption && t.iconPath == r.iconPath
    ensures t.authorHasReacted == !r.authorHasReacted
    ensures t.authorHasReacted ==> t.count == r.count + 1
    ensures !t.authorHasReacted ==> t.count == r.count - 1
  {
    r.(count := if r.authorHasReacted then r.count - 1 else r.count + 1,
       authorHasReacted := !r.authorHasReacted)
  }

  /** Toggling twice restores both the count and the flag. */
  lemma ToggleTwice(r: Reaction)
    ensures Toggled(Toggled(r)) == r
  {
  }

  /** `findIndex(r => r.label === name)`: the first index with the label, or -1. */
  function FindLabel(rs: seq<Reaction>, name: string): (i: int)
    ensures -1 <= i < |rs|
    ensures i == -1 <==> forall j :: 0 <= j < |rs| ==> rs[j].caption != name
    ensures i >= 0 ==> rs[i].caption == name && forall j :: 0 <= j < i ==> rs[j].caption != name
  {
    if rs == [] then -1
    else if rs[0].caption == name then 0
    else
      var k := FindLabel(rs[1..], name);
      if k == -1 then -1 else k + 1
  }

  /** `rs.splice(start, 1, x)` on a copy: a negative start counts from the end (and is
      clamped at 0); from a start inside the list one element is replaced by `x`, and from
      a start at or past the end `x` is appended. */
  function SpliceOne<T>(rs: seq<T>, start: int, x: T): (r: seq<T>)
    ensures 0 <= start < |rs| ==> r == rs[start := x]
    ensures start == -1 && |rs| > 0 ==> r == rs[|rs| - 1 := x]
    ensures rs == [] ==> r == [x]
    ensures start >= |rs| ==> r == rs + [x]
  {
    var s := if start >= 0 then start else if |rs| + start < 0 then 0 else |rs| + start;
    if s >= |rs| then rs + [x] else rs[s := x]
  }

  /** The reactions of a matching comment after the click on `reaction`. */
  function Reacted(rs: seq<Reaction>, reaction: Reaction): seq<Reaction> {
    SpliceOne(rs, FindLabel(rs, reaction.caption), Toggled(reaction))
  }

  /** The first index whose reaction has the label is the one `FindLabel` gives. */
  lemma FindLabelAt(rs: seq<Reaction>, name: string, i: nat)
    requires i < |rs| && rs[i].caption == name
    requires forall j :: 0 <= j < i ==> rs[j].caption != name
    ensures FindLabel(rs, name) == i
  {
  }

  /** Only the slot of the first reaction with the clicked label is replaced; without one,
      the last reaction is overwritten, and an empty list gets the toggled reaction alone. */
  lemma ReactedSlot(rs: seq<Reaction>, reaction: Reaction)
    ensures FindLabel(rs, reaction.caption) >= 0 ==>
              Reacted(rs, reaction) == rs[FindLabel(rs, reaction.caption) := Toggled(reaction)]
    ensures FindLabel(rs, reaction.caption) == -1 && |rs| > 0 ==>
              Reacted(rs, reaction) == rs[|rs| - 1 := Toggled(reaction)]
    ensures rs == [] ==> Reacted(rs, reaction) == [Toggled(reaction)]
    ensures |rs| > 0 ==> |Reacted(rs, reaction)| == |rs|
  {
  }

  /** Handling the same click twice on one list gives what handling it once gives: the
      slot written holds the clicked label, so the second pass finds and rewrites it with
      the very same value. */
  lemma ReactedIdempotent(rs: seq<Reaction>, reaction: Reaction)
    ensures Reacted(Reacted(rs, reaction), reaction) == Reacted(rs, reaction)
  {
    var i := FindLabel(rs, reaction.caption);
    var once := Reacted(rs, reaction);
    var t := Toggled(reaction);
    if i >= 0 {
      FindLabelAt(once, reaction.caption, i);
    } else if |rs| > 0 {
      FindLabelAt(once, reaction.caption, |rs| - 1);
    } else {
      FindLabelAt(once, reaction.caption, 0);
    }
  }

  /** Clicking a stored reaction and then clicking its toggled form again restores the list. */
  lemma ClickTwiceRestores(rs: seq<Reaction>, i: nat)
    requires i < |rs| && FindLabel(rs, rs[i].caption) == i
    ensures Reacted(Reacted(rs, rs[i]), Toggled(rs[i])) == rs
  {
    var once := Reacted(rs, rs[i]);
    FindLabelAt(once, rs[i].caption, i);
    ToggleTwice(rs[i]);
  }

  /** `reactionHandler`: without a parent nothing happens; otherwise every comment of the
      parent thread whose id is the clicked comment's id gets the click applied to its
      reactions, and nothing else changes. */
  method ReactionHandler(comment: NoteComment, reaction: Reaction)
    modifies (if comment.parent == null then {} else set c | c in comment.parent.comments)`reactions
    ensures comment.parent != null ==>
              comment.parent.comments == old(comment.parent.comments)
              && forall j :: 0 <= j < |comment.parent.comments| ==>
                   var c := comment.parent.comments[j];
                   c.reactions == (if c.id == comment.id then Reacted(old(c.reactions), reaction)
                                   else old(c.reactions))
  {
    var thread := comment.parent;
    if thread == null {
      return;
    }
    var cs := thread.comments;
    ghost var objs := set c | c in cs;
    ghost var done: set<NoteComment> := {};
    var i := 0;
    while i < |cs|
      invariant 0 <= i <= |cs|
      invariant thread.comments == cs
      invariant forall j :: 0 <= j < i ==> cs[j] in done
      invariant forall c :: c in objs ==>
                  c.reactions == (if c.id == comment.id && c in done
                                  then Reacted(old(c.reactions), reaction) else old(c.reactions))
    {
      var c := cs[i];
      assert c in objs;
      if c.id == comment.id {
        ReactedIdempotent(old(c.reactions), reaction);
        c.reactions := Reacted(c.reactions, reaction);
      }
      done := done + {c};
      i := i + 1;
    }
    assert forall j :: 0 <= j < |cs| ==> cs[j] in objs && cs[j] in done;
  }
}
