/** The controller of legacy breadcrumbs (`src/controllers/breadcrumbs.ts`): a table of
    breadcrumb objects keyed by their ids, in insertion order. Fresh ids are passed in. */
module BreadcrumbsControl {
  import opened Wrappers
  import opened Editor
  import opened OrderedMap
  import opened StableSort
  import opened LegacyBreadcrumbs

  /** `points.some(point => point.tag === tag)`. */
  predicate HasTag(ps: seq<BreadcrumbPoint>, tag: string) {
    exists i :: 0 <= i < |ps| && ps[i].tag == tag
  }

  /** The breadcrumbs of `bs` that have a point with the tag, in the order of `bs`. */
  function Tagged(bs: seq<Breadcrumb>, tag: string): (r: seq<Breadcrumb>)
    reads set i | 0 <= i < |bs| :: bs[i]
    ensures |r| <= |bs|
    ensures forall i :: 0 <= i < |r| ==> r[i] in bs && HasTag(r[i].points, tag)
    ensures forall i :: 0 <= i < |bs| && HasTag(bs[i].points, tag) ==> bs[i] in r
  {
    if bs == [] then []
    else (if HasTag(bs[0].points, tag) then [bs[0]] else []) + Tagged(bs[1..], tag)
  }

  /** Filtering distributes over concatenation: the breadcrumbs kept from `a` come before
      the ones kept from `b`, so the filter keeps the table's order. */
  lemma {:induction false} TaggedAppend(a: seq<Breadcrumb>, b: seq<Breadcrumb>, tag: string)
    ensures Tagged(a + b, tag) == Tagged(a, tag) + Tagged(b, tag)
    decreases |a|
  {
    if a == [] {
      assert a + b == b;
    } else {
      assert (a + b)[1..] == a[1..] + b;
      TaggedAppend(a[1..], b, tag);
    }
  }

  /** Points whose ordinals are their positions. */
  predicate Consecutive(ps: seq<BreadcrumbPoint>) {
    forall j :: 0 <= j < |ps| ==> ps[j].ordinal == j
  }

  /** A point added with the current count as ordinal goes to the end, so points added
      one by one to an empty breadcrumb have ordinals 0..n-1 in call order. */
  lemma ConsecutiveAdd(ps: seq<BreadcrumbPoint>, p: BreadcrumbPoint)
    requires Consecutive(ps) && p.ordinal == |ps|
    ensures AddedPoint(ps, p) == ps + [p]
    ensures Consecutive(AddedPoint(ps, p))
  {
    assert SortedBy(ps, Ordinal);
    AddedPointLast(ps, p);
  }

  class BreadcrumbsController {
    var breadcrumbs: OMap<Breadcrumb>

    /** Every key names the breadcrumb stored under it, so distinct keys hold distinct objects. */
    ghost predicate Valid()
      reads this
    {
      KeyedBy(breadcrumbs, BreadcrumbId)
    }

    constructor ()
      ensures Valid() && breadcrumbs == Empty()
    {
      breadcrumbs := Empty();
    }

    /** `createBreadcrumb`: a new breadcrumb with no points under the fresh `id`. */
    method CreateBreadcrumb(caption: string, id: string) returns (b: Breadcrumb)
      requires Valid()
      modifies this
      ensures Valid() && fresh(b)
      ensures b.id == id && b.caption == caption && b.points == []
      ensures breadcrumbs == old(breadcrumbs).Put(id, b)
    {
      b := new Breadcrumb(id, caption);
      breadcrumbs := breadcrumbs.Put(id, b);
    }

    /** `getBreadcrumb`. */
    method GetBreadcrumb(id: string) returns (b: Option<Breadcrumb>)
      requires Valid()
      ensures b.Some? <==> id in breadcrumbs.entries
      ensures b.Some? ==> b.value == breadcrumbs.entries[id] && b.value.id == id
    {
      b := breadcrumbs.Get(id);
    }

    /** `getAllBreadcrumbs`: every breadcrumb once, in insertion order. */
    method GetAllBreadcrumbs() returns (bs: seq<Breadcrumb>)
      requires Valid()
      ensures |bs| == |breadcrumbs.keys|
      ensures forall i :: 0 <= i < |bs| ==>
                bs[i] == breadcrumbs.entries[breadcrumbs.keys[i]] && bs[i].id == breadcrumbs.keys[i]
    {
      bs := breadcrumbs.Values();
    }

    /** `deleteBreadcrumb`: true exactly when the id was present. */
    method DeleteBreadcrumb(id: string) returns (existed: bool)
      requires Valid()
      modifies this
      ensures Valid()
      ensures existed <==> id in old(breadcrumbs.entries)
      ensures breadcrumbs == old(breadcrumbs).Remove(id)
      ensures !existed ==> breadcrumbs == old(breadcrumbs)
    {
      existed := id in breadcrumbs.entries;
      RemoveKeyedBy(breadcrumbs, BreadcrumbId, id);
      breadcrumbs := breadcrumbs.Remove(id);
    }

    /** `addPointToBreadcrumb`: a new point `pointId` whose ordinal is the point count so far;
        an unknown breadcrumb changes nothing and gives no point. */
    method AddPointToBreadcrumb(breadcrumbId: string, tag: string, range: Range, uri: string,
                                noteId: Option<string>, pointId: string)
      returns (p: Option<BreadcrumbPoint>)
      requires Valid()
      modifies if breadcrumbId in breadcrumbs.entries then {breadcrumbs.entries[breadcrumbId]} else {}
      ensures p.Some? <==> breadcrumbId in breadcrumbs.entries
      ensures p.Some? ==>
                var b := breadcrumbs.entries[breadcrumbId];
                p.value == BreadcrumbPoint(pointId, tag, range, uri, |old(b.points)|, noteId)
                && b.points == AddedPoint(old(b.points), p.value)
                && b.caption == old(b.caption)
      ensures forall k :: k in breadcrumbs.entries && k != breadcrumbId ==> unchanged(breadcrumbs.entries[k])
    {
      if breadcrumbId !in breadcrumbs.entries {
        return None;
      }
      var b := breadcrumbs.entries[breadcrumbId];
      var point := BreadcrumbPoint(pointId, tag, range, uri, |b.points|, noteId);
      b.AddPoint(point);
      p := Some(point);
    }

    /** `removePoint`: false for an unknown breadcrumb, otherwise true exactly when some
        point had the id. */
    method RemovePoint(breadcrumbId: string, pointId: string) returns (removed: bool)
      requires Valid()
      modifies if breadcrumbId in breadcrumbs.entries then {breadcrumbs.entries[breadcrumbId]} else {}
      ensures breadcrumbId !in breadcrumbs.entries ==> !removed
      ensures breadcrumbId in breadcrumbs.entries ==>
                var b := breadcrumbs.entries[breadcrumbId];
                b.points == WithoutPoint(old(b.points), pointId)
                && b.caption == old(b.caption)
                && (removed <==> |b.points| < |old(b.points)|)
                && (removed <==> exists j :: 0 <= j < |old(b.points)| && old(b.points)[j].id == pointId)
      ensures forall k :: k in breadcrumbs.entries && k != breadcrumbId ==> unchanged(breadcrumbs.entries[k])
    {
      if breadcrumbId !in breadcrumbs.entries {
        return false;
      }
      var b := breadcrumbs.entries[breadcrumbId];
      var initialLength := |b.points|;
      b.RemovePoint(pointId);
      removed := initialLength != |b.points|;
    }

    /** `updateBreadcrumbLabel`: true exactly when the breadcrumb exists. */
    method UpdateBreadcrumbLabel(breadcrumbId: string, newLabel: string) returns (found: bool)
      requires Valid()
      modifies if breadcrumbId in breadcrumbs.entries then {breadcrumbs.entries[breadcrumbId]} else {}
      ensures found <==> breadcrumbId in breadcrumbs.entries
      ensures found ==> var b := breadcrumbs.entries[breadcrumbId];
                        b.caption == newLabel && b.points == old(b.points)
      ensures forall k :: k in breadcrumbs.entries && k != breadcrumbId ==> unchanged(breadcrumbs.entries[k])
    {
      if breadcrumbId !in breadcrumbs.entries {
        return false;
      }
      var b := breadcrumbs.entries[breadcrumbId];
      b.UpdateLabel(newLabel);
      found := true;
    }

    /** `getPointsForBreadcrumb`: a copy of the points, or none for an unknown id. */
    method GetPointsForBreadcrumb(breadcrumbId: string) returns (ps: seq<BreadcrumbPoint>)
      requires Valid()
      ensures breadcrumbId in breadcrumbs.entries ==> ps == breadcrumbs.entries[breadcrumbId].points
      ensures breadcrumbId !in breadcrumbs.entries ==> ps == []
    {
      if breadcrumbId !in breadcrumbs.entries {
        return [];
      }
      ps := breadcrumbs.entries[breadcrumbId].points;
    }

    /** `findBreadcrumbsByTag`: the breadcrumbs with a point of that tag, in table order. */
    method FindBreadcrumbsByTag(tag: string) returns (bs: seq<Breadcrumb>)
      requires Valid()
      ensures forall b :: b in bs <==> b in breadcrumbs.Values() && HasTag(b.points, tag)
      ensures bs == Tagged(breadcrumbs.Values(), tag)
    {
      bs := Tagged(breadcrumbs.Values(), tag);
    }
  }
}
