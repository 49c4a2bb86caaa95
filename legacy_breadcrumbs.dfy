/** The legacy breadcrumb model (`src/models/breadcrumb.ts`): a labelled breadcrumb whose
    points are kept sorted by their explicit ordinal. */
module LegacyBreadcrumbs {
  import opened Wrappers
  import opened Editor
  import opened StableSort

  datatype BreadcrumbPoint = BreadcrumbPoint(id: string, tag: string, range: Range, uri: string,
                                             ordinal: int, noteId: Option<string>)

  /** The sort key of `addPoint`: `(a, b) => a.ordinal - b.ordinal`. */
  function Ordinal(p: BreadcrumbPoint): int {
    p.ordinal
  }

  /** `points.filter(point => point.id !== id)`. */
  function WithoutPoint(ps: seq<BreadcrumbPoint>, id: string): (r: seq<BreadcrumbPoint>)
    ensures |r| <= |ps|
    ensures forall p :: p in r <==> p in ps && p.id != id
    ensures |r| == |ps| <==> forall j :: 0 <= j < |ps| ==> ps[j].id != id
    ensures |r| == |ps| ==> r == ps
  {
    if ps == [] then []
    else if ps[0].id == id then WithoutPoint(ps[1..], id)
    else [ps[0]] + WithoutPoint(ps[1..], id)
  }

  /** `addPoint`: the points after pushing `p` and sorting by ordinal. */
  function AddedPoint(ps: seq<BreadcrumbPoint>, p: BreadcrumbPoint): seq<BreadcrumbPoint> {
    SortBy(ps + [p], Ordinal)
  }

  /** `addPoint` gives one more point: the old points and `p`, sorted by ordinal, with
      points of equal ordinal in the order they were added. */
  lemma AddedPointSpec(ps: seq<BreadcrumbPoint>, p: BreadcrumbPoint)
    ensures |AddedPoint(ps, p)| == |ps| + 1
    ensures multiset(AddedPoint(ps, p)) == multiset(ps) + multiset{p}
    ensures SortedBy(AddedPoint(ps, p), Ordinal)
    ensures forall k :: WithKey(AddedPoint(ps, p), Ordinal, k) == WithKey(SortBy(ps, Ordinal), Ordinal, k)
                                                                 + WithKey([p], Ordinal, k)
  {
    SortBySorted(ps + [p], Ordinal);
    SortByPermutes(ps + [p], Ordinal);
    assert (ps + [p])[..|ps|] == ps;
    forall k ensures WithKey(AddedPoint(ps, p), Ordinal, k) == WithKey(SortBy(ps, Ordinal), Ordinal, k)
                                                              + WithKey([p], Ordinal, k) {
      InsertByStable(SortBy(ps, Ordinal), p, Ordinal, k);
    }
  }

  /** On sorted points, sorting after the push places `p` after every point whose ordinal
      is not greater than its own. */
  lemma AddedPointInserts(ps: seq<BreadcrumbPoint>, p: BreadcrumbPoint)
    requires SortedBy(ps, Ordinal)
    ensures AddedPoint(ps, p) == InsertBy(ps, p, Ordinal)
  {
    assert (ps + [p])[..|ps|] == ps;
    SortBySortedIdentity(ps, Ordinal);
  }

  /** Pushing and sorting repeatedly is the same as sorting all the points once. */
  lemma {:induction false} AddedPointsSort(ps: seq<BreadcrumbPoint>, p: BreadcrumbPoint)
    ensures AddedPoint(SortBy(ps, Ordinal), p) == SortBy(ps + [p], Ordinal)
  {
    SortBySorted(ps, Ordinal);
    AddedPointInserts(SortBy(ps, Ordinal), p);
    assert (ps + [p])[..|ps|] == ps;
  }

  /** A point whose ordinal is at least every other ordinal goes to the end. */
  lemma AddedPointLast(ps: seq<BreadcrumbPoint>, p: BreadcrumbPoint)
    requires SortedBy(ps, Ordinal)
    requires forall j :: 0 <= j < |ps| ==> ps[j].ordinal <= p.ordinal
    ensures AddedPoint(ps, p) == ps + [p]
  {
    AddedPointInserts(ps, p);
  }

  /** Removing points keeps the others sorted. */
  lemma {:induction false} WithoutPointSorted(ps: seq<BreadcrumbPoint>, id: string)
    requires SortedBy(ps, Ordinal)
    ensures SortedBy(WithoutPoint(ps, id), Ordinal)
  {
    if ps != [] {
      SortedTail(ps, Ordinal);
      WithoutPointSorted(ps[1..], id);
      if ps[0].id != id {
        SortedCons(ps[0], WithoutPoint(ps[1..], id), Ordinal);
      }
    }
  }

  /** The contents of a breadcrumb object at one moment. */
  datatype BreadcrumbValue = BreadcrumbValue(id: string, caption: string, points: seq<BreadcrumbPoint>)

  function ValueId(v: BreadcrumbValue): string {
    v.id
  }

  function BreadcrumbId(b: Breadcrumb): string {
    b.id
  }

  class Breadcrumb {
    const id: string
    var points: seq<BreadcrumbPoint>
    /** `label` of the source (a reserved word in Dafny). */
    var caption: string

    constructor (id: string, caption: string)
      ensures this.id == id && this.caption == caption && points == []
    {
      this.id := id;
      this.caption := caption;
      points := [];
    }

    function Value(): BreadcrumbValue
      reads this
    {
      BreadcrumbValue(id, caption, points)
    }

    /** `addPoint`: push, then sort by ordinal. */
    method AddPoint(point: BreadcrumbPoint)
      modifies this`points
      ensures points == AddedPoint(old(points), point) && caption == old(caption)
    {
      points := SortBy(points + [point], Ordinal);
    }

    /** `removePoint`: every point with the id goes, the others keep their order. */
    method RemovePoint(id: string)
      modifies this`points
      ensures points == WithoutPoint(old(points), id) && caption == old(caption)
    {
      points := WithoutPoint(points, id);
    }

    /** `updateLabel`: the label is replaced; id and points are untouched. */
    method UpdateLabel(newLabel: string)
      modifies this`caption
      ensures caption == newLabel && points == old(points)
    {
      caption := newLabel;
    }
  }
}
