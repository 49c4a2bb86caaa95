/** The breadcrumb trail store (`src/breadcrumbs/store.ts`): a table of trails in insertion
    order, each holding an ordered list of crumbs, and the id of the active trail.
    Trails and crumbs are values here, so the copies the store hands out cannot alias
    its own state; fresh ids and clock readings are passed in by the caller. */
module TrailStore {
  import opened Wrappers
  import opened Editor
  import opened OrderedMap
  import opened StableSort

  /** One recorded code location of a trail. Timestamps are milliseconds since the epoch. */
  datatype Crumb = Crumb(id: string, trailId: string, uri: string, range: Range,
                         snippet: string, note: Option<string>, createdAt: nat)

  datatype Trail = Trail(id: string, name: string, description: Option<string>,
                         createdAt: nat, updatedAt: nat, crumbs: seq<Crumb>)

  /** The snapshot `getState` hands out and `replaceState` takes. */
  datatype BreadcrumbState = BreadcrumbState(activeTrailId: Option<string>, trails: seq<Trail>)

  /** The sort key of `getTrails`: ascending in it means most recently updated first. */
  function Recency(t: Trail): int {
    -(t.updatedAt as int)
  }

  function TrailId(t: Trail): string {
    t.id
  }

  /** The table `replaceState` builds: each trail set under its id, one after the other. */
  function Keyed(ts: seq<Trail>): (m: OMap<Trail>)
    ensures KeyedBy(m, TrailId)
  {
    FromValues(ts, TrailId)
  }

  /** The trail after `addCrumb` appended `c` at `now`. */
  function WithCrumb(t: Trail, c: Crumb, now: nat): Trail {
    t.(crumbs := t.crumbs + [c], updatedAt := now)
  }

  /** `cs` appended one after the other by `addCrumb`. */
  function WithCrumbs(t: Trail, cs: seq<Crumb>, now: nat): Trail {
    if cs == [] then t else WithCrumb(WithCrumbs(t, cs[..|cs| - 1], now), cs[|cs| - 1], now)
  }

  /** N crumbs added to a trail come after its old crumbs, in call order, and nothing
      but the crumbs and the update time changes. */
  lemma {:induction false} WithCrumbsInOrder(t: Trail, cs: seq<Crumb>, now: nat)
    ensures WithCrumbs(t, cs, now).crumbs == t.crumbs + cs
    ensures |WithCrumbs(t, cs, now).crumbs| == |t.crumbs| + |cs|
    ensures WithCrumbs(t, cs, now).(crumbs := t.crumbs, updatedAt := t.updatedAt) == t
  {
    if cs != [] {
      WithCrumbsInOrder(t, cs[..|cs| - 1], now);
      assert t.crumbs + cs[..|cs| - 1] + [cs[|cs| - 1]] == t.crumbs + cs;
    }
  }

  /** `crumbs.findIndex(c => c.id === id)`: the first match, or -1. */
  function FindCrumb(cs: seq<Crumb>, id: string): (i: int)
    ensures -1 <= i < |cs|
    ensures i >= 0 ==> cs[i].id == id && forall j :: 0 <= j < i ==> cs[j].id != id
    ensures i == -1 <==> forall j :: 0 <= j < |cs| ==> cs[j].id != id
  {
    if cs == [] then -1
    else if cs[0].id == id then 0
    else
      var i := FindCrumb(cs[1..], id);
      if i == -1 then -1 else i + 1
  }

  /** `crumbs.filter(c => c.id !== id)`. */
  function WithoutCrumb(cs: seq<Crumb>, id: string): (r: seq<Crumb>)
    ensures |r| <= |cs|
    ensures forall c :: c in r <==> c in cs && c.id != id
    ensures |r| == |cs| <==> forall j :: 0 <= j < |cs| ==> cs[j].id != id
    ensures |r| == |cs| ==> r == cs
  {
    if cs == [] then []
    else if cs[0].id == id then WithoutCrumb(cs[1..], id)
    else [cs[0]] + WithoutCrumb(cs[1..], id)
  }

  class BreadcrumbStore {
    var trails: OMap<Trail>
    var activeTrailId: Option<string>
    /** How many times `onDidChange` has fired. */
    var changes: nat

    ghost predicate Valid()
      reads this
    {
      KeyedBy(trails, TrailId)
    }

    constructor ()
      ensures Valid() && trails == Empty() && activeTrailId == None && changes == 0
    {
      trails := Empty();
      activeTrailId := None;
      changes := 0;
    }

    /** `getState`: the trails in insertion order, and the active id as stored. */
    method GetState() returns (st: BreadcrumbState)
      requires Valid()
      ensures st.activeTrailId == activeTrailId
      ensures |st.trails| == |trails.keys|
      ensures forall i :: 0 <= i < |st.trails| ==> st.trails[i] == trails.entries[trails.keys[i]]
      ensures Keyed(st.trails) == trails
    {
      st := BreadcrumbState(activeTrailId, trails.Values());
      FromValuesOfValues(trails, TrailId);
    }

    /** `replaceState`: the table is rebuilt from the snapshot, and the active id is taken
        as it is, whether or not it names a trail. */
    method ReplaceState(state: BreadcrumbState)
      modifies this
      ensures Valid()
      ensures trails == Keyed(state.trails)
      ensures activeTrailId == state.activeTrailId
      ensures changes == old(changes) + 1
    {
      trails := Empty();
      var i := 0;
      while i < |state.trails|
        invariant 0 <= i <= |state.trails|
        invariant trails == Keyed(state.trails[..i])
        invariant changes == old(changes)
      {
        var t := state.trails[i];
        assert state.trails[..i + 1][..i] == state.trails[..i];
        trails := trails.Put(t.id, t);
        i := i + 1;
      }
      assert state.trails[..i] == state.trails;
      activeTrailId := state.activeTrailId;
      changes := changes + 1;
    }

    /** `getTrails`: every stored trail once, most recently updated first, ties in
        insertion order. */
    method GetTrails() returns (ts: seq<Trail>)
      requires Valid()
      ensures multiset(ts) == multiset(trails.Values())
      ensures forall i, j :: 0 <= i < j < |ts| ==> ts[i].updatedAt >= ts[j].updatedAt
      ensures forall k :: WithKey(ts, Recency, k) == WithKey(trails.Values(), Recency, k)
    {
      ts := SortBy(trails.Values(), Recency);
      SortBySorted(trails.Values(), Recency);
      SortByPermutes(trails.Values(), Recency);
      assert SortedBy(ts, Recency);
      forall k ensures WithKey(ts, Recency, k) == WithKey(trails.Values(), Recency, k) {
        SortByStable(trails.Values(), Recency, k);
      }
    }

    /** `getTrail`: the trail stored under the id, if any. */
    method GetTrail(trailId: string) returns (t: Option<Trail>)
      requires Valid()
      ensures t.Some? <==> trailId in trails.entries
      ensures t.Some? ==> t.value == trails.entries[trailId] && t.value.id == trailId
    {
      t := trails.Get(trailId);
    }

    /** `getActiveTrail`: nothing when the active id is unset or empty, or names no trail. */
    method GetActiveTrail() returns (t: Option<Trail>)
      requires Valid()
      ensures t.Some? <==> activeTrailId.Some? && activeTrailId.value != ""
                           && activeTrailId.value in trails.entries
      ensures t.Some? ==> t.value == trails.entries[activeTrailId.value]
    {
      if activeTrailId == None || activeTrailId.value == "" {
        return None;
      }
      t := GetTrail(activeTrailId.value);
    }

    /** `setActiveTrail`: the id is stored without looking it up. */
    method SetActiveTrail(trailId: Option<string>)
      modifies this
      ensures trails == old(trails) && activeTrailId == trailId
      ensures changes == old(changes) + 1
    {
      activeTrailId := trailId;
      changes := changes + 1;
    }

    /** `createTrail`: a new empty trail under the fresh `id`, created and updated at `now`;
        it becomes active unless `setActive` is given as false. */
    method CreateTrail(name: string, description: Option<string>, setActive: Option<bool>,
                       id: string, now: nat) returns (t: Trail)
      requires Valid()
      modifies this
      ensures Valid()
      ensures t == Trail(id, name, description, now, now, [])
      ensures trails == old(trails).Put(id, t)
      ensures activeTrailId == if setActive == Some(false) then old(activeTrailId) else Some(id)
      ensures changes == old(changes) + 1
    {
      t := Trail(id, name, description, now, now, []);
      trails := trails.Put(id, t);
      if setActive.GetOr(true) {
        activeTrailId := Some(id);
      }
      changes := changes + 1;
    }

    /** `renameTrail`: name and description replaced (an absent description clears it),
        keeping the trail's place; an unknown id changes nothing and fires nothing. */
    method RenameTrail(trailId: string, name: string, description: Option<string>, now: nat)
      requires Valid()
      modifies this
      ensures Valid() && activeTrailId == old(activeTrailId)
      ensures trailId !in old(trails.entries) ==> trails == old(trails) && changes == old(changes)
      ensures trailId in old(trails.entries) ==>
                trails == old(trails).Put(trailId, old(trails.entries[trailId]).(
                            name := name, description := description, updatedAt := now))
                && trails.keys == old(trails.keys)
                && changes == old(changes) + 1
    {
      if trailId !in trails.entries {
        return;
      }
      var t := trails.entries[trailId];
      trails := trails.Put(trailId, t.(name := name, description := description, updatedAt := now));
      changes := changes + 1;
    }

    /** `deleteTrail`: deleting the active trail makes the first remaining trail active,
        or none when no trail is left; an unknown id changes nothing. */
    method DeleteTrail(trailId: string)
      requires Valid()
      modifies this
      ensures Valid()
      ensures trailId !in old(trails.entries) ==>
                trails == old(trails) && activeTrailId == old(activeTrailId) && changes == old(changes)
      ensures trailId in old(trails.entries) ==>
                trails == old(trails).Remove(trailId) && changes == old(changes) + 1
                && activeTrailId == (if old(activeTrailId) != Some(trailId) then old(activeTrailId)
                                     else if trails.keys == [] then None
                                     else Some(trails.keys[0]))
      ensures trailId in old(trails.entries) && old(activeTrailId) == Some(trailId) ==>
                (activeTrailId.Some? <==> trails.keys != [])
                && (activeTrailId.Some? ==> activeTrailId.value in trails.entries)
    {
      if trailId !in trails.entries {
        return;
      }
      trails := trails.Remove(trailId);
      if activeTrailId == Some(trailId) {
        activeTrailId := if |trails.keys| > 0 then Some(trails.keys[0]) else None;
      }
      changes := changes + 1;
    }

    /** `addCrumb`: a new crumb `crumbId` recorded at `now` goes to the end of the trail's
        crumbs; an unknown trail changes nothing and gives no crumb. */
    method AddCrumb(trailId: string, uri: string, range: Range, snippet: string,
                    note: Option<string>, crumbId: string, now: nat) returns (c: Option<Crumb>)
      requires Valid()
      modifies this
      ensures Valid() && activeTrailId == old(activeTrailId)
      ensures c.Some? <==> trailId in old(trails.entries)
      ensures c.None? ==> trails == old(trails) && changes == old(changes)
      ensures c.Some? ==>
                c.value == Crumb(crumbId, trailId, uri, range, snippet, note, now)
                && trails == old(trails).Put(trailId, WithCrumb(old(trails.entries[trailId]), c.value, now))
                && trails.keys == old(trails.keys)
                && changes == old(changes) + 1
    {
      if trailId !in trails.entries {
        return None;
      }
      var t := trails.entries[trailId];
      var crumb := Crumb(crumbId, trailId, uri, range, snippet, note, now);
      trails := trails.Put(trailId, WithCrumb(t, crumb, now));
      changes := changes + 1;
      c := Some(crumb);
    }

    /** `updateCrumbNote`: only the note of the first crumb with the id changes; an unknown
        trail or crumb changes nothing, not even the update time. */
    method UpdateCrumbNote(trailId: string, crumbId: string, note: Option<string>, now: nat)
      requires Valid()
      modifies this
      ensures Valid() && activeTrailId == old(activeTrailId)
      ensures trailId !in old(trails.entries)
              || FindCrumb(old(trails.entries[trailId]).crumbs, crumbId) == -1 ==>
                trails == old(trails) && changes == old(changes)
      ensures trailId in old(trails.entries)
              && FindCrumb(old(trails.entries[trailId]).crumbs, crumbId) >= 0 ==>
                var t := old(trails.entries[trailId]);
                var i := FindCrumb(t.crumbs, crumbId);
                trails == old(trails).Put(trailId, t.(crumbs := t.crumbs[i := t.crumbs[i].(note := note)],
                                                    updatedAt := now))
                && changes == old(changes) + 1
    {
      if trailId !in trails.entries {
        return;
      }
      var t := trails.entries[trailId];
      var index := FindCrumb(t.crumbs, crumbId);
      if index == -1 {
        return;
      }
      var cs := t.crumbs[index := t.crumbs[index].(note := note)];
      trails := trails.Put(trailId, t.(crumbs := cs, updatedAt := now));
      changes := changes + 1;
    }

    /** `removeCrumb`: every crumb with the id goes, the rest keep their order; when none
        matched, nothing changes. */
    method RemoveCrumb(trailId: string, crumbId: string, now: nat)
      requires Valid()
      modifies this
      ensures Valid() && activeTrailId == old(activeTrailId)
      ensures trailId !in old(trails.entries)
              || (forall c :: c in old(trails.entries[trailId]).crumbs ==> c.id != crumbId) ==>
                trails == old(trails) && changes == old(changes)
      ensures trailId in old(trails.entries)
              && (exists c :: c in old(trails.entries[trailId]).crumbs && c.id == crumbId) ==>
                var t := old(trails.entries[trailId]);
                trails == old(trails).Put(trailId, t.(crumbs := WithoutCrumb(t.crumbs, crumbId),
                                                    updatedAt := now))
                && changes == old(changes) + 1
    {
      if trailId !in trails.entries {
        return;
      }
      var t := trails.entries[trailId];
      var next := WithoutCrumb(t.crumbs, crumbId);
      if |next| == |t.crumbs| {
        return;
      }
      trails := trails.Put(trailId, t.(crumbs := next, updatedAt := now));
      changes := changes + 1;
    }
  }
}
