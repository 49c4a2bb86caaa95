/** A JavaScript `Map`: a finite map that iterates in insertion order. Setting a key that
    is already present replaces its value and keeps its position; deleting a key removes
    it from the order. */
module OrderedMap {
  import opened Wrappers

  // Every map of the extension is keyed by a string id.

  predicate Distinct(s: seq<string>) {
    forall i, j :: 0 <= i < j < |s| ==> s[i] != s[j]
  }

  /** `s` without any occurrence of `x`, the rest in order. */
  function Without(s: seq<string>, x: string): (r: seq<string>)
    ensures forall y :: y in r <==> y in s && y != x
    ensures |r| <= |s|
    ensures x !in s ==> r == s
  {
    if |s| == 0 then []
    else if s[0] == x then Without(s[1..], x)
    else [s[0]] + Without(s[1..], x)
  }

  lemma {:induction false} WithoutDistinct(s: seq<string>, x: string)
    requires Distinct(s)
    ensures Distinct(Without(s, x))
  {
    if |s| > 0 {
      WithoutDistinct(s[1..], x);
      var w := Without(s[1..], x);
      assert s[0] !in s[1..];
      if s[0] != x {
        forall i, j | 0 <= i < j < |[s[0]] + w| ensures ([s[0]] + w)[i] != ([s[0]] + w)[j] {
          if i == 0 { assert ([s[0]] + w)[j] == w[j - 1]; assert w[j - 1] in w; }
        }
      }
    }
  }

  /** Removing the first key of a sequence whose other keys differ from it leaves its tail. */
  lemma WithoutHead(s: seq<string>)
    requires |s| > 0 && Distinct(s)
    ensures Without(s, s[0]) == s[1..]
  {
    assert s[0] !in s[1..];
  }

  datatype OMap<V> = OMap(keys: seq<string>, entries: map<string, V>) {

    /** Every key occurs once in the order, and the order holds exactly the keys. */
    ghost predicate Valid() {
      Distinct(keys) && forall k :: k in entries <==> k in keys
    }

    function Size(): nat {
      |keys|
    }

    /** `map.get(k)`: `undefined` for an absent key. */
    function Get(k: string): Option<V> {
      if k in entries then Some(entries[k]) else None
    }

    /** `map.set(k, v)`. */
    function Put(k: string, v: V): (r: OMap<V>)
      requires Valid()
      ensures r.Valid()
      ensures r.entries == entries[k := v]
      ensures k in entries ==> r.keys == keys
      ensures k !in entries ==> r.keys == keys + [k]
    {
      OMap(if k in entries then keys else keys + [k], entries[k := v])
    }

    /** `map.delete(k)`. */
    function Remove(k: string): (r: OMap<V>)
      requires Valid()
      ensures r.Valid()
      ensures r.entries == entries - {k}
      ensures r.keys == Without(keys, k)
    {
      WithoutDistinct(keys, k);
      OMap(Without(keys, k), entries - {k})
    }

    /** `[...map.values()]`: the values in insertion order. */
    function Values(): (vs: seq<V>)
      requires Valid()
      ensures |vs| == |keys|
      ensures forall i :: 0 <= i < |keys| ==> vs[i] == entries[keys[i]]
    {
      seq(|keys|, i requires 0 <= i < |keys| => entries[keys[i]])
    }
  }

  function Empty<V>(): (m: OMap<V>)
    ensures m.Valid() && m.keys == [] && m.entries == map[]
  {
    OMap([], map[])
  }

  /** A present key's position is kept by `Put`, so the values list changes in that slot only. */
  lemma PutExistingValues<V>(m: OMap<V>, i: nat, v: V)
    requires m.Valid() && i < |m.keys|
    ensures m.Put(m.keys[i], v).Values() == m.Values()[i := v]
  {
    var r := m.Put(m.keys[i], v);
    forall j | 0 <= j < |m.keys| ensures r.Values()[j] == m.Values()[i := v][j] {
      if j != i { assert m.keys[j] != m.keys[i]; }
    }
  }

  /** A new key goes to the end of the values list. */
  lemma PutNewValues<V>(m: OMap<V>, k: string, v: V)
    requires m.Valid() && k !in m.entries
    ensures m.Put(k, v).Values() == m.Values() + [v]
  {
    var r := m.Put(k, v);
    forall j | 0 <= j < |m.keys| ensures r.Values()[j] == m.Values()[j] {
      assert m.keys[j] != k;
    }
  }

  /** Every key of the table is the id, as `id` reads it, of the value stored under it. */
  ghost predicate KeyedBy<V>(m: OMap<V>, id: V -> string) {
    m.Valid() && forall k :: k in m.entries ==> id(m.entries[k]) == k
  }

  /** Deleting a key keeps a table keyed by id; deleting an absent key changes nothing. */
  lemma RemoveKeyedBy<V>(m: OMap<V>, id: V -> string, k: string)
    requires KeyedBy(m, id)
    ensures KeyedBy(m.Remove(k), id)
    ensures k !in m.entries ==> m.Remove(k) == m
  {
    if k !in m.entries {
      assert m.entries - {k} == m.entries;
    }
  }

  /** The table built by setting each value under its id, one after the other. */
  function FromValues<V>(vs: seq<V>, id: V -> string): (m: OMap<V>)
    ensures KeyedBy(m, id)
  {
    if vs == [] then Empty() else FromValues(vs[..|vs| - 1], id).Put(id(vs[|vs| - 1]), vs[|vs| - 1])
  }

  /** The table holds exactly the ids of the values it was built from. */
  lemma {:induction false} FromValuesDomain<V>(vs: seq<V>, id: V -> string, k: string)
    ensures k in FromValues(vs, id).entries <==> exists i :: 0 <= i < |vs| && id(vs[i]) == k
  {
    if vs != [] {
      var init := vs[..|vs| - 1];
      FromValuesDomain(init, id, k);
      if k in FromValues(init, id).entries {
        var i :| 0 <= i < |init| && id(init[i]) == k;
        assert vs[i] == init[i];
      }
      if k != id(vs[|vs| - 1]) && exists i :: 0 <= i < |vs| && id(vs[i]) == k {
        var i :| 0 <= i < |vs| && id(vs[i]) == k;
        assert init[i] == vs[i];
      }
    }
  }

  /** Of several values with one id, the last one wins. */
  lemma {:induction false} FromValuesLastWins<V>(vs: seq<V>, id: V -> string, i: nat)
    requires i < |vs|
    requires forall j :: i < j < |vs| ==> id(vs[j]) != id(vs[i])
    ensures id(vs[i]) in FromValues(vs, id).entries && FromValues(vs, id).entries[id(vs[i])] == vs[i]
  {
    if i < |vs| - 1 {
      var init := vs[..|vs| - 1];
      assert forall j :: i < j < |init| ==> init[j] == vs[j];
      FromValuesLastWins(init, id, i);
      assert id(vs[|vs| - 1]) != id(vs[i]);
    }
  }

  /** Values with distinct ids keep their order as the table's keys. */
  lemma {:induction false} FromValuesDistinctKeys<V>(vs: seq<V>, id: V -> string)
    requires forall i, j :: 0 <= i < j < |vs| ==> id(vs[i]) != id(vs[j])
    ensures |FromValues(vs, id).keys| == |vs|
    ensures forall i :: 0 <= i < |vs| ==> FromValues(vs, id).keys[i] == id(vs[i])
  {
    if vs != [] {
      var init, last := vs[..|vs| - 1], vs[|vs| - 1];
      assert forall i :: 0 <= i < |init| ==> init[i] == vs[i];
      FromValuesDistinctKeys(init, id);
      var m := FromValues(init, id);
      assert id(last) !in m.entries by {
        forall i | 0 <= i < |m.keys| ensures m.keys[i] != id(last) {
          assert m.keys[i] == id(vs[i]);
        }
      }
      assert FromValues(vs, id).keys == m.keys + [id(last)];
    }
  }

  /** The values of a table keyed by id carry the table's keys as their ids. */
  lemma ValuesIds<V>(m: OMap<V>, id: V -> string)
    requires KeyedBy(m, id)
    ensures forall i :: 0 <= i < |m.keys| ==> id(m.Values()[i]) == m.keys[i]
  {
    forall i | 0 <= i < |m.keys| ensures id(m.Values()[i]) == m.keys[i] {
      assert m.keys[i] in m.entries;
    }
  }

  /** Rebuilding a table from its own values in order gives the very same table. */
  lemma FromValuesOfValues<V>(m: OMap<V>, id: V -> string)
    requires KeyedBy(m, id)
    ensures FromValues(m.Values(), id) == m
  {
    var vs := m.Values();
    ValuesIds(m, id);
    FromValuesDistinctKeys(vs, id);
    var r := FromValues(vs, id);
    assert r.keys == m.keys;
    forall k | k in m.entries ensures k in r.entries && r.entries[k] == m.entries[k] {
      var i :| 0 <= i < |m.keys| && m.keys[i] == k;
      FromValuesLastWins(vs, id, i);
    }
    assert r.entries.Keys == m.entries.Keys by {
      forall k | k in r.entries ensures k in m.entries {
        assert k in r.keys;
      }
    }
  }

  /** The table after `map.set(ks[i], vs[i])` for each `i` in order. */
  function PutAll<V>(m: OMap<V>, ks: seq<string>, vs: seq<V>): (r: OMap<V>)
    requires m.Valid() && |ks| == |vs|
    ensures r.Valid()
    decreases |ks|
  {
    if ks == [] then m
    else PutAll(m, ks[..|ks| - 1], vs[..|vs| - 1]).Put(ks[|ks| - 1], vs[|vs| - 1])
  }

  /** One more put extends the puts done so far by the next key and value. */
  lemma PutAllStep<V>(m: OMap<V>, ks: seq<string>, vs: seq<V>, i: nat)
    requires m.Valid() && |ks| == |vs| && i < |ks|
    ensures PutAll(m, ks[..i + 1], vs[..i + 1]) == PutAll(m, ks[..i], vs[..i]).Put(ks[i], vs[i])
  {
    assert ks[..i + 1][..i] == ks[..i] && vs[..i + 1][..i] == vs[..i];
  }

  /** After the puts the table holds the old keys, in their old order, and then the keys
      that were new. */
  lemma {:induction false} PutAllKeepsOrder<V>(m: OMap<V>, ks: seq<string>, vs: seq<V>)
    requires m.Valid() && |ks| == |vs|
    ensures |PutAll(m, ks, vs).keys| >= |m.keys| && PutAll(m, ks, vs).keys[..|m.keys|] == m.keys
    decreases |ks|
  {
    if ks != [] {
      var r := PutAll(m, ks[..|ks| - 1], vs[..|vs| - 1]);
      PutAllKeepsOrder(m, ks[..|ks| - 1], vs[..|vs| - 1]);
      assert r.Put(ks[|ks| - 1], vs[|vs| - 1]).keys[..|m.keys|] == r.keys[..|m.keys|];
    }
  }

  /** A key is in a non-empty list when it is in all but its last entry, or is that entry. */
  lemma InInitOrLast(ks: seq<string>, k: string)
    requires ks != []
    ensures k in ks <==> k in ks[..|ks| - 1] || k == ks[|ks| - 1]
  {
    assert ks == ks[..|ks| - 1] + [ks[|ks| - 1]];
  }

  /** A put adds its key and leaves every other key as it was. */
  lemma PutOther<V>(m: OMap<V>, k: string, v: V, x: string)
    requires m.Valid()
    ensures x in m.Put(k, v).entries <==> x in m.entries || x == k
    ensures x != k ==> m.Put(k, v).Get(x) == m.Get(x)
  {
  }

  /** The puts add exactly the keys put; a key not put keeps its old value. */
  lemma {:induction false} PutAllDomain<V>(m: OMap<V>, ks: seq<string>, vs: seq<V>, k: string)
    requires m.Valid() && |ks| == |vs|
    ensures k in PutAll(m, ks, vs).entries <==> k in m.entries || k in ks
    ensures k !in ks ==> PutAll(m, ks, vs).Get(k) == m.Get(k)
    decreases |ks|
  {
    if ks != [] {
      var init, last := ks[..|ks| - 1], ks[|ks| - 1];
      var r := PutAll(m, init, vs[..|vs| - 1]);
      PutAllDomain(m, init, vs[..|vs| - 1], k);
      PutOther(r, last, vs[|vs| - 1], k);
      InInitOrLast(ks, k);
    }
  }

  /** Of several puts of one key, the last one wins. */
  lemma {:induction false} PutAllLastWins<V>(m: OMap<V>, ks: seq<string>, vs: seq<V>, i: nat)
    requires m.Valid() && |ks| == |vs| && i < |ks|
    requires forall j :: i < j < |ks| ==> ks[j] != ks[i]
    ensures ks[i] in PutAll(m, ks, vs).entries && PutAll(m, ks, vs).entries[ks[i]] == vs[i]
    decreases |ks|
  {
    if i < |ks| - 1 {
      var init := ks[..|ks| - 1];
      assert forall j :: i < j < |init| ==> init[j] == ks[j];
      PutAllLastWins(m, init, vs[..|vs| - 1], i);
    }
  }
}
