/** An already-parsed JSON document, the field and element access the report adapters
    use, and the shape they share: convert entries one by one in order and stop at the
    first entry whose conversion throws, keeping what was converted before it. */
module JsonTree {
  import opened Wrappers
  import opened Text

  datatype Json = JNull | JBool(b: bool) | JNum(n: int) | JStr(s: string) | JArr(items: seq<Json>)
                | JObj(fields: map<string, Json>)

  /** `j[k]`: present only on an object that has the key. */
  function Member(j: Json, k: string): Option<Json> {
    if j.JObj? && k in j.fields then Some(j.fields[k]) else None
  }

  /** `j[i]`: present only on an array long enough. */
  function Element(j: Json, i: nat): Option<Json> {
    if j.JArr? && i < |j.items| then Some(j.items[i]) else None
  }

  /** JavaScript truthiness of a possibly missing value. */
  predicate Truthy(o: Option<Json>) {
    match o
    case None => false
    case Some(JNull) => false
    case Some(JBool(b)) => b
    case Some(JNum(n)) => n != 0
    case Some(JStr(s)) => s != ""
    case Some(_) => true
  }

  /** `j.k`, throwing unless `j` is an object holding the key. */
  function Get(j: Json, k: string): (r: Result<Json>)
    ensures r.Ok? <==> Member(j, k).Some?
    ensures r.Ok? ==> Some(r.value) == Member(j, k)
  {
    if j.JObj? && k in j.fields then Ok(j.fields[k]) else Fault
  }

  /** The value as an array for `.map`, as a number for arithmetic, as text for a
      template; any other value throws. */
  function AsArray(o: Option<Json>): (r: Result<seq<Json>>)
    ensures r.Ok? <==> o.Some? && o.value.JArr?
  {
    if o.Some? && o.value.JArr? then Ok(o.value.items) else Fault
  }

  function AsInt(o: Option<Json>): (r: Result<int>)
    ensures r.Ok? <==> o.Some? && o.value.JNum?
  {
    if o.Some? && o.value.JNum? then Ok(o.value.n) else Fault
  }

  function AsString(o: Option<Json>): (r: Result<string>)
    ensures r.Ok? <==> o.Some? && o.value.JStr?
  {
    if o.Some? && o.value.JStr? then Ok(o.value.s) else Fault
  }

  /** Field access followed by a type check. */
  function ArrayAt(j: Json, k: string): Result<seq<Json>> {
    AsArray(Member(j, k))
  }

  function IntAt(j: Json, k: string): Result<int> {
    AsInt(Member(j, k))
  }

  function StringAt(j: Json, k: string): Result<string> {
    AsString(Member(j, k))
  }

  /** The conversions of the entries, one per entry, in order. */
  function Steps<T>(xs: seq<Json>, f: Json -> Result<T>): (r: seq<Result<T>>)
    ensures |r| == |xs| && forall i :: 0 <= i < |xs| ==> r[i] == f(xs[i])
  {
    seq(|xs|, i requires 0 <= i < |xs| => f(xs[i]))
  }

  predicate AllOk<T>(steps: seq<Result<T>>) {
    forall i :: 0 <= i < |steps| ==> steps[i].Ok?
  }

  /** The values of the steps before the first fault: what a `try` around a loop of pushes
      keeps when the loop throws. */
  function OkPrefix<T>(steps: seq<Result<T>>): (r: seq<T>)
    ensures |r| <= |steps|
    ensures forall i :: 0 <= i < |r| ==> steps[i] == Ok(r[i])
    ensures |r| < |steps| ==> steps[|r|].Fault?
    ensures |r| == |steps| <==> AllOk(steps)
  {
    if steps == [] then []
    else if steps[0].Fault? then []
    else [steps[0].value] + OkPrefix(steps[1..])
  }

  /** The three properties of `OkPrefix` pin it down. */
  lemma {:induction false} OkPrefixUnique<T>(steps: seq<Result<T>>, r: seq<T>)
    requires |r| <= |steps|
    requires forall i :: 0 <= i < |r| ==> steps[i] == Ok(r[i])
    requires |r| < |steps| ==> steps[|r|].Fault?
    ensures r == OkPrefix(steps)
  {
    if |r| > 0 {
      OkPrefixUnique(steps[1..], r[1..]);
      assert r == [r[0]] + r[1..];
    }
  }

  /** Converting the entries of two lists in a row: the second list is reached only when
      every entry of the first converted. */
  lemma OkPrefixAppend<T>(a: seq<Result<T>>, b: seq<Result<T>>)
    ensures AllOk(a + b) <==> AllOk(a) && AllOk(b)
    ensures OkPrefix(a + b) == if AllOk(a) then OkPrefix(a) + OkPrefix(b) else OkPrefix(a)
  {
    var pa, pb := OkPrefix(a), OkPrefix(b);
    if AllOk(a) {
      OkPrefixUnique(a + b, pa + pb);
    } else {
      OkPrefixUnique(a + b, pa);
    }
  }

  /** The steps of the first `n` parts, in order. */
  function Flatten<T>(parts: seq<seq<T>>, n: nat): (r: seq<T>)
    requires n <= |parts|
  {
    if n == 0 then [] else Flatten(parts, n - 1) + parts[n - 1]
  }

  /** The first `k` parts flattened begin the first `n`, and part `k` sits right after
      them. */
  lemma {:induction false} FlattenSliceAt<T>(parts: seq<seq<T>>, k: nat, n: nat)
    requires k < n <= |parts|
    ensures |Flatten(parts, k + 1)| <= |Flatten(parts, n)|
    ensures Flatten(parts, n)[..|Flatten(parts, k + 1)|] == Flatten(parts, k + 1)
    ensures Flatten(parts, n)[|Flatten(parts, k)|..|Flatten(parts, k + 1)|] == parts[k]
    decreases n
  {
    var a, b := Flatten(parts, k), parts[k];
    if n == k + 1 {
      assert Flatten(parts, n)[..|a + b|] == a + b;
    } else {
      FlattenSliceAt(parts, k, n - 1);
      var init := Flatten(parts, n - 1);
      assert Flatten(parts, n) == init + parts[n - 1];
      assert Flatten(parts, n)[..|a + b|] == init[..|a + b|];
    }
    assert Flatten(parts, n)[|a|..|a + b|] == (a + b)[|a|..];
  }

  /** One more part flattened. */
  lemma FlattenStep<T>(parts: seq<seq<T>>, n: nat, init: seq<T>, last: seq<T>)
    requires 0 < n <= |parts| && Flatten(parts, n - 1) == init && parts[n - 1] == last
    ensures Flatten(parts, n) == init + last
  {
  }

  /** Part `k` read back from the flattened parts, at the offsets where it was put. */
  lemma FlattenPartAt<T>(ls: seq<T>, parts: seq<seq<T>>, k: nat, n: nat, i: nat, j: nat, part: seq<T>)
    requires k < n <= |parts| && ls == Flatten(parts, n) && part == parts[k]
    requires i == |Flatten(parts, k)| && j == |Flatten(parts, k + 1)|
    ensures j <= |ls| && ls[i..j] == part
  {
    FlattenSliceAt(parts, k, n);
  }

  /** Flattening two lists of parts one after the other. */
  lemma {:induction false} FlattenAppend<T>(a: seq<seq<T>>, b: seq<seq<T>>)
    ensures Flatten(a + b, |a + b|) == Flatten(a, |a|) + Flatten(b, |b|)
  {
    FlattenPrefix(a + b, a, |a|);
    if b != [] {
      var c := b[..|b| - 1];
      assert a + b == (a + c) + [b[|b| - 1]];
      FlattenPrefix(a + b, a + c, |a + c|);
      FlattenAppend(a, c);
      FlattenPrefix(b, c, |c|);
      AppendAssoc(Flatten(a, |a|), Flatten(c, |c|), b[|b| - 1]);
    }
  }

  /** The values of two lists of parts read one after the other: the second list counts
      only when every step of the first converted. */
  lemma OkPrefixFlattenAppend<T>(pa: seq<seq<Result<T>>>, pb: seq<seq<Result<T>>>)
    ensures var first := Flatten(pa, |pa|);
            OkPrefix(Flatten(pa + pb, |pa + pb|))
            == if AllOk(first) then OkPrefix(first) + OkPrefix(Flatten(pb, |pb|)) else OkPrefix(first)
  {
    FlattenAppend(pa, pb);
    OkPrefixAppend(Flatten(pa, |pa|), Flatten(pb, |pb|));
  }

  /** Flatten only looks at the parts it counts. */
  lemma {:induction false} FlattenPrefix<T>(p: seq<seq<T>>, q: seq<seq<T>>, n: nat)
    requires n <= |p| && n <= |q| && p[..n] == q[..n]
    ensures Flatten(p, n) == Flatten(q, n)
  {
    if n > 0 {
      assert p[..n - 1] == q[..n - 1] && p[n - 1] == q[n - 1] by {
        assert p[n - 1] == p[..n][n - 1];
      }
      FlattenPrefix(p, q, n - 1);
    }
  }

  /** Once a part has thrown, later parts add nothing. */
  lemma {:induction false} OkPrefixFlattenStops<T>(parts: seq<seq<Result<T>>>, n: nat, m: nat)
    requires n <= m <= |parts| && !AllOk(Flatten(parts, n))
    ensures !AllOk(Flatten(parts, m))
    ensures OkPrefix(Flatten(parts, m)) == OkPrefix(Flatten(parts, n))
  {
    if m > n {
      OkPrefixFlattenStops(parts, n, m - 1);
      var a, b := Flatten(parts, m - 1), parts[m - 1];
      OkPrefixAppend(a, b);
      assert |OkPrefix(a + b)| < |a + b|;
    }
  }

  /** One more part, read after every earlier part converted: its values follow, and when
      it throws nothing after it counts. */
  lemma OkPrefixFlattenStep<T>(parts: seq<seq<Result<T>>>, i: nat)
    requires i < |parts| && AllOk(Flatten(parts, i))
    ensures AllOk(Flatten(parts, i + 1)) == AllOk(parts[i])
    ensures OkPrefix(Flatten(parts, i + 1)) == OkPrefix(Flatten(parts, i)) + OkPrefix(parts[i])
    ensures !AllOk(parts[i]) ==> !AllOk(Flatten(parts, |parts|))
    ensures !AllOk(parts[i]) ==> OkPrefix(Flatten(parts, |parts|)) == OkPrefix(Flatten(parts, i + 1))
  {
    OkPrefixAppend(Flatten(parts, i), parts[i]);
    if !AllOk(parts[i]) {
      OkPrefixFlattenStops(parts, i + 1, |parts|);
    }
  }

  /** `entries.map(e => { ...; results.push(convert(e)); })`: the conversions in order, up
      to the first that throws; `complete` says whether none threw. */
  method CollectUntilFault<T>(xs: seq<Json>, f: Json -> Result<T>) returns (out: seq<T>, complete: bool)
    ensures out == OkPrefix(Steps(xs, f))
    ensures complete == AllOk(Steps(xs, f))
  {
    out := [];
    var i := 0;
    while i < |xs|
      invariant 0 <= i <= |xs| && |out| == i
      invariant forall j :: 0 <= j < i ==> f(xs[j]) == Ok(out[j])
    {
      var step := f(xs[i]);
      if step.Fault? {
        OkPrefixUnique(Steps(xs, f), out);
        return out, false;
      }
      out := out + [step.value];
      i := i + 1;
    }
    OkPrefixUnique(Steps(xs, f), out);
    complete := true;
  }
}
