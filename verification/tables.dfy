/** The document store under the backend. A table is the sequence of its
    documents in creation order: every query of the core either scans a whole
    table or an index range fixed by equality on all of its fields, and both
    return documents in creation order. Each document carries the two system
    fields the store assigns, `_id` and `_creationTime`. */
module Tables {
  import opened Results
  import opened Errors

  datatype Doc<V> = Doc(id: nat, created: nat, val: V)

  type Table<V> = seq<Doc<V>>

  function Ids<V(==)>(t: Table<V>): set<nat> {
    set d | d in t :: d.id
  }

  /** No two documents of `t` agree on `key`: what an index queried with
      `.unique()` relies on. */
  ghost predicate KeyUnique<V, K>(t: Table<V>, key: Doc<V> -> K) {
    forall i, j :: 0 <= i < j < |t| ==> key(t[i]) != key(t[j])
  }

  /** Creation times strictly increase along the table. */
  ghost predicate Increasing<V>(t: Table<V>) {
    forall i, j :: 0 <= i < j < |t| ==> t[i].created < t[j].created
  }

  /** Every id and creation time was handed out before `clock`. */
  ghost predicate Below<V>(t: Table<V>, clock: nat) {
    forall i :: 0 <= i < |t| ==> t[i].id < clock && t[i].created < clock
  }

  /** No two documents share an id. */
  ghost predicate DistinctIds<V>(t: Table<V>) {
    forall i, j :: 0 <= i < j < |t| ==> t[i].id != t[j].id
  }

  /** The invariant the store keeps for every table. */
  ghost predicate Stamped<V>(t: Table<V>, clock: nat) {
    DistinctIds(t) && Increasing(t) && Below(t, clock)
  }

  /** `t'` is `t` with one document appended, of id `id` and value `v`. */
  ghost predicate Appended<V>(t: Table<V>, t': Table<V>, id: nat, v: V) {
    && |t'| == |t| + 1
    && t'[..|t|] == t
    && t'[|t|].id == id
    && t'[|t|].val == v
  }

  /** `ctx.db.get(id)`. */
  function Get<V(==)>(t: Table<V>, id: nat): (r: Option<Doc<V>>)
    ensures r.None? <==> id !in Ids(t)
    ensures r.Some? ==> r.value in t && r.value.id == id
  {
    if |t| == 0 then None
    else if t[0].id == id then Some(t[0])
    else Get(t[1..], id)
  }

  /** The documents of `t` that satisfy `p`, in table order. */
  function Filter<V(==,!new)>(t: Table<V>, p: Doc<V> -> bool): (r: Table<V>)
    ensures |r| <= |t|
    ensures forall d :: d in r <==> d in t && p(d)
  {
    if |t| == 0 then []
    else (if p(t[0]) then [t[0]] else []) + Filter(t[1..], p)
  }

  /** `ctx.db.insert`: the new document takes the clock as its id and its
      creation time. */
  function Insert<V(==,!new)>(t: Table<V>, clock: nat, v: V): (r: Table<V>)
    requires Stamped(t, clock)
    ensures clock !in Ids(t)
    ensures Ids(r) == Ids(t) + {clock}
    ensures Stamped(r, clock + 1)
    ensures Get(r, clock) == Some(Doc(clock, clock, v))
    ensures forall id :: id != clock ==> Get(r, id) == Get(t, id)
    ensures forall d :: d in r <==> d in t || d == Doc(clock, clock, v)
  {
    var r := t + [Doc(clock, clock, v)];
    forall id ensures Get(r, id) == (if id in Ids(t) then Get(t, id) else if id == clock then Some(Doc(clock, clock, v)) else None) {
      GetAppend(t, Doc(clock, clock, v), id);
    }
    r
  }

  /** `ctx.db.patch`: the document with that id gets value `v` and keeps its
      system fields; a missing id leaves the table as it is. */
  function Patch<V(==)>(t: Table<V>, id: nat, v: V): (r: Table<V>)
    ensures |r| == |t|
    ensures forall i :: 0 <= i < |t| ==> r[i].id == t[i].id && r[i].created == t[i].created
    ensures forall i :: 0 <= i < |t| && t[i].id != id ==> r[i] == t[i]
    ensures forall i :: 0 <= i < |t| && t[i].id == id ==> r[i].val == v
  {
    if |t| == 0 then []
    else [if t[0].id == id then t[0].(val := v) else t[0]] + Patch(t[1..], id, v)
  }

  /** `ctx.db.delete`. */
  function Delete<V(==,!new)>(t: Table<V>, id: nat): (r: Table<V>)
    ensures forall d :: d in r <==> d in t && d.id != id
    ensures Ids(r) == Ids(t) - {id}
  {
    Filter(t, (d: Doc<V>) => d.id != id)
  }

  /** `.withIndex(<equality on key>).unique()`: the one document whose key is
      `k`, nothing when there is none, and an error when there are several. */
  function Lookup<V(==,!new), K(==)>(t: Table<V>, key: Doc<V> -> K, k: K): (r: Result<Option<Doc<V>>, Error>)
    ensures r.Ok? && r.value.Some? ==> r.value.value in t && key(r.value.value) == k
    ensures r.Ok? && r.value.None? ==> forall d :: d in t ==> key(d) != k
    ensures r.Err? ==> r.error == NotUnique && exists d :: d in t && key(d) == k
    ensures r.Err? <==> |Filter(t, (d: Doc<V>) => key(d) == k)| >= 2
    ensures |Filter(t, (d: Doc<V>) => key(d) == k)| == 1 ==> r == Ok(Some(Filter(t, (d: Doc<V>) => key(d) == k)[0]))
  {
    var matches := Filter(t, (d: Doc<V>) => key(d) == k);
    if |matches| == 0 then Ok(None)
    else if |matches| == 1 then Ok(Some(matches[0]))
    else assert matches[0] in matches; Err(NotUnique)
  }

  lemma {:induction false} GetAppend<V>(t: Table<V>, x: Doc<V>, id: nat)
    ensures Get(t + [x], id) == (if id in Ids(t) then Get(t, id) else if x.id == id then Some(x) else None)
    decreases |t|
  {
    if |t| == 0 {
      assert t + [x] == [x];
    } else {
      assert (t + [x])[1..] == t[1..] + [x];
      if t[0].id != id {
        GetAppend(t[1..], x, id);
        assert id in Ids(t[1..]) <==> id in Ids(t) by {
          assert t == [t[0]] + t[1..];
        }
      }
    }
  }

  /** Filtering keeps any key unique that was unique before. */
  lemma {:induction false} FilterKeyUnique<V(!new), K>(t: Table<V>, p: Doc<V> -> bool, key: Doc<V> -> K)
    requires KeyUnique(t, key)
    ensures KeyUnique(Filter(t, p), key)
    decreases |t|
  {
    if |t| > 0 {
      var rest := Filter(t[1..], p);
      FilterKeyUnique(t[1..], p, key);
      if p(t[0]) {
        var r := [t[0]] + rest;
        forall j | 0 < j < |r| ensures key(r[0]) != key(r[j]) {
          assert r[j] in t[1..];
        }
      }
    }
  }

  /** Filtering keeps ids distinct. */
  lemma {:induction false} FilterDistinctIds<V(!new)>(t: Table<V>, p: Doc<V> -> bool)
    requires DistinctIds(t)
    ensures DistinctIds(Filter(t, p))
    decreases |t|
  {
    if |t| > 0 {
      var rest := Filter(t[1..], p);
      FilterDistinctIds(t[1..], p);
      if p(t[0]) {
        var r := [t[0]] + rest;
        forall j | 0 < j < |r| ensures r[0].id != r[j].id {
          assert r[j] in t[1..];
        }
      }
    }
  }

  /** Filtering keeps creation order. */
  lemma {:induction false} FilterIncreasing<V(!new)>(t: Table<V>, p: Doc<V> -> bool)
    requires Increasing(t)
    ensures Increasing(Filter(t, p))
    decreases |t|
  {
    if |t| > 0 {
      var rest := Filter(t[1..], p);
      FilterIncreasing(t[1..], p);
      if p(t[0]) {
        var r := [t[0]] + rest;
        forall j | 0 < j < |r| ensures r[0].created < r[j].created {
          assert r[j] in t[1..];
        }
      }
    }
  }

  /** Filtering keeps the store invariant. */
  lemma FilterStamped<V(!new)>(t: Table<V>, p: Doc<V> -> bool, clock: nat)
    requires Stamped(t, clock)
    ensures Stamped(Filter(t, p), clock)
  {
    FilterDistinctIds(t, p);
    FilterIncreasing(t, p);
    var r := Filter(t, p);
    forall i | 0 <= i < |r| ensures r[i].id < clock && r[i].created < clock {
      assert r[i] in t;
    }
  }

  /** Filtering, then asking for an id, finds what the unfiltered table held
      whenever the filter keeps every document with that id. */
  lemma {:induction false} GetFilter<V(!new)>(t: Table<V>, p: Doc<V> -> bool, id: nat)
    requires forall d :: d in t && d.id == id ==> p(d)
    ensures Get(Filter(t, p), id) == Get(t, id)
    decreases |t|
  {
    if |t| > 0 {
      assert t[0] in t;
      forall d | d in t[1..] && d.id == id ensures p(d) {
        assert d in t;
      }
      GetFilter(t[1..], p, id);
      var rest := Filter(t[1..], p);
      if p(t[0]) {
        assert ([t[0]] + rest)[1..] == rest;
      } else {
        assert Filter(t, p) == rest;
      }
    }
  }

  /** With distinct ids, every document is what `get` returns for its id. */
  lemma GetMember<V>(t: Table<V>, d: Doc<V>)
    requires DistinctIds(t)
    requires d in t
    ensures Get(t, d.id) == Some(d)
  {
    var e := Get(t, d.id).value;
    var i :| 0 <= i < |t| && t[i] == d;
    var j :| 0 <= j < |t| && t[j] == e;
    assert t[i].id == t[j].id;
  }

  /** Patching leaves ids, creation times and their invariant as they were. */
  lemma PatchStamped<V>(t: Table<V>, id: nat, v: V, clock: nat)
    requires Stamped(t, clock)
    ensures Stamped(Patch(t, id, v), clock)
    ensures Ids(Patch(t, id, v)) == Ids(t)
  {
    var r := Patch(t, id, v);
    forall k | k in Ids(r) ensures k in Ids(t) {
      var i :| 0 <= i < |r| && r[i].id == k;
      assert t[i] in t;
    }
    forall k | k in Ids(t) ensures k in Ids(r) {
      var i :| 0 <= i < |t| && t[i].id == k;
      assert r[i] in r;
    }
  }

  /** After a patch, `get` sees the new value under the patched id and the
      old document under every other id. */
  lemma GetPatch<V>(t: Table<V>, id: nat, v: V, k: nat)
    requires DistinctIds(t)
    ensures Get(Patch(t, id, v), k) ==
      (if k == id && Get(t, id).Some? then Some(Get(t, id).value.(val := v)) else Get(t, k))
  {
    var r := Patch(t, id, v);
    assert DistinctIds(r) by {
      forall i, j | 0 <= i < j < |r| ensures r[i].id != r[j].id {
        assert r[i].id == t[i].id && r[j].id == t[j].id;
      }
    }
    if k in Ids(t) {
      var i :| 0 <= i < |t| && t[i].id == k;
      GetMember(t, t[i]);
      assert r[i] in r;
      GetMember(r, r[i]);
    } else {
      assert k !in Ids(r) by {
        forall i | 0 <= i < |r| ensures r[i].id != k {
          assert t[i] in t;
        }
      }
    }
  }

  /** Under a unique key, two documents with the same key are the same document. */
  lemma KeyUniqueSame<V, K>(t: Table<V>, key: Doc<V> -> K, a: Doc<V>, b: Doc<V>)
    requires KeyUnique(t, key)
    requires a in t && b in t && key(a) == key(b)
    ensures a == b
  {
    var i :| 0 <= i < |t| && t[i] == a;
    var j :| 0 <= j < |t| && t[j] == b;
    assert key(t[i]) == key(t[j]);
  }

  /** Appending a document whose key is new keeps the key unique. */
  lemma AppendKeyUnique<V, K>(t: Table<V>, x: Doc<V>, key: Doc<V> -> K)
    requires KeyUnique(t, key)
    requires forall d :: d in t ==> key(d) != key(x)
    ensures KeyUnique(t + [x], key)
  {
    var r := t + [x];
    forall i, j | 0 <= i < j < |r| ensures key(r[i]) != key(r[j]) {
      if j == |t| {
        assert r[i] in t;
      } else {
        assert r[i] == t[i] && r[j] == t[j];
      }
    }
  }

  /** Patching a value whose key does not change keeps the key unique. */
  lemma PatchKeyUnique<V, K>(t: Table<V>, id: nat, v: V, key: Doc<V> -> K)
    requires KeyUnique(t, key)
    requires forall d :: d in t && d.id == id ==> key(d.(val := v)) == key(d)
    ensures KeyUnique(Patch(t, id, v), key)
  {
    var r := Patch(t, id, v);
    forall i | 0 <= i < |t| ensures key(r[i]) == key(t[i]) {
      if t[i].id == id {
        assert t[i] in t;
        assert r[i] == t[i].(val := v);
      }
    }
  }

  /** A filter that rejects every document keeps nothing. */
  lemma {:induction false} FilterNone<V(!new)>(t: Table<V>, p: Doc<V> -> bool)
    requires forall d :: d in t ==> !p(d)
    ensures Filter(t, p) == []
    decreases |t|
  {
    if |t| > 0 {
      assert t[0] in t;
      forall d | d in t[1..] ensures !p(d) {
        assert d in t;
      }
      FilterNone(t[1..], p);
    }
  }

  /** Filtering a table extended by one document extends the filtered table
      by that document exactly when it passes. */
  lemma {:induction false} FilterSnoc<V(!new)>(t: Table<V>, x: Doc<V>, p: Doc<V> -> bool)
    ensures Filter(t + [x], p) == Filter(t, p) + (if p(x) then [x] else [])
    decreases |t|
  {
    var tail := if p(x) then [x] else [];
    if |t| == 0 {
      assert t + [x] == [x];
      assert [x][1..] == [];
    } else {
      var head := if p(t[0]) then [t[0]] else [];
      assert (t + [x])[0] == t[0];
      assert (t + [x])[1..] == t[1..] + [x];
      FilterSnoc(t[1..], x, p);
      calc {
        Filter(t + [x], p);
        head + Filter(t[1..] + [x], p);
        head + (Filter(t[1..], p) + tail);
        (head + Filter(t[1..], p)) + tail;
        Filter(t, p) + tail;
      }
    }
  }

  /** Filtering by a condition that implies an earlier filter's condition
      sees through the earlier filter. */
  lemma {:induction false} FilterFilter<V(!new)>(t: Table<V>, p: Doc<V> -> bool, q: Doc<V> -> bool)
    requires forall d :: q(d) ==> p(d)
    ensures Filter(Filter(t, p), q) == Filter(t, q)
    decreases |t|
  {
    if |t| > 0 {
      FilterFilter(t[1..], p, q);
      var tail := Filter(t[1..], p);
      if p(t[0]) {
        var f := [t[0]] + tail;
        assert Filter(t, p) == f;
        assert f[0] == t[0] && f[1..] == tail;
        assert Filter(f, q) == (if q(t[0]) then [t[0]] else []) + Filter(tail, q);
      } else {
        assert Filter(t, p) == tail;
        assert !q(t[0]);
      }
    }
  }

  /** Two filters in a row keep what their conjunction keeps. */
  lemma {:induction false} FilterBoth<V(!new)>(t: Table<V>, p: Doc<V> -> bool, q: Doc<V> -> bool, r: Doc<V> -> bool)
    requires forall d :: r(d) <==> p(d) && q(d)
    ensures Filter(Filter(t, p), q) == Filter(t, r)
    decreases |t|
  {
    if |t| > 0 {
      FilterBoth(t[1..], p, q, r);
      var tail := Filter(t[1..], p);
      if p(t[0]) {
        var f := [t[0]] + tail;
        assert Filter(t, p) == f;
        assert f[0] == t[0] && f[1..] == tail;
        assert Filter(f, q) == (if q(t[0]) then [t[0]] else []) + Filter(tail, q);
      } else {
        assert Filter(t, p) == tail;
        assert !r(t[0]);
      }
    }
  }

  /** Filters by conditions that agree on every document agree. */
  lemma {:induction false} FilterSame<V(!new)>(t: Table<V>, p: Doc<V> -> bool, q: Doc<V> -> bool)
    requires forall d :: p(d) == q(d)
    ensures Filter(t, p) == Filter(t, q)
    decreases |t|
  {
    if |t| > 0 {
      FilterSame(t[1..], p, q);
    }
  }

  /** Under a unique key, at most one document matches any key value. */
  lemma {:induction false} AtMostOneMatch<V(!new), K>(t: Table<V>, key: Doc<V> -> K, k: K)
    requires KeyUnique(t, key)
    ensures |Filter(t, (d: Doc<V>) => key(d) == k)| <= 1
    decreases |t|
  {
    if |t| > 0 {
      var p := (d: Doc<V>) => key(d) == k;
      assert KeyUnique(t[1..], key) by {
        forall i, j | 0 <= i < j < |t[1..]| ensures key(t[1..][i]) != key(t[1..][j]) {
          assert t[1..][i] == t[i + 1] && t[1..][j] == t[j + 1];
        }
      }
      if key(t[0]) == k {
        forall d | d in t[1..] ensures !p(d) {
          var j :| 0 <= j < |t[1..]| && t[1..][j] == d;
          assert t[j + 1] == d;
        }
        FilterNone(t[1..], p);
      } else {
        AtMostOneMatch(t[1..], key, k);
      }
    }
  }

  /** Under a unique key, `.unique()` never throws, and it finds a document
      exactly when one with that key exists. */
  lemma LookupUnderUniqueKey<V(!new), K>(t: Table<V>, key: Doc<V> -> K, k: K)
    requires KeyUnique(t, key)
    ensures Lookup(t, key, k).Ok?
    ensures Lookup(t, key, k).value.Some? <==> exists d :: d in t && key(d) == k
  {
    var matches := Filter(t, (d: Doc<V>) => key(d) == k);
    AtMostOneMatch(t, key, k);
    assert |matches| == 1 ==> matches[0] in matches;
  }
}
