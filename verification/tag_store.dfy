/**
 * The sparse tag overlays kept on a mesh object (`ObjectVertTag`,
 * `ObjectEdgeTag`, `ObjectCellTag`): an ordered collection of
 * (feature key, integer marker) records, and the "set tag" rule that
 * overwrites the marker of a selected feature already present or appends
 * a new record for it.
 */
module TagStore {
  import opened Wrappers

  /** One record of an overlay: the feature it marks and the marker. */
  datatype Tag<K> = Tag(key: K, tag: int)

  /** The keys of a store, in store order (`[v.idx for v in ob.vtags.values()]`). */
  function Keys<K>(s: seq<Tag<K>>): (ks: seq<K>)
    ensures |ks| == |s|
    ensures forall i :: 0 <= i < |s| ==> ks[i] == s[i].key
  {
    seq(|s|, i requires 0 <= i < |s| => s[i].key)
  }

  predicate Distinct<K(==)>(xs: seq<K>) {
    forall i, j :: 0 <= i < j < |xs| ==> xs[i] != xs[j]
  }

  /** No two records of the store mark the same feature. */
  predicate UniqueKeys<K(==)>(s: seq<Tag<K>>) {
    Distinct(Keys(s))
  }

  /** Python's `xs.index(k)`: the position of the first occurrence of `k`. */
  function IndexOf<K(==)>(xs: seq<K>, k: K): (i: nat)
    requires k in xs
    ensures i < |xs| && xs[i] == k
    ensures forall j :: 0 <= j < i ==> xs[j] != k
  {
    if xs[0] == k then 0 else 1 + IndexOf(xs[1..], k)
  }

  /**
   * The marker the store gives `k`, found the way the add-on finds it:
   * `store[keys.index(k)].tag` when `k in keys`, i.e. the first record with
   * that key.
   */
  function Lookup<K(==)>(s: seq<Tag<K>>, k: K): (r: Option<int>)
    ensures r.None? <==> forall i :: 0 <= i < |s| ==> s[i].key != k
    ensures r.Some? ==> exists i :: 0 <= i < |s| && s[i].key == k && s[i].tag == r.value
                                   && forall j :: 0 <= j < i ==> s[j].key != k
  {
    var ks := Keys(s);
    if k in ks then Some(s[IndexOf(ks, k)].tag) else None
  }

  /** The marker exported for `k`: its stored marker, 0 for an untagged feature. */
  function MarkerOf<K(==)>(s: seq<Tag<K>>, k: K): (m: int)
    ensures (forall i :: 0 <= i < |s| ==> s[i].key != k) ==> m == 0
    ensures UniqueKeys(s) ==> forall i :: 0 <= i < |s| && s[i].key == k ==> m == s[i].tag
  {
    Lookup(s, k).GetOr(0)
  }

  /** The selected keys absent from `known`, in selection order (duplicates kept). */
  function Fresh<K(==)>(known: seq<K>, selected: seq<K>): (r: seq<K>)
    ensures |r| <= |selected|
  {
    if selected == [] then []
    else (if selected[0] in known then [] else [selected[0]]) + Fresh(known, selected[1..])
  }

  /** `Fresh` keeps exactly the selected keys that are not known. */
  lemma {:induction false} FreshMembers<K>(known: seq<K>, selected: seq<K>)
    ensures var r := Fresh(known, selected);
      && (forall i :: 0 <= i < |r| ==> r[i] in selected && r[i] !in known)
      && (forall i :: 0 <= i < |selected| && selected[i] !in known ==> selected[i] in r)
    decreases |selected|
  {
    if selected != [] {
      FreshMembers(known, selected[1..]);
      var r := Fresh(known, selected);
      var head := if selected[0] in known then [] else [selected[0]];
      assert r == head + Fresh(known, selected[1..]);
      forall i | 0 <= i < |selected| && selected[i] !in known ensures selected[i] in r {
        if i > 0 {
          assert selected[i] == selected[1..][i - 1];
        }
      }
    }
  }

  /**
   * One step of the operator's loop body. `snapshot` is the key list taken
   * once before the loop; a key found in it has the marker of its first
   * record overwritten, any other key gets a new record appended.
   */
  function Step<K(==)>(snapshot: seq<K>, store: seq<Tag<K>>, k: K, d: int): (r: seq<Tag<K>>)
    requires |snapshot| <= |store|
    ensures |store| <= |r| <= |store| + 1
    ensures forall i :: 0 <= i < |store| ==> r[i].key == store[i].key
    ensures forall i :: |store| <= i < |r| ==> r[i] == Tag(k, d)
    ensures forall i :: |snapshot| <= i < |store| ==> r[i] == store[i]
    ensures k in snapshot ==> |r| == |store| && r[IndexOf(snapshot, k)].tag == d
    ensures k in snapshot ==> forall i :: 0 <= i < |store| && i != IndexOf(snapshot, k) ==> r[i] == store[i]
    ensures k !in snapshot ==> |r| == |store| + 1 && r[..|store|] == store
  {
    if k in snapshot then
      var j := IndexOf(snapshot, k);
      store[j := store[j].(tag := d)]
    else
      store + [Tag(k, d)]
  }

  /** The operator's loop over the selected features, in mesh order. */
  function UpsertFrom<K(==)>(snapshot: seq<K>, store: seq<Tag<K>>, selected: seq<K>, d: int): (r: seq<Tag<K>>)
    requires |snapshot| <= |store|
    ensures |store| <= |r|
    ensures forall i :: 0 <= i < |store| ==> r[i].key == store[i].key
    ensures forall i :: |store| <= i < |r| ==> r[i].key in selected && r[i].tag == d
    ensures forall i :: |snapshot| <= i < |store| ==> r[i] == store[i]
    decreases |selected|
  {
    if selected == [] then store
    else
      var next := Step(snapshot, store, selected[0], d);
      var r := UpsertFrom(snapshot, next, selected[1..], d);
      assert forall i :: |store| <= i < |r| ==> r[i].key in selected && r[i].tag == d by {
        forall i | |store| <= i < |r| ensures r[i].key in selected && r[i].tag == d {
          if i < |next| {
            assert r[i] == next[i] == Tag(selected[0], d);
          } else {
            assert r[i].key in selected[1..];
          }
        }
      }
      r
  }

  /**
   * `SetVertexTag.execute` / `SetEdgeTag.execute` / `SetCellTag.execute`:
   * give every selected key the default marker `d`.
   */
  function Upsert<K(==)>(store: seq<Tag<K>>, selected: seq<K>, d: int): (r: seq<Tag<K>>)
    ensures |store| <= |r|
    ensures forall i :: 0 <= i < |store| ==> r[i].key == store[i].key
    ensures forall i :: |store| <= i < |r| ==> r[i].key in selected && r[i].tag == d
  {
    UpsertFrom(Keys(store), store, selected, d)
  }

  /**
   * Reference description of the operator's result: each record keeps its
   * place and key, and takes marker `d` when it is the first record of a
   * selected key; then one record `(k, d)` follows per selected key the
   * store did not have, in selection order.
   */
  function UpsertResult<K(==)>(store: seq<Tag<K>>, selected: seq<K>, d: int): (r: seq<Tag<K>>)
    ensures |r| == |store| + |Fresh(Keys(store), selected)|
  {
    var ks := Keys(store);
    var added := Fresh(ks, selected);
    seq(|store|, i requires 0 <= i < |store| =>
          if store[i].key in selected && IndexOf(ks, ks[i]) == i then Tag(store[i].key, d) else store[i])
    + seq(|added|, j requires 0 <= j < |added| => Tag(added[j], d))
  }

  lemma {:induction false} FreshAppend<K>(known: seq<K>, a: seq<K>, b: seq<K>)
    ensures Fresh(known, a + b) == Fresh(known, a) + Fresh(known, b)
    decreases |a|
  {
    if a == [] {
      assert a + b == b;
    } else {
      var head := if a[0] in known then [] else [a[0]];
      calc {
        Fresh(known, a + b);
        { assert (a + b)[0] == a[0]; assert (a + b)[1..] == a[1..] + b; }
        head + Fresh(known, a[1..] + b);
        { FreshAppend(known, a[1..], b); }
        head + (Fresh(known, a[1..]) + Fresh(known, b));
      }
    }
  }

  /** Processing one more selected key moves the reference result forward by one loop step. */
  lemma StepAdvances<K>(s0: seq<Tag<K>>, done: seq<K>, k: K, d: int)
    ensures Step(Keys(s0), UpsertResult(s0, done, d), k, d) == UpsertResult(s0, done + [k], d)
  {
    FreshAppend(Keys(s0), done, [k]);
    if k in Keys(s0) {
      StepAdvancesKnown(s0, done, k, d);
    } else {
      StepAdvancesNew(s0, done, k, d);
    }
  }

  /** One entry of the reference result: a retagged or kept record, or an appended one. */
  lemma UpsertResultAt<K>(s0: seq<Tag<K>>, sel: seq<K>, d: int, i: nat)
    requires i < |UpsertResult(s0, sel, d)|
    ensures UpsertResult(s0, sel, d)[i] ==
      if i < |s0| then
        (if s0[i].key in sel && IndexOf(Keys(s0), s0[i].key) == i then Tag(s0[i].key, d) else s0[i])
      else Tag(Fresh(Keys(s0), sel)[i - |s0|], d)
  {
  }

  lemma StepAdvancesKnown<K>(s0: seq<Tag<K>>, done: seq<K>, k: K, d: int)
    requires k in Keys(s0)
    requires Fresh(Keys(s0), done + [k]) == Fresh(Keys(s0), done) + Fresh(Keys(s0), [k])
    ensures Step(Keys(s0), UpsertResult(s0, done, d), k, d) == UpsertResult(s0, done + [k], d)
  {
    var ks := Keys(s0);
    var cur := UpsertResult(s0, done, d);
    var next := UpsertResult(s0, done + [k], d);
    var j := IndexOf(ks, k);
    assert Fresh(ks, [k]) == [];
    assert Fresh(ks, done + [k]) == Fresh(ks, done);
    var stepped := cur[j := cur[j].(tag := d)];
    assert |stepped| == |next|;
    forall i: nat | i < |next| ensures stepped[i] == next[i] {
      UpsertResultAt(s0, done, d, i);
      UpsertResultAt(s0, done + [k], d, i);
      if i < |s0| {
        assert ks[i] == s0[i].key;
        if i == j {
          assert s0[i].key in done + [k];
        } else if s0[i].key == k {
          assert IndexOf(ks, s0[i].key) != i;
        } else {
          assert (s0[i].key in done + [k]) == (s0[i].key in done);
        }
      }
    }
  }

  lemma StepAdvancesNew<K>(s0: seq<Tag<K>>, done: seq<K>, k: K, d: int)
    requires k !in Keys(s0)
    requires Fresh(Keys(s0), done + [k]) == Fresh(Keys(s0), done) + Fresh(Keys(s0), [k])
    ensures Step(Keys(s0), UpsertResult(s0, done, d), k, d) == UpsertResult(s0, done + [k], d)
  {
    var ks := Keys(s0);
    var cur := UpsertResult(s0, done, d);
    var next := UpsertResult(s0, done + [k], d);
    var before := Fresh(ks, done);
    assert Fresh(ks, [k]) == [k];
    assert Fresh(ks, done + [k]) == before + [k];
    var stepped := cur + [Tag(k, d)];
    assert |stepped| == |next|;
    forall i: nat | i < |next| ensures stepped[i] == next[i] {
      UpsertResultAt(s0, done + [k], d, i);
      if i < |cur| {
        UpsertResultAt(s0, done, d, i);
      }
      if i < |s0| {
        assert ks[i] == s0[i].key;
        assert (s0[i].key in done + [k]) == (s0[i].key in done);
      }
    }
  }

  lemma {:induction false} UpsertFromReference<K>(s0: seq<Tag<K>>, done: seq<K>, rest: seq<K>, d: int)
    ensures UpsertFrom(Keys(s0), UpsertResult(s0, done, d), rest, d) == UpsertResult(s0, done + rest, d)
    decreases |rest|
  {
    var cur := UpsertResult(s0, done, d);
    if rest == [] {
      assert done + rest == done;
    } else {
      var ks := Keys(s0);
      calc {
        UpsertFrom(ks, cur, rest, d);
        UpsertFrom(ks, Step(ks, cur, rest[0], d), rest[1..], d);
        { StepAdvances(s0, done, rest[0], d); }
        UpsertFrom(ks, UpsertResult(s0, done + [rest[0]], d), rest[1..], d);
        { UpsertFromReference(s0, done + [rest[0]], rest[1..], d); }
        UpsertResult(s0, done + [rest[0]] + rest[1..], d);
        { assert done + [rest[0]] + rest[1..] == done + rest; }
        UpsertResult(s0, done + rest, d);
      }
    }
  }

  /** The operator's loop computes exactly the reference result. */
  lemma UpsertIsUpsertResult<K>(store: seq<Tag<K>>, selected: seq<K>, d: int)
    ensures Upsert(store, selected, d) == UpsertResult(store, selected, d)
  {
    assert UpsertResult(store, [], d) == store;
    UpsertFromReference(store, [], selected, d);
    assert [] + selected == selected;
  }

  /** The first occurrence of a key is the only index with that key and no earlier match. */
  lemma IndexOfUnique<K>(xs: seq<K>, i: nat)
    requires i < |xs|
    requires forall j :: 0 <= j < i ==> xs[j] != xs[i]
    ensures IndexOf(xs, xs[i]) == i
  {
  }

  /** After the operator the old keys stand in place, followed by the selected keys that were new. */
  lemma UpsertKeys<K>(store: seq<Tag<K>>, selected: seq<K>, d: int)
    ensures Keys(Upsert(store, selected, d)) == Keys(store) + Fresh(Keys(store), selected)
  {
    UpsertIsUpsertResult(store, selected, d);
  }

  lemma {:induction false} DistinctCardinality<K>(xs: seq<K>)
    requires Distinct(xs)
    ensures |(set x | x in xs)| == |xs|
    decreases |xs|
  {
    if xs != [] {
      DistinctCardinality(xs[1..]);
      assert (set x | x in xs) == {xs[0]} + (set x | x in xs[1..]);
      assert xs[0] !in (set x | x in xs[1..]);
    }
  }

  lemma {:induction false} FreshDistinct<K>(known: seq<K>, selected: seq<K>)
    requires Distinct(selected)
    ensures Distinct(Fresh(known, selected))
    decreases |selected|
  {
    if selected != [] {
      FreshDistinct(known, selected[1..]);
      FreshMembers(known, selected[1..]);
      assert selected[0] !in selected[1..];
      assert selected[0] !in Fresh(known, selected[1..]);
    }
  }

  lemma {:induction false} FreshOfKnown<K>(known: seq<K>, selected: seq<K>)
    requires forall i :: 0 <= i < |selected| ==> selected[i] in known
    ensures Fresh(known, selected) == []
    decreases |selected|
  {
    if selected != [] {
      FreshOfKnown(known, selected[1..]);
    }
  }

  /**
   * Re-tagging never adds a record for a feature already in the store: the
   * store grows by exactly the number of selected features it did not have.
   */
  lemma UpsertLength<K>(store: seq<Tag<K>>, selected: seq<K>, d: int)
    requires Distinct(selected)
    ensures |Upsert(store, selected, d)| == |store| + |(set k | k in selected && k !in Keys(store))|
    ensures (forall i :: 0 <= i < |selected| ==> selected[i] in Keys(store)) ==> |Upsert(store, selected, d)| == |store|
  {
    UpsertIsUpsertResult(store, selected, d);
    var added := Fresh(Keys(store), selected);
    FreshDistinct(Keys(store), selected);
    DistinctCardinality(added);
    FreshMembers(Keys(store), selected);
    var ks := Keys(store);
    assert (set k | k in added) == (set k | k in selected && k !in ks);
    if forall i :: 0 <= i < |selected| ==> selected[i] in ks {
      FreshOfKnown(ks, selected);
    }
  }

  /**
   * Nothing else changes: every existing record keeps its position and key;
   * the first record of a selected key takes `d`; every other record is
   * left exactly as it was; new records `(k, d)` come after them.
   */
  lemma UpsertKeepsRecords<K>(store: seq<Tag<K>>, selected: seq<K>, d: int)
    ensures var r := Upsert(store, selected, d);
      && |store| <= |r|
      && (forall i :: 0 <= i < |store| ==> r[i].key == store[i].key)
      && (forall i :: 0 <= i < |store| && store[i].key !in selected ==> r[i] == store[i])
      && (forall i :: 0 <= i < |store| && store[i].key in selected && (forall j :: 0 <= j < i ==> store[j].key != store[i].key)
            ==> r[i].tag == d)
      && (forall i :: |store| <= i < |r| ==> r[i].key in selected && r[i].key !in Keys(store) && r[i].tag == d)
  {
    UpsertIsUpsertResult(store, selected, d);
    var r := Upsert(store, selected, d);
    var ks := Keys(store);
    FreshMembers(ks, selected);
    forall i | 0 <= i < |store| && store[i].key in selected && (forall j :: 0 <= j < i ==> store[j].key != store[i].key)
      ensures r[i].tag == d
    {
      IndexOfUnique(ks, i);
    }
  }

  /** With unique keys, a record's marker becomes `d` exactly when its feature was selected. */
  lemma UpsertUniqueRecords<K>(store: seq<Tag<K>>, selected: seq<K>, d: int)
    requires UniqueKeys(store)
    ensures forall i :: 0 <= i < |store| ==>
      Upsert(store, selected, d)[i] == if store[i].key in selected then Tag(store[i].key, d) else store[i]
  {
    UpsertKeepsRecords(store, selected, d);
    var ks := Keys(store);
    forall i | 0 <= i < |store|
      ensures forall j :: 0 <= j < i ==> store[j].key != store[i].key
    {
      assert forall j :: 0 <= j < i ==> ks[j] != ks[i];
    }
  }

  /** The operator keeps keys unique when the selection names each feature once. */
  lemma UpsertPreservesUniqueKeys<K>(store: seq<Tag<K>>, selected: seq<K>, d: int)
    requires UniqueKeys(store)
    requires Distinct(selected)
    ensures UniqueKeys(Upsert(store, selected, d))
  {
    UpsertKeys(store, selected, d);
    var ks := Keys(store);
    FreshDistinct(ks, selected);
    FreshMembers(ks, selected);
    DistinctConcat(ks, Fresh(ks, selected));
  }

  lemma DistinctConcat<K>(a: seq<K>, b: seq<K>)
    requires Distinct(a) && Distinct(b)
    requires forall i :: 0 <= i < |b| ==> b[i] !in a
    ensures Distinct(a + b)
  {
    var all := a + b;
    forall i, j | 0 <= i < j < |all| ensures all[i] != all[j] {
      if j < |a| {
        assert all[i] == a[i] && all[j] == a[j];
      } else if i >= |a| {
        assert all[i] == b[i - |a|] && all[j] == b[j - |a|];
      } else {
        assert all[i] == a[i] && all[j] == b[j - |a|];
      }
    }
  }

  /**
   * Lookups after the operator: a selected feature reads `d`, any other
   * feature reads what it read before.
   */
  lemma UpsertLookup<K>(store: seq<Tag<K>>, selected: seq<K>, d: int, k: K)
    ensures Lookup(Upsert(store, selected, d), k) == if k in selected then Some(d) else Lookup(store, k)
  {
    UpsertIsUpsertResult(store, selected, d);
    UpsertKeys(store, selected, d);
    ResultLookup(store, selected, d, k, Upsert(store, selected, d));
  }

  /** The same lookup, for a store `r` known to be the reference result. */
  lemma ResultLookup<K>(store: seq<Tag<K>>, selected: seq<K>, d: int, k: K, r: seq<Tag<K>>)
    requires r == UpsertResult(store, selected, d)
    requires Keys(r) == Keys(store) + Fresh(Keys(store), selected)
    ensures Lookup(r, k) == if k in selected then Some(d) else Lookup(store, k)
  {
    var ks := Keys(store);
    var added := Fresh(ks, selected);
    FreshMembers(ks, selected);
    if k in ks {
      var j := IndexOf(ks, k);
      assert r[j].tag == if k in selected then d else store[j].tag by {
        UpsertResultAt(store, selected, d, j);
      }
      LookupAt(store, k, j);
      assert forall i :: 0 <= i < j ==> r[i].key != k by {
        assert forall i :: 0 <= i < j ==> Keys(r)[i] == ks[i];
      }
      LookupAt(r, k, j);
    } else if k in added {
      var j := IndexOf(added, k);
      assert r[|ks| + j].tag == d by {
        UpsertResultAt(store, selected, d, |ks| + j);
      }
      assert forall i :: 0 <= i < |ks| + j ==> r[i].key != k by {
        assert forall i :: 0 <= i < |ks| + j ==> Keys(r)[i] == (ks + added)[i];
      }
      assert Keys(r)[|ks| + j] == k;
      LookupAt(r, k, |ks| + j);
    } else {
      assert k !in selected;
      assert k !in Keys(r);
    }
  }

  /** A key's lookup is the marker of its first record. */
  lemma LookupAt<K>(s: seq<Tag<K>>, k: K, j: nat)
    requires j < |s| && s[j].key == k
    requires forall i :: 0 <= i < j ==> s[i].key != k
    ensures Lookup(s, k) == Some(s[j].tag)
  {
    IndexOfUnique(Keys(s), j);
  }

  /** Running the operator twice with the same selection and default changes nothing more. */
  lemma UpsertIdempotent<K>(store: seq<Tag<K>>, selected: seq<K>, d: int)
    ensures Upsert(Upsert(store, selected, d), selected, d) == Upsert(store, selected, d)
  {
    var r := Upsert(store, selected, d);
    UpsertKeys(store, selected, d);
    var rks := Keys(r);
    assert Fresh(rks, selected) == [] by {
      var ks := Keys(store);
      FreshMembers(ks, selected);
      forall i | 0 <= i < |selected| ensures selected[i] in rks {
        if selected[i] !in ks {
          assert selected[i] in Fresh(ks, selected);
        }
      }
      FreshOfKnown(rks, selected);
    }
    UpsertIsUpsertResult(r, selected, d);
    var rr := Upsert(r, selected, d);
    forall i | 0 <= i < |r| ensures rr[i] == r[i] {
      if r[i].key in selected && IndexOf(rks, rks[i]) == i {
        UpsertLookup(store, selected, d, r[i].key);
      }
    }
  }

  /** Markers stay within `[lo, hi]` when the store and the default lie in it. */
  lemma UpsertTagsWithin<K>(store: seq<Tag<K>>, selected: seq<K>, d: int, lo: int, hi: int)
    requires forall i :: 0 <= i < |store| ==> lo <= store[i].tag <= hi
    requires lo <= d <= hi
    ensures forall i :: 0 <= i < |Upsert(store, selected, d)| ==> lo <= Upsert(store, selected, d)[i].tag <= hi
  {
    UpsertIsUpsertResult(store, selected, d);
  }

  /**
   * The key snapshot is taken once, before the loop, so a key listed twice in
   * the selection and absent from the store gets two records. Selections
   * coming from a mesh never list a feature twice.
   */
  lemma UpsertRepeatedSelection<K>(k: K, d: int)
    ensures Upsert([], [k, k], d) == [Tag(k, d), Tag(k, d)]
    ensures !UniqueKeys(Upsert([], [k, k], d))
  {
    var empty: seq<Tag<K>> := [];
    var none: seq<K> := [];
    assert Keys(empty) == none;
    var s1 := Step(none, empty, k, d);
    assert s1 == [Tag(k, d)];
    var s2 := Step(none, s1, k, d);
    assert s2 == [Tag(k, d), Tag(k, d)];
    assert [k, k][1..] == [k];
    assert [k][1..] == none;
    calc {
      Upsert(empty, [k, k], d);
      UpsertFrom(none, empty, [k, k], d);
      UpsertFrom(none, s1, [k], d);
      UpsertFrom(none, s2, none, d);
    }
    var r := Upsert(empty, [k, k], d);
    assert Keys(r)[0] == Keys(r)[1];
  }
}
