/** Rows, records and the keyed table they are written to, with the pure
    functions that say what writing a sequence of records does to a table. */
module Records {

  datatype Option<T> = None | Some(value: T)

  /** A primary-key value (the registry's tables are keyed by GUID strings). */
  type Key = string

  /** The non-key columns of a row, by column name. */
  type Fields = map<string, string>

  /** The reference date handed to every validity rule. */
  datatype Date = Date(year: int, month: int, day: int)

  /** A model instance as the row parser yields it: its primary key may be unset. */
  datatype Row = Row(pk: Option<Key>, fields: Fields)

  /** One element of the parser's stream: a row, or nothing at all (`None`). */
  type Item = Option<Row>

  /** A row whose primary key is set: the only kind that is ever written. */
  datatype Record = Record(pk: Key, fields: Fields)

  /** The contents of one table: every stored primary key with its row. */
  type Store = map<Key, Fields>

  function ToRecord(row: Row): Record
    requires row.pk.Some?
  {
    Record(row.pk.value, row.fields)
  }

  function Last<T>(s: seq<T>): T
    requires s != []
  {
    s[|s| - 1]
  }

  function Init<T>(s: seq<T>): seq<T>
    requires s != []
  {
    s[..|s| - 1]
  }

  /** The primary keys carried by `recs`. */
  function PkSet(recs: seq<Record>): set<Key> {
    set r | r in recs :: r.pk
  }

  lemma PkSetAppend(a: seq<Record>, b: seq<Record>)
    ensures PkSet(a + b) == PkSet(a) + PkSet(b)
  {
    forall k | k in PkSet(a + b) ensures k in PkSet(a) + PkSet(b) {
      var r :| r in a + b && r.pk == k;
    }
    forall k | k in PkSet(a) + PkSet(b) ensures k in PkSet(a + b) {
      if k in PkSet(a) { var r :| r in a && r.pk == k; assert r in a + b; }
      else { var r :| r in b && r.pk == k; assert r in a + b; }
    }
  }

  predicate DistinctPks(recs: seq<Record>) {
    forall i, j :: 0 <= i < j < |recs| ==> recs[i].pk != recs[j].pk
  }

  /** No two records share a primary key that is not already among `keys`. */
  predicate NoNewDuplicates(recs: seq<Record>, keys: set<Key>) {
    forall i, j :: 0 <= i < j < |recs| && recs[i].pk == recs[j].pk ==> recs[i].pk in keys
  }

  /** A single bulk insert of `recs` into `store` succeeds: no record's key is
      already stored and no two records share a key. */
  predicate Insertable(store: Store, recs: seq<Record>) {
    DistinctPks(recs) && forall r :: r in recs ==> r.pk !in store
  }

  /** The table after each record of `recs` is written under its key, in order. */
  function Override(store: Store, recs: seq<Record>): Store
    decreases |recs|
  {
    if recs == [] then store
    else Override(store, Init(recs))[Last(recs).pk := Last(recs).fields]
  }

  /** Writing `recs` adds exactly their keys and leaves every other row as it was. */
  lemma {:induction false} OverrideFrame(store: Store, recs: seq<Record>)
    ensures Override(store, recs).Keys == store.Keys + PkSet(recs)
    ensures forall k :: k in store && k !in PkSet(recs) ==> Override(store, recs)[k] == store[k]
    decreases |recs|
  {
    if recs != [] {
      assert recs == Init(recs) + [Last(recs)];
      PkSetAppend(Init(recs), [Last(recs)]);
      OverrideFrame(store, Init(recs));
    }
  }

  /** A row written by `recs` holds what `recs` wrote, whatever was stored
      under its key before. */
  lemma {:induction false} OverrideWritten(store: Store, other: Store, recs: seq<Record>, k: Key)
    requires k in PkSet(recs)
    ensures k in Override(store, recs) && k in Override(other, recs)
    ensures Override(store, recs)[k] == Override(other, recs)[k]
    decreases |recs|
  {
    assert recs == Init(recs) + [Last(recs)];
    PkSetAppend(Init(recs), [Last(recs)]);
    if k != Last(recs).pk {
      OverrideWritten(store, other, Init(recs), k);
    }
  }

  /** Writing the same records a second time changes nothing. */
  lemma OverrideTwice(store: Store, recs: seq<Record>)
    ensures Override(Override(store, recs), recs) == Override(store, recs)
  {
    var once := Override(store, recs);
    OverrideFrame(store, recs);
    OverrideFrame(once, recs);
    forall k | k in PkSet(recs) ensures Override(once, recs)[k] == once[k] {
      OverrideWritten(once, store, recs, k);
    }
  }

  /** The records whose key is not in `keys`, in their original order. */
  function Fresh(recs: seq<Record>, keys: set<Key>): (r: seq<Record>)
    ensures PkSet(r) == PkSet(recs) - keys
    ensures forall x :: x in r ==> x in recs
    decreases |recs|
  {
    if recs == [] then []
    else
      var init, last := Init(recs), Last(recs);
      var tail := if last.pk in keys then [] else [last];
      assert recs == init + [last];
      PkSetAppend(init, [last]);
      PkSetAppend(Fresh(init, keys), tail);
      Fresh(init, keys) + tail
  }

  /** The records whose key is in `keys`, in their original order. */
  function Existing(recs: seq<Record>, keys: set<Key>): (r: seq<Record>)
    ensures PkSet(r) == PkSet(recs) * keys
    ensures forall x :: x in r ==> x in recs
    decreases |recs|
  {
    if recs == [] then []
    else
      var init, last := Init(recs), Last(recs);
      var tail := if last.pk in keys then [last] else [];
      assert recs == init + [last];
      PkSetAppend(init, [last]);
      PkSetAppend(Existing(init, keys), tail);
      Existing(init, keys) + tail
  }

  /** The first sighting of every key that is not in `keys`: the records whose
      key is neither in `keys` nor carried by an earlier record. */
  function Novel(recs: seq<Record>, keys: set<Key>): (r: seq<Record>)
    ensures DistinctPks(r)
    ensures PkSet(r) == PkSet(recs) - keys
    decreases |recs|
  {
    if recs == [] then []
    else
      var init, last := Init(recs), Last(recs);
      var tail := if last.pk in keys || last.pk in PkSet(init) then [] else [last];
      var prefix := Novel(init, keys);
      assert recs == init + [last];
      PkSetAppend(init, [last]);
      PkSetAppend(prefix, tail);
      assert forall i :: 0 <= i < |prefix| ==> prefix[i].pk in PkSet(prefix);
      prefix + tail
  }

  /** Writing `a` then `b` is writing `a + b`. */
  lemma {:induction false} OverrideAppend(store: Store, a: seq<Record>, b: seq<Record>)
    ensures Override(store, a + b) == Override(Override(store, a), b)
    decreases |b|
  {
    if b == [] {
      assert a + b == a;
    } else {
      assert Init(a + b) == a + Init(b);
      assert Last(a + b) == Last(b);
      OverrideAppend(store, a, Init(b));
    }
  }

  lemma UpdatesCommute(m: Store, k: Key, f: Fields, l: Key, g: Fields)
    requires k != l
    ensures m[k := f][l := g] == m[l := g][k := f]
  {
  }

  /** Writing a key that none of `recs` carries commutes with writing `recs`. */
  lemma {:induction false} OverrideCommute(store: Store, k: Key, f: Fields, recs: seq<Record>)
    requires k !in PkSet(recs)
    ensures Override(store[k := f], recs) == Override(store, recs)[k := f]
    decreases |recs|
  {
    if recs != [] {
      var init, last := Init(recs), Last(recs);
      assert recs == init + [last];
      PkSetAppend(init, [last]);
      OverrideCommute(store, k, f, init);
      var m := Override(store, init);
      assert k != last.pk;
      UpdatesCommute(m, k, f, last.pk, last.fields);
    }
  }

  /** Last write wins: a record that no later record overrides is stored under
      its key with its own fields. */
  lemma {:induction false} OverrideLastWins(store: Store, recs: seq<Record>, i: nat)
    requires i < |recs|
    requires forall j :: i < j < |recs| ==> recs[j].pk != recs[i].pk
    ensures recs[i].pk in Override(store, recs)
    ensures Override(store, recs)[recs[i].pk] == recs[i].fields
    decreases |recs|
  {
    OverrideFrame(store, recs);
    if i < |recs| - 1 {
      OverrideLastWins(store, Init(recs), i);
    }
  }

  /** With distinct keys every record ends up stored under its key with its fields. */
  lemma OverrideStoresAll(store: Store, recs: seq<Record>)
    requires DistinctPks(recs)
    ensures forall i :: 0 <= i < |recs| ==>
      recs[i].pk in Override(store, recs) && Override(store, recs)[recs[i].pk] == recs[i].fields
  {
    forall i | 0 <= i < |recs|
      ensures recs[i].pk in Override(store, recs) && Override(store, recs)[recs[i].pk] == recs[i].fields
    {
      OverrideLastWins(store, recs, i);
    }
  }

  /** Splitting by any key set and writing the records outside it before those
      inside it leaves the table as writing the records in order does. */
  lemma {:induction false} OverridePartition(store: Store, recs: seq<Record>, keys: set<Key>)
    ensures Override(store, recs) == Override(Override(store, Fresh(recs, keys)), Existing(recs, keys))
    decreases |recs|
  {
    if recs != [] {
      OverridePartition(store, Init(recs), keys);
      if Last(recs).pk in keys {
        PartitionStepExisting(store, recs, keys);
      } else {
        PartitionStepFresh(store, recs, keys);
      }
    }
  }

  lemma OverrideSnoc(store: Store, recs: seq<Record>, r: Record)
    ensures Override(store, recs + [r]) == Override(store, recs)[r.pk := r.fields]
  {
    assert Init(recs + [r]) == recs;
  }

  lemma PartitionStepExisting(store: Store, recs: seq<Record>, keys: set<Key>)
    requires recs != [] && Last(recs).pk in keys
    requires Override(store, Init(recs))
          == Override(Override(store, Fresh(Init(recs), keys)), Existing(Init(recs), keys))
    ensures Override(store, recs) == Override(Override(store, Fresh(recs, keys)), Existing(recs, keys))
  {
    var init, last := Init(recs), Last(recs);
    var e := Existing(init, keys);
    var x := Override(store, Fresh(init, keys));
    assert recs == init + [last];
    calc {
      Override(store, recs);
      { OverrideSnoc(store, init, last); }
      Override(store, init)[last.pk := last.fields];
      Override(x, e)[last.pk := last.fields];
      { OverrideSnoc(x, e, last); }
      Override(x, e + [last]);
      { assert Existing(recs, keys) == e + [last] && Fresh(recs, keys) == Fresh(init, keys); }
      Override(Override(store, Fresh(recs, keys)), Existing(recs, keys));
    }
  }

  lemma PartitionStepFresh(store: Store, recs: seq<Record>, keys: set<Key>)
    requires recs != [] && Last(recs).pk !in keys
    requires Override(store, Init(recs))
          == Override(Override(store, Fresh(Init(recs), keys)), Existing(Init(recs), keys))
    ensures Override(store, recs) == Override(Override(store, Fresh(recs, keys)), Existing(recs, keys))
  {
    var init, last := Init(recs), Last(recs);
    var f, e := Fresh(init, keys), Existing(init, keys);
    var x := Override(store, f);
    assert recs == init + [last];
    assert last.pk !in PkSet(e);
    calc {
      Override(store, recs);
      { OverrideSnoc(store, init, last); }
      Override(store, init)[last.pk := last.fields];
      Override(x, e)[last.pk := last.fields];
      { OverrideCommute(x, last.pk, last.fields, e); }
      Override(x[last.pk := last.fields], e);
      { OverrideSnoc(store, f, last); }
      Override(Override(store, f + [last]), e);
      { assert Existing(recs, keys) == e && Fresh(recs, keys) == f + [last]; }
      Override(Override(store, Fresh(recs, keys)), Existing(recs, keys));
    }
  }

  /** `Fresh` and `Existing` split `recs` exactly: together they hold every record once. */
  lemma {:induction false} PartitionComplete(recs: seq<Record>, keys: set<Key>)
    ensures multiset(Fresh(recs, keys)) + multiset(Existing(recs, keys)) == multiset(recs)
    ensures |Fresh(recs, keys)| + |Existing(recs, keys)| == |recs|
    decreases |recs|
  {
    if recs != [] {
      assert recs == Init(recs) + [Last(recs)];
      PartitionComplete(Init(recs), keys);
    }
  }

  /** Dropping records from the end repeats no more keys. */
  lemma NoNewDuplicatesPrefix(a: seq<Record>, b: seq<Record>, keys: set<Key>)
    requires a <= b && NoNewDuplicates(b, keys)
    ensures NoNewDuplicates(a, keys)
  {
    forall i, j | 0 <= i < j < |a| && a[i].pk == a[j].pk ensures a[i].pk in keys {
      assert a[i] == b[i] && a[j] == b[j];
    }
  }

  lemma AppendAssoc<T>(x: seq<T>, y: seq<T>, z: seq<T>)
    ensures (x + y) + z == x + (y + z)
  {
  }

  /** The new keys of `a + b` are those of `a`, then those of `b` that `a` does not carry. */
  lemma {:induction false} NovelAppend(a: seq<Record>, b: seq<Record>, keys: set<Key>)
    ensures Novel(a + b, keys) == Novel(a, keys) + Novel(b, keys + PkSet(a))
    decreases |b|
  {
    if b == [] {
      assert a + b == a;
    } else {
      var init, last := Init(b), Last(b);
      assert Init(a + b) == a + init;
      assert Last(a + b) == last;
      PkSetAppend(a, init);
      NovelAppend(a, init, keys);
      var tail := if last.pk in keys || last.pk in PkSet(a + init) then [] else [last];
      assert Novel(a + b, keys) == Novel(a + init, keys) + tail;
      assert Novel(b, keys + PkSet(a)) == Novel(init, keys + PkSet(a)) + tail;
      AppendAssoc(Novel(a, keys), Novel(init, keys + PkSet(a)), tail);
    }
  }

  /** Records outside `keys` whose keys are not repeated among themselves are
      exactly the first sightings of new keys. */
  lemma {:induction false} FreshIsNovel(recs: seq<Record>, keys: set<Key>)
    requires DistinctPks(Fresh(recs, keys))
    ensures Fresh(recs, keys) == Novel(recs, keys)
    decreases |recs|
  {
    if recs != [] {
      var init, last := Init(recs), Last(recs);
      var f := Fresh(init, keys);
      assert Fresh(recs, keys)[..|f|] == f;
      FreshIsNovel(init, keys);
      if last.pk !in keys {
        assert Fresh(recs, keys) == f + [last];
        forall r | r in f ensures r.pk != last.pk {
          var j :| 0 <= j < |f| && f[j] == r;
          assert Fresh(recs, keys)[j] == r && Fresh(recs, keys)[|f|] == last;
        }
        assert last.pk !in PkSet(f);
      }
    }
  }

  /** If only keys in `known` may repeat, then no key outside a larger set repeats. */
  lemma {:induction false} FreshDistinct(recs: seq<Record>, known: set<Key>, keys: set<Key>)
    requires NoNewDuplicates(recs, known) && known <= keys
    ensures DistinctPks(Fresh(recs, keys))
    decreases |recs|
  {
    if recs != [] {
      var init, last := Init(recs), Last(recs);
      assert NoNewDuplicates(init, known);
      FreshDistinct(init, known, keys);
      var f := Fresh(init, keys);
      if last.pk !in keys {
        forall j | 0 <= j < |f| ensures f[j].pk != last.pk {
          assert f[j].pk in PkSet(f);
          assert f[j] in init;
          var i :| 0 <= i < |init| && init[i] == f[j];
          assert recs[i] == f[j] && recs[|recs| - 1] == last;
        }
      }
    }
  }

  /** With distinct keys the first sightings of new keys are all records outside `keys`. */
  lemma NovelOfDistinct(recs: seq<Record>, keys: set<Key>)
    requires DistinctPks(recs)
    ensures Novel(recs, keys) == Fresh(recs, keys)
  {
    FreshDistinct(recs, {}, keys);
    FreshIsNovel(recs, keys);
  }

  /** When no key of `recs` is in `keys`, every record is fresh. */
  lemma {:induction false} FreshOfUnstored(recs: seq<Record>, keys: set<Key>)
    requires forall r :: r in recs ==> r.pk !in keys
    ensures Fresh(recs, keys) == recs
    decreases |recs|
  {
    if recs != [] {
      assert recs == Init(recs) + [Last(recs)];
      assert Last(recs) in recs;
      FreshOfUnstored(Init(recs), keys);
    }
  }

  /** When every key of `recs` is in `keys`, there is no first sighting of a
      new key, and no new key can repeat. */
  lemma NovelOfStored(recs: seq<Record>, keys: set<Key>)
    requires PkSet(recs) <= keys
    ensures Novel(recs, keys) == [] && NoNewDuplicates(recs, keys)
  {
    var r := Novel(recs, keys);
    assert r != [] ==> r[0].pk in PkSet(r);
    forall i, j | 0 <= i < j < |recs| && recs[i].pk == recs[j].pk ensures recs[i].pk in keys {
      assert recs[i].pk in PkSet(recs);
    }
  }

  /** A bulk insert of `a + b` succeeds exactly when inserting `a` and then `b` does. */
  lemma InsertableAppend(store: Store, a: seq<Record>, b: seq<Record>)
    ensures Insertable(store, a + b) <==> Insertable(store, a) && Insertable(Override(store, a), b)
  {
    PkSetAppend(a, b);
    if Insertable(store, a) && Insertable(Override(store, a), b) {
      OverrideFrame(store, a);
      forall i, j | 0 <= i < j < |a + b| ensures (a + b)[i].pk != (a + b)[j].pk {
        if i < |a| && j >= |a| {
          assert (a + b)[i] in a;
          assert (a + b)[i].pk in PkSet(a);
          assert (a + b)[j] in b;
        }
      }
    }
    if Insertable(store, a + b) {
      OverrideFrame(store, a);
      assert forall i :: 0 <= i < |a| ==> a[i] == (a + b)[i];
      assert forall i :: 0 <= i < |b| ==> b[i] == (a + b)[|a| + i];
      assert forall r :: r in a ==> r in a + b;
      forall r | r in b ensures r.pk !in Override(store, a) {
        var j :| 0 <= j < |b| && b[j] == r;
        forall q | q in a ensures q.pk != r.pk {
          var i :| 0 <= i < |a| && a[i] == q;
          assert (a + b)[i] == q && (a + b)[|a| + j] == r;
        }
        assert r in a + b;
      }
    }
  }
}
