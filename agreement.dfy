/** How the three loaders of a table relate: with the same validation
    rules they accept the same records, the two updaters leave the table
    and the bar in the same state, and on a table that holds none of the
    keys both updaters do what the insert-only loader does. */
module Agreement {
  import opened Records
  import opened Batches
  import opened Orm
  import opened Progress
  import Loader
  import Updater
  import NewUpdater

  /** Two loaders with the same reference date and rules accept the same
      records from the same stream, whatever their batch sizes. */
  lemma {:induction false} SameRules(x: Loader.TableLoader, y: Loader.TableLoader, table: Table, items: seq<Item>, n: nat)
    requires n <= |items|
    requires x.today == y.today && x.validators == y.validators
    ensures x.AcceptedUpTo(table, items, n) == y.AcceptedUpTo(table, items, n)
    decreases n
  {
    if n > 0 {
      SameRules(x, y, table, items, n - 1);
    }
  }

  /** When no new key repeats, the row-by-row updater and the batch updater
      both finish, with the same rows, the same bar and the same records
      bulk inserted overall, even with different batch sizes. */
  lemma UpdatersAgree(u: Updater.TableUpdater, w: NewUpdater.NewTableUpdater, table: Table, items: seq<Item>,
                      store: Store)
    requires u.base.limit > 0 && u.updLimit > 0 && w.base.limit > 0
    requires u.base.today == w.base.today && u.base.validators == w.base.validators
    requires NoNewDuplicates(u.base.Accepted(table, items), store.Keys)
    ensures var r, q := u.Updated(table, items, store), w.Updated(table, items, store);
            r.ok && q.ok && r.rows == q.rows && r.bar == q.bar && Flatten(r.issued) == Flatten(q.issued)
  {
    SameRules(u.base, w.base, table, items, |items|);
    u.UpdateOutcome(table, items, store);
    w.UpdateOutcome(table, items, store);
  }

  /** A stream whose accepted keys are all stored is a pure refresh: both
      updaters finish, write every record over its stored row, bulk insert
      nothing and report every accepted record as updated. */
  lemma RefreshOnly(u: Updater.TableUpdater, w: NewUpdater.NewTableUpdater, table: Table, items: seq<Item>,
                    store: Store)
    requires u.base.limit > 0 && u.updLimit > 0 && w.base.limit > 0
    requires u.base.today == w.base.today && u.base.validators == w.base.validators
    requires PkSet(u.base.Accepted(table, items)) <= store.Keys
    ensures var r, q, v := u.Updated(table, items, store), w.Updated(table, items, store), u.base.Accepted(table, items);
            r.ok && q.ok && r.rows == Override(store, v) && q.rows == r.rows &&
            Flatten(r.issued) == [] && Flatten(q.issued) == [] &&
            r.bar == Status(0, |v|, |items| - |v|) && q.bar == r.bar
  {
    var v := u.base.Accepted(table, items);
    NovelOfStored(v, store.Keys);
    UpdatersAgree(u, w, table, items, store);
    u.UpdateOutcome(table, items, store);
  }

  /** Running an update a second time over the table a successful first run
      left is a pure refresh: both updaters finish, leave the table as it
      is, bulk insert nothing and report every accepted record as updated
      and none as loaded. */
  lemma Rerun(u: Updater.TableUpdater, w: NewUpdater.NewTableUpdater, table: Table, items: seq<Item>,
              store: Store)
    requires u.base.limit > 0 && u.updLimit > 0 && w.base.limit > 0
    requires u.base.today == w.base.today && u.base.validators == w.base.validators
    requires NoNewDuplicates(u.base.Accepted(table, items), store.Keys)
    ensures var r, v := u.Updated(table, items, store), u.base.Accepted(table, items);
            r.ok &&
            var r2, q2 := u.Updated(table, items, r.rows), w.Updated(table, items, r.rows);
            r2.ok && q2.ok && r2.rows == r.rows && q2.rows == r.rows &&
            Flatten(r2.issued) == [] && Flatten(q2.issued) == [] &&
            r2.bar == Status(0, |v|, |items| - |v|) && q2.bar == r2.bar
  {
    var v := u.base.Accepted(table, items);
    u.UpdateOutcome(table, items, store);
    var r := u.Updated(table, items, store);
    OverrideFrame(store, v);
    RefreshOnly(u, w, table, items, r.rows);
    OverrideTwice(store, v);
  }

  /** When the accepted records could be bulk inserted in one go (distinct
      keys, none stored), the insert-only loader and both updaters finish
      with the same rows and the same bar: every record loaded, none
      updated. */
  lemma LoaderAgrees(l: Loader.TableLoader, u: Updater.TableUpdater, w: NewUpdater.NewTableUpdater, table: Table,
                     items: seq<Item>, store: Store, inserts: seq<seq<Record>>)
    requires l.limit > 0 && u.base.limit > 0 && u.updLimit > 0 && w.base.limit > 0
    requires u.base.today == l.today && u.base.validators == l.validators
    requires w.base.today == l.today && w.base.validators == l.validators
    requires Insertable(store, l.Accepted(table, items))
    ensures var p, r, q := l.Loaded(table, items, store, inserts), u.Updated(table, items, store),
                           w.Updated(table, items, store);
            p.ok && r.ok && q.ok && r.rows == p.rows && q.rows == p.rows && r.bar == p.bar && q.bar == p.bar
  {
    var v := l.Accepted(table, items);
    SameRules(l, u.base, table, items, |items|);
    FreshOfUnstored(v, store.Keys);
    NovelOfDistinct(v, store.Keys);
    assert NoNewDuplicates(v, store.Keys);
    l.LoadOutcome(table, items, store, inserts);
    UpdatersAgree(u, w, table, items, store);
    u.UpdateOutcome(table, items, store);
  }

  /** With distinct keys among the accepted records the batch updater is an
      upsert: it finishes, every accepted record is stored under its key
      with its own fields, no other key is added, and every stored row whose
      key is not among them is left as it was. */
  lemma DistinctUpsert(w: NewUpdater.NewTableUpdater, table: Table, items: seq<Item>, store: Store)
    requires w.base.limit > 0
    requires DistinctPks(w.base.Accepted(table, items))
    ensures var q, v := w.Updated(table, items, store), w.base.Accepted(table, items);
            q.ok && q.rows.Keys == store.Keys + PkSet(v) &&
            (forall i :: 0 <= i < |v| ==> q.rows[v[i].pk] == v[i].fields) &&
            (forall k :: k in store && k !in PkSet(v) ==> q.rows[k] == store[k])
  {
    var v := w.base.Accepted(table, items);
    assert NoNewDuplicates(v, store.Keys);
    w.UpdateOutcome(table, items, store);
    OverrideFrame(store, v);
    OverrideStoresAll(store, v);
  }
}
