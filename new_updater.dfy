/** The batch updater: valid rows are buffered, and each full batch (and a
    non-empty remainder) is split by one membership query into rows with an
    unseen key, which are bulk inserted, and rows with a stored key, which
    are written over the stored ones. */
module NewUpdater {
  import opened Records
  import opened Batches
  import opened Orm
  import opened Progress
  import Loader

  class NewTableUpdater {
    /** The batch size, the reference date and the validation rules, shared
        with the insert-only loader. */
    const base: Loader.TableLoader

    constructor(limit: int, today: Date, validators: Loader.Registry)
      ensures base.limit == limit && base.today == today && base.validators == validators
    {
      base := new Loader.TableLoader(limit, today, validators);
    }

    /** Splits `objects` by whether their key is stored, keeping their
        order; the table is asked once, for all their keys. */
    method SplitObjects(table: Table, objects: seq<Record>) returns (newObjects: seq<Record>, existsObjects: seq<Record>)
      ensures newObjects == Fresh(objects, table.model.rows.Keys)
      ensures existsObjects == Existing(objects, table.model.rows.Keys)
    {
      var ids := seq(|objects|, i requires 0 <= i < |objects| => objects[i].pk);
      var existsIds := table.model.FilterPkIn(ids);
      ghost var keys := table.model.rows.Keys;
      newObjects, existsObjects := [], [];
      var i := 0;
      while i < |objects|
        invariant i <= |objects|
        invariant newObjects == Fresh(objects[..i], keys)
        invariant existsObjects == Existing(objects[..i], keys)
      {
        var item := objects[i];
        assert ids[i] == item.pk;
        assert Init(objects[..i + 1]) == objects[..i] && Last(objects[..i + 1]) == item;
        if item.pk in existsIds {
          existsObjects := existsObjects + [item];
        } else {
          newObjects := newObjects + [item];
        }
        i := i + 1;
      }
      assert objects[..i] == objects;
    }

    /** Writes each of `objects`, all of whose keys are stored, over the
        stored row, in order. */
    method Update(table: Table, objects: seq<Record>)
      requires forall r :: r in objects ==> r.pk in table.model.rows
      modifies table.model
      ensures table.model.rows == Override(old(table.model.rows), objects)
      ensures table.model.inserts == old(table.model.inserts)
    {
      var i := 0;
      while i < |objects|
        invariant i <= |objects|
        invariant table.model.rows == Override(old(table.model.rows), objects[..i])
        invariant table.model.rows.Keys == old(table.model.rows.Keys)
        invariant table.model.inserts == old(table.model.inserts)
      {
        var obj := objects[i];
        assert Init(objects[..i + 1]) == objects[..i] && Last(objects[..i + 1]) == obj;
        table.model.ForceSave(obj);
        i := i + 1;
      }
      assert objects[..i] == objects;
    }

    /** The flush of `objects`: split, bulk insert the unseen ones, and, if
        that is accepted, write the stored ones over the table. */
    method Write(table: Table, objects: seq<Record>) returns (ok: bool, newObjects: seq<Record>, existsObjects: seq<Record>)
      modifies table.model
      ensures newObjects == Fresh(objects, old(table.model.rows.Keys))
      ensures existsObjects == Existing(objects, old(table.model.rows.Keys))
      ensures ok == Insertable(old(table.model.rows), newObjects)
      ensures table.model.rows == if ok then Override(Override(old(table.model.rows), newObjects), existsObjects)
                                  else old(table.model.rows)
      ensures table.model.inserts == old(table.model.inserts) + [newObjects]
    {
      newObjects, existsObjects := SplitObjects(table, objects);
      ghost var rows := table.model.rows;
      ok := Loader.TableLoader.Create(table, newObjects);
      if ok {
        OverrideFrame(rows, newObjects);
        Update(table, existsObjects);
      }
    }

    /** One pass of the loop of `load` over `item`: a skipped item is
        counted; a valid one is buffered and counted, and when the count
        reaches a multiple of `limit` the buffer is flushed, emptied and
        reported. A run that has hit a refused insert stays stopped. */
    function Step(table: Table, s: SplitState, item: Item): SplitState
      requires base.limit > 0
    {
      if !s.ok then s
      else if !base.Validate(table, item) then s.(skipCounter := s.skipCounter + 1)
      else
        var t := s.(objects := s.objects + [ToRecord(item.value)], counter := s.counter + 1);
        if t.counter != 0 && t.counter % base.limit == 0 then Flushed(t) else t
    }

    /** The state after the loop has passed over the first `n` items. */
    function RunTo(table: Table, items: seq<Item>, n: nat, start: SplitState): SplitState
      requires base.limit > 0 && n <= |items|
    {
      if n == 0 then start else Step(table, RunTo(table, items, n - 1, start), items[n - 1])
    }

    /** The outcome of updating a table holding `store` from `items`. */
    function Updated(table: Table, items: seq<Item>, store: Store): SplitState
      requires base.limit > 0
    {
      Finish(RunTo(table, items, |items|, Start(store)))
    }

    /** Updates `table` from the stream `items`; a refused bulk insert (`ok`
        false) aborts the run. The table, its bulk inserts and the progress
        bar end as `Updated` says. */
    method Load(items: seq<Item>, table: Table) returns (ok: bool, bar: LoadingBar)
      requires base.limit > 0
      modifies table.model
      ensures fresh(bar)
      ensures var r := Updated(table, items, old(table.model.rows));
              ok == r.ok && table.model.rows == r.rows && table.model.inserts == old(table.model.inserts) + r.issued &&
              bar.Current() == r.bar && bar.lines == r.lines
    {
      bar := new LoadingBar(table.name, table.filename);
      var counter: nat, newCounter: nat, updCounter: nat, skipCounter: nat := 0, 0, 0, 0;
      var objects: seq<Record> := [];
      ghost var start := Start(table.model.rows);
      ghost var inserts := table.model.inserts;
      ghost var issued: seq<seq<Record>> := [];
      ghost var flushed: seq<Record> := [];
      ok := true;
      var i := 0;
      while ok && i < |items|
        invariant i <= |items| && table.model.inserts == inserts + issued
        invariant Snapshot(ok, table.model, issued, flushed, objects, counter, newCounter, updCounter, skipCounter, bar)
                  == RunTo(table, items, i, start)
      {
        var item := items[i];
        ghost var s := RunTo(table, items, i, start);
        if !base.Validate(table, item) {
          skipCounter := skipCounter + 1;
        } else {
          objects := objects + [ToRecord(item.value)];
          counter := counter + 1;
          ghost var t := s.(objects := objects, counter := counter);
          assert Snapshot(ok, table.model, issued, flushed, objects, counter, newCounter, updCounter, skipCounter, bar) == t;
          if counter % base.limit == 0 {
            ghost var batch;
            ok, objects, newCounter, updCounter, batch, flushed :=
              FlushBatch(table, objects, counter, newCounter, updCounter, skipCounter, bar, issued, flushed);
            AppendAssoc(inserts, issued, [batch]);
            issued := issued + [batch];
          }
        }
        assert Snapshot(ok, table.model, issued, flushed, objects, counter, newCounter, updCounter, skipCounter, bar)
               == Step(table, s, item);
        i := i + 1;
      }
      if !ok {
        Halted(table, items, i, |items|, start);
      }
      assert Snapshot(ok, table.model, issued, flushed, objects, counter, newCounter, updCounter, skipCounter, bar)
             == RunTo(table, items, |items|, start);
      if ok {
        ghost var sent;
        ok, sent := Conclude(table, objects, counter, newCounter, updCounter, skipCounter, bar, issued, flushed);
      }
    }

    /** A full batch in the loop of `load`: flushed and, unless its bulk
        insert is refused, emptied and reported. */
    method FlushBatch(table: Table, objects: seq<Record>, counter: nat, newCounter: nat, updCounter: nat,
                      skipCounter: nat, bar: LoadingBar, ghost issued: seq<seq<Record>>, ghost flushed: seq<Record>)
      returns (ok: bool, rest: seq<Record>, newCount: nat, updCount: nat, ghost batch: seq<Record>, ghost done: seq<Record>)
      modifies table.model, bar
      ensures Snapshot(ok, table.model, issued + [batch], done, rest, counter, newCount, updCount, skipCounter, bar)
              == Flushed(old(Snapshot(true, table.model, issued, flushed, objects, counter, newCounter, updCounter,
                                      skipCounter, bar)))
      ensures table.model.inserts == old(table.model.inserts) + [batch]
    {
      ghost var u := Flush(Snapshot(true, table.model, issued, flushed, objects, counter, newCounter, updCounter,
                                    skipCounter, bar));
      var newObjects, existsObjects;
      ok, newObjects, existsObjects := Write(table, objects);
      newCount, updCount := newCounter + |newObjects|, updCounter + |existsObjects|;
      batch, rest, done := newObjects, objects, flushed;
      assert u.ok == ok && u.rows == table.model.rows && u.issued == issued + [batch];
      assert u.newCounter == newCount && u.updCounter == updCount;
      if ok {
        done, rest := flushed + objects, [];
        bar.Update(newCount, updCount, skipCounter);
      }
    }

    /** The end of `load`: a non-empty buffer is flushed and, unless its
        bulk insert is refused, the counters are reported. */
    method Conclude(table: Table, objects: seq<Record>, counter: nat, newCounter: nat, updCounter: nat,
                    skipCounter: nat, bar: LoadingBar, ghost issued: seq<seq<Record>>, ghost flushed: seq<Record>)
      returns (ok: bool, ghost sent: seq<seq<Record>>)
      modifies table.model, bar
      ensures var r := Finish(old(Snapshot(true, table.model, issued, flushed, objects, counter, newCounter, updCounter,
                                           skipCounter, bar)));
              ok == r.ok && table.model.rows == r.rows && r.issued == issued + sent &&
              bar.Current() == r.bar && bar.lines == r.lines
      ensures table.model.inserts == old(table.model.inserts) + sent
    {
      ghost var s := Snapshot(true, table.model, issued, flushed, objects, counter, newCounter, updCounter, skipCounter, bar);
      var newCounter, updCounter := newCounter, updCounter;
      ok, sent := true, [];
      ghost var t := s;
      if objects != [] {
        var newObjects, existsObjects;
        ok, newObjects, existsObjects := Write(table, objects);
        newCounter := newCounter + |newObjects|;
        updCounter := updCounter + |existsObjects|;
        sent := [newObjects];
        t := Flush(s);
        assert t.ok == ok && t.rows == table.model.rows && t.issued == issued + sent;
        assert t.newCounter == newCounter && t.updCounter == updCounter;
      }
      if ok {
        bar.Update(newCounter, updCounter, skipCounter);
      }
      assert Finish(s) == if t.ok then Report(t) else t;
    }

    /** Once a bulk insert is refused the run changes no more. */
    lemma {:induction false} Halted(table: Table, items: seq<Item>, m: nat, n: nat, start: SplitState)
      requires base.limit > 0 && m <= n <= |items| && !RunTo(table, items, m, start).ok
      ensures RunTo(table, items, n, start) == RunTo(table, items, m, start)
      decreases n
    {
      if m < n {
        Halted(table, items, m, n - 1, start);
      }
    }

    /** What holds of the state after the loop has passed over `n` items of
        a run on a table that held `store`: see `Written` and `Counted`. */
    ghost predicate Running(table: Table, items: seq<Item>, n: nat, store: Store, s: SplitState)
      requires base.limit > 0 && n <= |items|
    {
      var a := base.AcceptedUpTo(table, items, n);
      Written(store, a, s, base.limit) && Counted(a, n, s, base.limit)
    }

    /** Induction over the stream: a property of the state that holds at
        the start and that every pass of the loop keeps holds after any
        number of items. */
    lemma {:induction false} RunInduction(table: Table, items: seq<Item>, start: SplitState,
                                          inv: (nat, SplitState) -> bool, n: nat)
      requires base.limit > 0 && n <= |items| && inv(0, start)
      requires forall k: nat, s :: k < |items| && inv(k, s) ==> inv(k + 1, Step(table, s, items[k]))
      ensures inv(n, RunTo(table, items, n, start))
      decreases n
    {
      if n > 0 {
        RunInduction(table, items, start, inv, n - 1);
      }
    }

    lemma RunningTo(table: Table, items: seq<Item>, n: nat, store: Store)
      requires base.limit > 0 && n <= |items|
      ensures Running(table, items, n, store, RunTo(table, items, n, Start(store)))
    {
      var inv := (k: nat, s: SplitState) => k <= |items| && Running(table, items, k, store, s);
      forall k: nat, s | k < |items| && inv(k, s) ensures inv(k + 1, Step(table, s, items[k])) {
        StepRunning(table, items, k, store, s);
      }
      RunInduction(table, items, Start(store), inv, n);
    }

    /** One pass of the loop keeps `Running`. */
    lemma StepRunning(table: Table, items: seq<Item>, n: nat, store: Store, s: SplitState)
      requires base.limit > 0 && n < |items| && Running(table, items, n, store, s)
      ensures Running(table, items, n + 1, store, Step(table, s, items[n]))
    {
      if !s.ok {
        StepHalted(table, items, n, store, s);
      } else if !base.Validate(table, items[n]) {
        assert base.AcceptedUpTo(table, items, n + 1) == base.AcceptedUpTo(table, items, n);
      } else if |s.objects| + 1 < base.limit {
        StepBuffered(table, items, n, store, s);
      } else {
        StepFull(table, items, n, store, s);
      }
    }

    lemma StepHalted(table: Table, items: seq<Item>, n: nat, store: Store, s: SplitState)
      requires base.limit > 0 && n < |items| && Running(table, items, n, store, s) && !s.ok
      ensures Running(table, items, n + 1, store, Step(table, s, items[n]))
    {
      base.AcceptedGrows(table, items, n, n + 1);
      HaltedKeeps(store, base.AcceptedUpTo(table, items, n), base.AcceptedUpTo(table, items, n + 1), n, s, base.limit);
    }

    /** A valid item that does not fill the buffer. */
    lemma StepBuffered(table: Table, items: seq<Item>, n: nat, store: Store, s: SplitState)
      requires base.limit > 0 && n < |items| && Running(table, items, n, store, s)
      requires s.ok && base.Validate(table, items[n]) && |s.objects| + 1 < base.limit
      ensures Running(table, items, n + 1, store, Step(table, s, items[n]))
    {
      var a, r := base.AcceptedUpTo(table, items, n), ToRecord(items[n].value);
      assert base.AcceptedUpTo(table, items, n + 1) == a + [r];
      FlushTest(s.flushed, |s.objects| + 1, base.limit);
      assert Step(table, s, items[n]) == s.(objects := s.objects + [r], counter := s.counter + 1);
      BufferKeeps(store, a, n, s, r, base.limit);
    }

    /** A valid item that fills the buffer. */
    lemma StepFull(table: Table, items: seq<Item>, n: nat, store: Store, s: SplitState)
      requires base.limit > 0 && n < |items| && Running(table, items, n, store, s)
      requires s.ok && base.Validate(table, items[n]) && |s.objects| + 1 == base.limit
      ensures Running(table, items, n + 1, store, Step(table, s, items[n]))
    {
      var a, r := base.AcceptedUpTo(table, items, n), ToRecord(items[n].value);
      assert base.AcceptedUpTo(table, items, n + 1) == a + [r];
      FlushTest(s.flushed, |s.objects| + 1, base.limit);
      var t := s.(objects := s.objects + [r], counter := s.counter + 1);
      assert t.counter == |s.flushed| + (|s.objects| + 1);
      assert t.counter % base.limit == 0;
      assert Step(table, s, items[n]) == Flushed(t);
      FullWritten(store, a, s, r, base.limit);
      FullCounted(a, n, s, r, base.limit);
    }

    /** The outcome of a batch update run over the accepted records `v`.
        With no unseen key repeated among them it succeeds. Then every
        accepted record is written over the table in stream order; there is
        one bulk insert per batch of `limit` accepted records, and together
        they carry exactly the first sighting of each key the table did not
        hold; and the bar counts those as loaded, the other accepted records
        as updated and the rest of the items as skipped. A refused bulk
        insert repeats a key, and the table is then the store with the
        accepted records of the batches flushed before it written over it.
        No bulk insert holds more than `limit` records, and the bar never
        goes backwards. */
    lemma UpdateOutcome(table: Table, items: seq<Item>, store: Store)
      requires base.limit > 0
      ensures var r, v := Updated(table, items, store), base.Accepted(table, items);
              NoNewDuplicates(v, store.Keys) ==> r.ok
      ensures var r, v := Updated(table, items, store), base.Accepted(table, items);
              r.ok ==> r.rows == Override(store, v) && Flatten(r.issued) == Novel(v, store.Keys) &&
                       |r.issued| == |Chunks(v, base.limit)| &&
                       r.bar.loaded == |Novel(v, store.Keys)| && r.bar.loaded + r.bar.updated == |v| &&
                       r.bar.skipped == |items| - |v|
      ensures var r, v := Updated(table, items, store), base.Accepted(table, items);
              !r.ok ==> r.issued != [] && !DistinctPks(Last(r.issued)) &&
                        r.rows == Override(store, r.flushed) && r.flushed <= v && Whole(r.flushed, base.limit)
      ensures var r := Updated(table, items, store);
              forall j :: 0 <= j < |r.issued| ==> |r.issued[j]| <= base.limit
      ensures var r := Updated(table, items, store); Steady(r.lines, r.bar)
    {
      var s := RunTo(table, items, |items|, Start(store));
      RunningTo(table, items, |items|, store);
      FinishOutcome(store, base.Accepted(table, items), |items|, s, base.limit);
    }

    /** The contents of each bulk insert of a successful run: the `j`-th
        one holds the records of the `j`-th batch of `limit` accepted
        records whose key neither the table nor an earlier batch held. */
    lemma InsertContents(table: Table, items: seq<Item>, store: Store)
      requires base.limit > 0
      ensures var r, bs := Updated(table, items, store), Chunks(base.Accepted(table, items), base.limit);
              r.ok ==> r.issued == BatchInserts(store, bs) &&
                       forall j :: 0 <= j < |r.issued| ==>
                         r.issued[j] == Fresh(bs[j], store.Keys + PkSet(Flatten(bs[..j])))
    {
      var s := RunTo(table, items, |items|, Start(store));
      ChunkedTo(table, items, |items|, store);
      FinishChunked(store, base.Accepted(table, items), s, base.limit);
      BatchInsertsAt(store, Chunks(base.Accepted(table, items), base.limit));
    }

    lemma ChunkedTo(table: Table, items: seq<Item>, n: nat, store: Store)
      requires base.limit > 0 && n <= |items|
      ensures var s := RunTo(table, items, n, Start(store));
              Shaped(store, base.AcceptedUpTo(table, items, n), s, base.limit) && Chunked(store, s, base.limit)
    {
      var inv := (k: nat, s: SplitState) => k <= |items| && Running(table, items, k, store, s) &&
                                          Chunked(store, s, base.limit);
      RunningTo(table, items, 0, store);
      forall k: nat, s | k < |items| && inv(k, s) ensures inv(k + 1, Step(table, s, items[k])) {
        StepBoth(table, items, k, store, s);
      }
      RunInduction(table, items, Start(store), inv, n);
      var s := RunTo(table, items, n, Start(store));
      RunningShaped(store, base.AcceptedUpTo(table, items, n), n, s, base.limit);
    }

    /** One pass of the loop keeps `Running` and `Chunked`. */
    lemma StepBoth(table: Table, items: seq<Item>, n: nat, store: Store, s: SplitState)
      requires base.limit > 0 && n < |items| && Running(table, items, n, store, s) && Chunked(store, s, base.limit)
      ensures Running(table, items, n + 1, store, Step(table, s, items[n]))
      ensures Chunked(store, Step(table, s, items[n]), base.limit)
    {
      StepRunning(table, items, n, store, s);
      var a := base.AcceptedUpTo(table, items, n);
      RunningShaped(store, a, n, s, base.limit);
      StepChunked(table, s, items[n], store, a);
    }

    /** One pass of the loop keeps `Chunked`. */
    lemma StepChunked(table: Table, s: SplitState, item: Item, store: Store, a: seq<Record>)
      requires base.limit > 0 && Chunked(store, s, base.limit) && Shaped(store, a, s, base.limit)
      ensures Chunked(store, Step(table, s, item), base.limit)
    {
      if s.ok && base.Validate(table, item) {
        if |s.objects| + 1 == base.limit {
          StepChunkedFull(table, s, item, store, a);
        } else {
          StepChunkedBuffered(table, s, item, store, a);
        }
      }
    }

    lemma StepChunkedFull(table: Table, s: SplitState, item: Item, store: Store, a: seq<Record>)
      requires base.limit > 0 && Chunked(store, s, base.limit) && Shaped(store, a, s, base.limit)
      requires s.ok && base.Validate(table, item) && |s.objects| + 1 == base.limit
      ensures Chunked(store, Step(table, s, item), base.limit)
    {
      var t := s.(objects := s.objects + [ToRecord(item.value)], counter := s.counter + 1);
      FlushTest(s.flushed, |s.objects| + 1, base.limit);
      assert t.counter == |s.flushed| + (|s.objects| + 1);
      assert t.counter % base.limit == 0;
      FullChunked(store, t, base.limit);
    }

    lemma StepChunkedBuffered(table: Table, s: SplitState, item: Item, store: Store, a: seq<Record>)
      requires base.limit > 0 && Chunked(store, s, base.limit) && Shaped(store, a, s, base.limit)
      requires s.ok && base.Validate(table, item) && |s.objects| + 1 < base.limit
      ensures Chunked(store, Step(table, s, item), base.limit)
    {
      var t := s.(objects := s.objects + [ToRecord(item.value)], counter := s.counter + 1);
      FlushTest(s.flushed, |s.objects| + 1, base.limit);
      assert t.counter == |s.flushed| + (|s.objects| + 1);
      assert t.counter % base.limit != 0;
      assert Step(table, s, item) == t;
      assert t.issued == s.issued && t.flushed == s.flushed;
    }
  }

  /** The local state of one run of `NewTableUpdater.load` together with
      the table and the progress bar it writes to: whether every bulk insert
      so far was accepted, the table's rows, the bulk inserts this run
      issued, the records flushed so far (bookkeeping only), the buffer, the
      four counters, and the bar's counters and status lines. */
  datatype SplitState = SplitState(ok: bool, rows: Store, issued: seq<seq<Record>>, flushed: seq<Record>,
                                   objects: seq<Record>, counter: nat, newCounter: nat, updCounter: nat,
                                   skipCounter: nat, bar: Status, lines: seq<Status>)

  function Start(store: Store): SplitState {
    SplitState(true, store, [], [], [], 0, 0, 0, 0, Status(0, 0, 0), [])
  }

  /** The flush of the buffer: its records with an unseen key are counted
      as new and bulk inserted, the others are counted as updated and, once
      the insert is accepted, written over the table. */
  function Flush(s: SplitState): SplitState {
    var keys := s.rows.Keys;
    var unseen, stored := Fresh(s.objects, keys), Existing(s.objects, keys);
    var ok := Insertable(s.rows, unseen);
    s.(ok := ok, newCounter := s.newCounter + |unseen|, updCounter := s.updCounter + |stored|,
       issued := s.issued + [unseen], rows := if ok then Override(Override(s.rows, unseen), stored) else s.rows,
       flushed := if ok then s.flushed + s.objects else s.flushed)
  }

  /** A full batch flushed and, unless its bulk insert is refused, emptied
      and reported. */
  function Flushed(s: SplitState): SplitState {
    var u := Flush(s);
    if u.ok then Report(u.(objects := [])) else u
  }

  /** A progress bar update showing all three counters. */
  function Report(s: SplitState): SplitState {
    var b := Apply(s.bar, s.newCounter, s.updCounter, s.skipCounter);
    s.(bar := b, lines := s.lines + [b])
  }

  /** After the loop: a non-empty buffer is flushed, then the counters are
      reported. */
  function Finish(s: SplitState): SplitState {
    var t := if s.ok && s.objects != [] then Flush(s) else s;
    if t.ok then Report(t) else t
  }

  ghost function Snapshot(ok: bool, model: Model, issued: seq<seq<Record>>, flushed: seq<Record>, objects: seq<Record>,
                          counter: nat, newCounter: nat, updCounter: nat, skipCounter: nat, bar: LoadingBar): SplitState
    reads model, bar
  {
    SplitState(ok, model.rows, issued, flushed, objects, counter, newCounter, updCounter, skipCounter,
               bar.Current(), bar.lines)
  }

  /** The counters a run reports. */
  function Counters(s: SplitState): Status {
    Status(s.newCounter, s.updCounter, s.skipCounter)
  }

  /** The table side of the run's invariant, given the records `a`
      accepted so far: the records flushed so far are whole batches written
      over `store`, and no bulk insert holds more than `limit` records.
      While running, the flushed records and the buffer are `a`, the bulk
      inserts carry the first sightings of the keys `store` did not hold,
      one per batch. After a refusal, the refused bulk insert repeats a key,
      and so does `a`, and the records flushed before it begin `a`. */
  ghost predicate Written(store: Store, a: seq<Record>, s: SplitState, limit: int)
    requires limit > 0
  {
    s.rows == Override(store, s.flushed) && Whole(s.flushed, limit) &&
    (forall j :: 0 <= j < |s.issued| ==> |s.issued[j]| <= limit) &&
    (s.ok ==> s.flushed + s.objects == a && Flatten(s.issued) == Novel(s.flushed, store.Keys) &&
              |s.issued| == |Chunks(s.flushed, limit)|) &&
    (!s.ok ==> s.issued != [] && !DistinctPks(Last(s.issued)) && !NoNewDuplicates(a, store.Keys) && s.flushed <= a)
  }

  /** The counting side of the run's invariant after `n` items: the bar
      never went backwards; while running, the buffer is not full, the
      counters count the accepted records, the records bulk inserted, the
      records flushed and the items, and the bar is not ahead of them. */
  ghost predicate Counted(a: seq<Record>, n: nat, s: SplitState, limit: int)
    requires limit > 0
  {
    Steady(s.lines, s.bar) &&
    (s.ok ==> |s.objects| < limit && s.counter == |a| && s.newCounter == |Flatten(s.issued)| &&
              s.newCounter + s.updCounter == |s.flushed| && s.skipCounter + |a| == n && Le(s.bar, Counters(s)))
  }

  /** How a batch update run over the accepted records `v` out of `count`
      items ended: see `NewTableUpdater.UpdateOutcome`. */
  ghost predicate Outcome(store: Store, v: seq<Record>, count: nat, r: SplitState, limit: int)
    requires limit > 0
  {
    (NoNewDuplicates(v, store.Keys) ==> r.ok) && Steady(r.lines, r.bar) &&
    (forall j :: 0 <= j < |r.issued| ==> |r.issued[j]| <= limit) &&
    (r.ok ==> r.rows == Override(store, v) && Flatten(r.issued) == Novel(v, store.Keys) &&
              |r.issued| == |Chunks(v, limit)| &&
              r.bar.loaded == |Novel(v, store.Keys)| && r.bar.loaded + r.bar.updated == |v| &&
              r.bar.skipped == count - |v|) &&
    (!r.ok ==> r.issued != [] && !DistinctPks(Last(r.issued)) &&
               r.rows == Override(store, r.flushed) && r.flushed <= v && Whole(r.flushed, limit))
  }

  /** The bulk inserts of a run that flushed the batches `bs` over a table
      holding `store`: from each batch, its records whose key neither the
      table nor an earlier batch held. */
  function BatchInserts(store: Store, bs: seq<seq<Record>>): (r: seq<seq<Record>>)
    ensures |r| == |bs|
    decreases |bs|
  {
    if bs == [] then []
    else BatchInserts(store, Init(bs)) + [Fresh(Last(bs), store.Keys + PkSet(Flatten(Init(bs))))]
  }

  /** `BatchInserts`, insert by insert. */
  lemma {:induction false} BatchInsertsAt(store: Store, bs: seq<seq<Record>>)
    ensures forall j :: 0 <= j < |bs| ==>
              BatchInserts(store, bs)[j] == Fresh(bs[j], store.Keys + PkSet(Flatten(bs[..j])))
    decreases |bs|
  {
    if bs != [] {
      BatchInsertsAt(store, Init(bs));
      forall j | 0 <= j < |bs|
        ensures BatchInserts(store, bs)[j] == Fresh(bs[j], store.Keys + PkSet(Flatten(bs[..j])))
      {
        if j < |bs| - 1 {
          BatchInsertsEarlier(store, bs, j);
        } else {
          assert bs[..j] == Init(bs);
        }
      }
    }
  }

  lemma BatchInsertsEarlier(store: Store, bs: seq<seq<Record>>, j: nat)
    requires j < |bs| - 1
    requires BatchInserts(store, Init(bs))[j] == Fresh(Init(bs)[j], store.Keys + PkSet(Flatten(Init(bs)[..j])))
    ensures BatchInserts(store, bs)[j] == Fresh(bs[j], store.Keys + PkSet(Flatten(bs[..j])))
  {
    assert bs[..j] == Init(bs)[..j] && bs[j] == Init(bs)[j];
  }

  /** While running, the bulk inserts so far are those of the batches
      flushed so far. */
  ghost predicate Chunked(store: Store, s: SplitState, limit: int)
    requires limit > 0
  {
    s.ok ==> s.issued == BatchInserts(store, Chunks(s.flushed, limit))
  }

  /** Flushing a full buffer, or the remainder, after whole batches adds
      the buffer's bulk insert as that of one more batch. */
  lemma FlushChunked(store: Store, s: SplitState, limit: int)
    requires limit > 0 && s.ok && s.rows == Override(store, s.flushed) && Whole(s.flushed, limit)
    requires 0 < |s.objects| <= limit && Chunked(store, s, limit)
    ensures Chunked(store, Flush(s), limit)
  {
    var u, bs := Flush(s), Chunks(s.flushed, limit) + [s.objects];
    assert u.issued == s.issued + [Fresh(s.objects, s.rows.Keys)];
    assert u.ok ==> u.flushed == s.flushed + s.objects;
    ChunksSplit(s.flushed, s.objects, [], limit);
    assert s.flushed + s.objects + [] == s.flushed + s.objects;
    assert Chunks(s.flushed + s.objects, limit) == bs;
    assert Init(bs) == Chunks(s.flushed, limit) && Last(bs) == s.objects;
    ChunksFlatten(s.flushed, limit);
    OverrideFrame(store, s.flushed);
    assert BatchInserts(store, bs) == s.issued + [Fresh(s.objects, s.rows.Keys)];
  }

  /** The shape of a running state over the accepted records `a`: the
      flushed records are whole batches written over `store`, followed by a
      buffer that is not full, and the count is of all of them. */
  ghost predicate Shaped(store: Store, a: seq<Record>, s: SplitState, limit: int)
    requires limit > 0
  {
    s.ok ==> s.flushed + s.objects == a && s.rows == Override(store, s.flushed) && Whole(s.flushed, limit) &&
             |s.objects| < limit && s.counter == |s.flushed| + |s.objects|
  }

  lemma RunningShaped(store: Store, a: seq<Record>, n: nat, s: SplitState, limit: int)
    requires limit > 0 && Written(store, a, s, limit) && Counted(a, n, s, limit)
    ensures Shaped(store, a, s, limit)
  {
  }

  /** A full buffer after whole batches: its flush keeps `Chunked`. */
  lemma FullChunked(store: Store, t: SplitState, limit: int)
    requires limit > 0 && t.ok && t.rows == Override(store, t.flushed) && Whole(t.flushed, limit)
    requires |t.objects| == limit && Chunked(store, t, limit)
    ensures Chunked(store, Flushed(t), limit)
  {
    FlushChunked(store, t, limit);
    FlushedChunked(store, t, limit);
  }

  /** Emptying and reporting after an accepted flush keeps `Chunked`. */
  lemma FlushedChunked(store: Store, t: SplitState, limit: int)
    requires limit > 0 && Chunked(store, Flush(t), limit)
    ensures Chunked(store, Flushed(t), limit)
  {
    var u := Flush(t);
    if u.ok {
      assert Flushed(t).issued == u.issued && Flushed(t).flushed == u.flushed;
    }
  }

  /** After the loop, a successful run has issued the bulk inserts of the
      accepted records cut into batches. */
  lemma FinishChunked(store: Store, v: seq<Record>, s: SplitState, limit: int)
    requires limit > 0 && Shaped(store, v, s, limit) && Chunked(store, s, limit)
    ensures Finish(s).ok ==> Finish(s).issued == BatchInserts(store, Chunks(v, limit))
  {
    if s.ok && s.objects != [] {
      FlushChunked(store, s, limit);
      var u := Flush(s);
      if u.ok {
        assert u.flushed == v;
        assert Finish(s).issued == u.issued;
      }
    } else if s.ok {
      assert s.flushed + [] == s.flushed;
      assert Finish(s).issued == s.issued;
    }
  }

  /** After a refusal, reading further into the stream keeps the invariant. */
  lemma HaltedKeeps(store: Store, a: seq<Record>, b: seq<Record>, n: nat, s: SplitState, limit: int)
    requires limit > 0 && a <= b && !s.ok && Written(store, a, s, limit) && Counted(a, n, s, limit)
    ensures Written(store, b, s, limit) && Counted(b, n + 1, s, limit)
  {
    if NoNewDuplicates(b, store.Keys) {
      NoNewDuplicatesPrefix(a, b, store.Keys);
    }
  }

  /** An accepted flush writes the buffer over the table after the records
      flushed before it. */
  lemma BatchStored(store: Store, s: SplitState)
    requires s.ok && Flush(s).ok && s.rows == Override(store, s.flushed)
    ensures Flush(s).flushed == s.flushed + s.objects && Flush(s).rows == Override(store, Flush(s).flushed)
  {
    var b, keys := s.objects, s.rows.Keys;
    OverridePartition(s.rows, b, keys);
    OverrideAppend(store, s.flushed, b);
  }

  /** An accepted flush of a batch after whole batches issues one more bulk
      insert, which carries the first sightings of the batch's unseen keys. */
  lemma BatchIssued(store: Store, s: SplitState, limit: int)
    requires limit > 0 && s.ok && 0 < |s.objects| <= limit && Flush(s).ok
    requires s.rows == Override(store, s.flushed) && Whole(s.flushed, limit)
    requires Flatten(s.issued) == Novel(s.flushed, store.Keys) && |s.issued| == |Chunks(s.flushed, limit)|
    ensures var u := Flush(s);
            Flatten(u.issued) == Novel(s.flushed + s.objects, store.Keys) &&
            |u.issued| == |Chunks(s.flushed + s.objects, limit)| && |Last(u.issued)| <= limit
  {
    var b, keys := s.objects, s.rows.Keys;
    var unseen := Fresh(b, keys);
    assert Flush(s).issued == s.issued + [unseen];
    PartitionComplete(b, keys);
    NovelBatch(store, s.flushed, s.issued, b);
    ChunkedBatch(s.flushed, s.issued, b, unseen, limit);
  }

  /** Bulk inserting the unseen part of one more batch keeps the bulk
      inserts equal to the first sightings of the keys `store` did not hold. */
  lemma NovelBatch(store: Store, flushed: seq<Record>, issued: seq<seq<Record>>, b: seq<Record>)
    requires Flatten(issued) == Novel(flushed, store.Keys)
    requires DistinctPks(Fresh(b, Override(store, flushed).Keys))
    ensures Flatten(issued + [Fresh(b, Override(store, flushed).Keys)]) == Novel(flushed + b, store.Keys)
  {
    var keys := Override(store, flushed).Keys;
    OverrideFrame(store, flushed);
    FlattenSnoc(issued, Fresh(b, keys));
    FreshIsNovel(b, keys);
    NovelAppend(flushed, b, store.Keys);
  }

  /** One more bulk insert for one more batch after whole batches keeps one
      bulk insert per batch. */
  lemma ChunkedBatch(flushed: seq<Record>, issued: seq<seq<Record>>, b: seq<Record>, f: seq<Record>, limit: int)
    requires limit > 0 && Whole(flushed, limit) && 0 < |b| <= limit
    requires |issued| == |Chunks(flushed, limit)|
    ensures |issued + [f]| == |Chunks(flushed + b, limit)|
  {
    ChunksSplit(flushed, b, [], limit);
    assert flushed + b + [] == flushed + b;
  }

  /** The flush of a running buffer whose bulk insert is refused: the
      refused insert repeats a key, and so do the records flushed and
      buffered. */
  lemma BatchRefused(store: Store, s: SplitState, limit: int)
    requires limit > 0 && s.ok && 0 < |s.objects| <= limit && !Flush(s).ok
    requires s.rows == Override(store, s.flushed)
    ensures var u := Flush(s);
            !DistinctPks(Last(u.issued)) && !NoNewDuplicates(s.flushed + s.objects, store.Keys) &&
            |Last(u.issued)| <= limit
  {
    var b, keys := s.objects, s.rows.Keys;
    OverrideFrame(store, s.flushed);
    PartitionComplete(b, keys);
    if NoNewDuplicates(s.flushed + b, store.Keys) {
      NoNewDuplicatesSuffix(s.flushed, b, store.Keys);
      FreshDistinct(b, store.Keys, keys);
    }
  }

  /** A full batch keeps the table side of the invariant. */
  lemma FullWritten(store: Store, a: seq<Record>, s: SplitState, r: Record, limit: int)
    requires limit > 0 && s.ok && Written(store, a, s, limit) && |s.objects| + 1 == limit
    ensures Written(store, a + [r], Flushed(s.(objects := s.objects + [r], counter := s.counter + 1)), limit)
  {
    var t := s.(objects := s.objects + [r], counter := s.counter + 1);
    assert t.flushed + t.objects == a + [r];
    if Flush(t).ok {
      FullAccepted(store, a + [r], t, limit);
    } else {
      FullRefused(store, a + [r], t, limit);
    }
  }

  lemma FullRefused(store: Store, a: seq<Record>, t: SplitState, limit: int)
    requires limit > 0 && t.ok && |t.objects| == limit && !Flush(t).ok && t.flushed + t.objects == a
    requires t.rows == Override(store, t.flushed) && Whole(t.flushed, limit)
    requires forall j :: 0 <= j < |t.issued| ==> |t.issued[j]| <= limit
    ensures Written(store, a, Flushed(t), limit)
  {
    BatchRefused(store, t, limit);
    assert Flushed(t) == Flush(t);
  }

  lemma FullAccepted(store: Store, a: seq<Record>, t: SplitState, limit: int)
    requires limit > 0 && t.ok && |t.objects| == limit && Flush(t).ok && t.flushed + t.objects == a
    requires t.rows == Override(store, t.flushed) && Whole(t.flushed, limit)
    requires Flatten(t.issued) == Novel(t.flushed, store.Keys) && |t.issued| == |Chunks(t.flushed, limit)|
    requires forall j :: 0 <= j < |t.issued| ==> |t.issued[j]| <= limit
    ensures Written(store, a, Flushed(t), limit)
  {
    var u := Flush(t);
    assert Flushed(t) == Report(u.(objects := []));
    BatchStored(store, t);
    BatchIssued(store, t, limit);
    WholeAppend(t.flushed, t.objects, limit);
    assert u.flushed + [] == a;
  }

  /** A record that does not fill the buffer is only buffered and counted. */
  lemma BufferKeeps(store: Store, a: seq<Record>, n: nat, s: SplitState, r: Record, limit: int)
    requires limit > 0 && s.ok && Written(store, a, s, limit) && Counted(a, n, s, limit) && |s.objects| + 1 < limit
    ensures var t := s.(objects := s.objects + [r], counter := s.counter + 1);
            Written(store, a + [r], t, limit) && Counted(a + [r], n + 1, t, limit)
  {
  }

  /** A full batch keeps the counting side of the invariant. */
  lemma FullCounted(a: seq<Record>, n: nat, s: SplitState, r: Record, limit: int)
    requires limit > 0 && s.ok && Counted(a, n, s, limit) && s.flushed + s.objects == a && |s.objects| + 1 == limit
    ensures Counted(a + [r], n + 1, Flushed(s.(objects := s.objects + [r], counter := s.counter + 1)), limit)
  {
    var t := s.(objects := s.objects + [r], counter := s.counter + 1);
    if Flush(t).ok {
      assert t.flushed + t.objects == a + [r];
      BatchCounted(t);
      FlushCounted(a + [r], n + 1, t, limit);
    } else {
      assert Flushed(t) == Flush(t);
    }
  }

  /** A flush adds the unseen part of the buffer to the new count and to
      the bulk inserts, and the rest to the update count. */
  lemma BatchCounted(t: SplitState)
    requires t.ok
    ensures var u := Flush(t);
            |Flatten(u.issued)| == |Flatten(t.issued)| + |Last(u.issued)| &&
            u.newCounter == t.newCounter + |Last(u.issued)| &&
            u.newCounter + u.updCounter == t.newCounter + t.updCounter + |t.objects|
  {
    var keys := t.rows.Keys;
    FlattenSnoc(t.issued, Fresh(t.objects, keys));
    PartitionComplete(t.objects, keys);
  }

  /** An accepted flush counts the batch and reports the counters. */
  lemma FlushCounted(a: seq<Record>, n: nat, t: SplitState, limit: int)
    requires limit > 0 && t.ok && Flush(t).ok && t.flushed + t.objects == a && t.counter == |a|
    requires Steady(t.lines, t.bar) && Le(t.bar, Counters(t)) && t.skipCounter + |a| == n
    requires Flush(t).newCounter + Flush(t).updCounter == |Flush(t).flushed|
    requires Flush(t).newCounter == |Flatten(Flush(t).issued)|
    ensures Counted(a, n, Flushed(t), limit)
  {
    var u := Flush(t);
    var f := Report(u.(objects := []));
    assert Flushed(t) == f;
    ApplyReports(u.bar, Counters(u), u.newCounter, u.updCounter, u.skipCounter);
    SteadyExtend(u.lines, u.bar, f.bar);
  }

  /** The end of a run: the remainder's flush and the final report. */
  lemma FinishOutcome(store: Store, v: seq<Record>, count: nat, s: SplitState, limit: int)
    requires limit > 0 && Written(store, v, s, limit) && Counted(v, count, s, limit)
    ensures Outcome(store, v, count, Finish(s), limit)
  {
    if !s.ok {
      assert Finish(s) == s;
    } else if s.objects == [] {
      var r := Report(s);
      assert Finish(s) == r;
      assert s.flushed + [] == s.flushed;
      ApplyReports(s.bar, Counters(s), s.newCounter, s.updCounter, s.skipCounter);
      SteadyExtend(s.lines, s.bar, r.bar);
    } else if Flush(s).ok {
      FinishRemainder(store, v, count, s, limit);
    } else {
      BatchRefused(store, s, limit);
      assert Finish(s) == Flush(s);
    }
  }

  lemma FinishRemainder(store: Store, v: seq<Record>, count: nat, s: SplitState, limit: int)
    requires limit > 0 && Written(store, v, s, limit) && Counted(v, count, s, limit)
    requires s.ok && s.objects != [] && Flush(s).ok
    ensures Outcome(store, v, count, Finish(s), limit)
  {
    RemainderTable(store, v, count, s, limit);
    RemainderBar(store, v, count, s, limit);
  }

  /** The table side of flushing the remainder. */
  lemma RemainderTable(store: Store, v: seq<Record>, count: nat, s: SplitState, limit: int)
    requires limit > 0 && Written(store, v, s, limit) && Counted(v, count, s, limit)
    requires s.ok && s.objects != [] && Flush(s).ok
    ensures var r := Finish(s);
            r.ok && r.rows == Override(store, v) && Flatten(r.issued) == Novel(v, store.Keys) &&
            |r.issued| == |Chunks(v, limit)| && forall j :: 0 <= j < |r.issued| ==> |r.issued[j]| <= limit
  {
    var u := Flush(s);
    var r := Report(u);
    assert Finish(s) == r;
    BatchStored(store, s);
    BatchIssued(store, s, limit);
    assert u.flushed == v && r.rows == Override(store, v) && r.issued == u.issued;
    assert u.issued == s.issued + [Last(u.issued)];
  }

  /** The counting side of flushing the remainder. */
  lemma RemainderBar(store: Store, v: seq<Record>, count: nat, s: SplitState, limit: int)
    requires limit > 0 && Written(store, v, s, limit) && Counted(v, count, s, limit)
    requires s.ok && s.objects != [] && Flush(s).ok
    ensures var r := Finish(s);
            Steady(r.lines, r.bar) && r.bar.loaded == |Novel(v, store.Keys)| &&
            r.bar.loaded + r.bar.updated == |v| && r.bar.skipped == count - |v|
  {
    var u := Flush(s);
    var r := Report(u);
    assert Finish(s) == r;
    BatchIssued(store, s, limit);
    BatchCounted(s);
    ApplyReports(u.bar, Counters(u), u.newCounter, u.updCounter, u.skipCounter);
    SteadyExtend(u.lines, u.bar, r.bar);
  }

  /** Dropping records from the front repeats no more keys. */
  lemma NoNewDuplicatesSuffix(a: seq<Record>, b: seq<Record>, keys: set<Key>)
    requires NoNewDuplicates(a + b, keys)
    ensures NoNewDuplicates(b, keys)
  {
    forall i, j | 0 <= i < j < |b| && b[i].pk == b[j].pk ensures b[i].pk in keys {
      assert (a + b)[|a| + i] == b[i] && (a + b)[|a| + j] == b[j];
    }
  }
}
