/** The insert-only loader: validates each row of a table's stream and bulk
    inserts the accepted rows in batches of `limit`. */
module Loader {
  import opened Records
  import opened Batches
  import opened Orm
  import opened Progress

  /** A per-table rule that decides whether a record may be loaded, given
      the reference date. */
  type Validator = (Record, Date) -> bool

  /** The per-table rules, by table name. */
  type Registry = map<string, Validator>

  class TableLoader {
    /** Rows per bulk insert. */
    const limit: int
    /** The reference date handed to the validators. */
    const today: Date
    const validators: Registry

    constructor(limit: int, today: Date, validators: Registry)
      ensures this.limit == limit && this.today == today && this.validators == validators
    {
      this.limit := limit;
      this.today := today;
      this.validators := validators;
    }

    /** An item is loaded only if it exists and has a key, and the rule
        registered for its table, if any, accepts it. */
    function Validate(table: Table, item: Item): (valid: bool)
      ensures item.None? || item.value.pk.None? ==> !valid
      ensures item.Some? && item.value.pk.Some? && table.name !in validators ==> valid
      ensures item.Some? && item.value.pk.Some? && table.name in validators ==>
                valid == validators[table.name](ToRecord(item.value), today)
    {
      if item.None? || item.value.pk.None? then false
      else if table.name in validators then validators[table.name](ToRecord(item.value), today)
      else true
    }

    /** The records of the valid items among the first `n` items, in
        stream order. */
    function AcceptedUpTo(table: Table, items: seq<Item>, n: nat): (r: seq<Record>)
      requires n <= |items|
      ensures |r| <= n
    {
      if n == 0 then []
      else
        var tail := if Validate(table, items[n - 1]) then [ToRecord(items[n - 1].value)] else [];
        AcceptedUpTo(table, items, n - 1) + tail
    }

    /** The records of the valid items, in stream order. */
    function Accepted(table: Table, items: seq<Item>): seq<Record> {
      AcceptedUpTo(table, items, |items|)
    }

    /** Reading further into the stream only adds records after those
        already accepted. */
    lemma {:induction false} AcceptedGrows(table: Table, items: seq<Item>, m: nat, n: nat)
      requires m <= n <= |items|
      ensures AcceptedUpTo(table, items, m) <= AcceptedUpTo(table, items, n)
      decreases n
    {
      if m < n {
        AcceptedGrows(table, items, m, n - 1);
      }
    }

    /** With no rule for the table and a key on every item, nothing is
        skipped: every item is accepted, as its record, in order. */
    lemma {:induction false} AcceptedAll(table: Table, items: seq<Item>, n: nat)
      requires n <= |items|
      requires table.name !in validators
      requires forall i :: 0 <= i < |items| ==> items[i].Some? && items[i].value.pk.Some?
      ensures |AcceptedUpTo(table, items, n)| == n
      ensures forall i :: 0 <= i < n ==> AcceptedUpTo(table, items, n)[i] == ToRecord(items[i].value)
      decreases n
    {
      if n > 0 {
        AcceptedAll(table, items, n - 1);
      }
    }

    /** Bulk inserts `objects` into the table's model. */
    static method Create(table: Table, objects: seq<Record>) returns (ok: bool)
      modifies table.model
      ensures ok == Insertable(old(table.model.rows), objects)
      ensures table.model.rows == if ok then Override(old(table.model.rows), objects) else old(table.model.rows)
      ensures table.model.inserts == old(table.model.inserts) + [objects]
    {
      ok := table.model.BulkCreate(objects);
    }

    /** One pass of the loop of `load` over `item`: a skipped item is
        counted; a valid one is buffered and counted, and when the count
        reaches a multiple of `limit` the buffer is bulk inserted, emptied
        and reported. A run that has hit a refused insert stays stopped. */
    function Step(table: Table, s: LoadState, item: Item): LoadState
      requires limit > 0
    {
      if !s.ok then s
      else if !Validate(table, item) then s.(skipCounter := s.skipCounter + 1)
      else
        var t := s.(objects := s.objects + [ToRecord(item.value)], newCounter := s.newCounter + 1);
        if t.newCounter != 0 && t.newCounter % limit == 0 then
          var u := Insert(t);
          if u.ok then Report(u.(objects := []), t.newCounter, 0, t.skipCounter) else u
        else t
    }

    /** The state after the loop has passed over the first `n` items. */
    function RunTo(table: Table, items: seq<Item>, n: nat, start: LoadState): LoadState
      requires limit > 0 && n <= |items|
    {
      if n == 0 then start else Step(table, RunTo(table, items, n - 1, start), items[n - 1])
    }

    /** After the loop: a non-empty remainder is bulk inserted and reported,
        then the skip count is reported once more. */
    function Finish(s: LoadState): LoadState {
      var t := if s.ok && s.objects != [] then
                 var u := Insert(s);
                 if u.ok then Report(u, u.newCounter, 0, u.skipCounter) else u
               else s;
      if t.ok then Report(t, 0, 0, t.skipCounter) else t
    }

    /** The outcome of loading `items` into a table holding `store`. */
    function Loaded(table: Table, items: seq<Item>, store: Store, inserts: seq<seq<Record>>): LoadState
      requires limit > 0
    {
      Finish(RunTo(table, items, |items|, Begin(store, inserts)))
    }

    /** Loads the stream `items` of `table`: every valid item is bulk
        inserted, in stream order, in batches of `limit`, and a refused bulk
        insert (`ok` false) aborts the load. The table and the progress bar
        end as `Loaded` says. */
    method Load(items: seq<Item>, table: Table) returns (ok: bool, bar: LoadingBar)
      requires limit > 0
      modifies table.model
      ensures fresh(bar)
      ensures var r := Loaded(table, items, old(table.model.rows), old(table.model.inserts));
              ok == r.ok && table.model.rows == r.rows && table.model.inserts == r.inserts &&
              bar.Current() == r.bar && bar.lines == r.lines
    {
      bar := new LoadingBar(table.name, table.filename);
      var newCounter, skipCounter := 0, 0;
      var objects: seq<Record> := [];
      ghost var start := Begin(table.model.rows, table.model.inserts);
      ghost var flushed: seq<Record> := [];
      ok := true;
      var i := 0;
      while ok && i < |items|
        invariant i <= |items|
        invariant Snapshot(ok, table.model, flushed, objects, newCounter, skipCounter, bar)
                  == RunTo(table, items, i, start)
      {
        var item := items[i];
        ghost var s := RunTo(table, items, i, start);
        if !Validate(table, item) {
          skipCounter := skipCounter + 1;
        } else {
          objects := objects + [ToRecord(item.value)];
          newCounter := newCounter + 1;
          ghost var t := s.(objects := objects, newCounter := newCounter);
          assert Snapshot(ok, table.model, flushed, objects, newCounter, skipCounter, bar) == t;
          if newCounter != 0 && newCounter % limit == 0 {
            ok := Create(table, objects);
            ghost var u := Insert(t);
            assert u.ok == ok && u.rows == table.model.rows && u.inserts == table.model.inserts;
            if ok {
              flushed := flushed + objects;
              objects := [];
              bar.Update(loaded := newCounter, skipped := skipCounter);
            }
          }
        }
        assert Snapshot(ok, table.model, flushed, objects, newCounter, skipCounter, bar) == Step(table, s, item);
        i := i + 1;
      }
      if !ok {
        Halted(table, items, i, |items|, start);
      }
      ghost var s := RunTo(table, items, |items|, start);
      assert Snapshot(ok, table.model, flushed, objects, newCounter, skipCounter, bar) == s;
      if ok && objects != [] {
        ok := Create(table, objects);
        ghost var u := Insert(s);
        assert u.ok == ok && u.rows == table.model.rows && u.inserts == table.model.inserts;
        if ok {
          flushed := flushed + objects;
          bar.Update(loaded := newCounter, skipped := skipCounter);
        }
      }
      if ok {
        bar.Update(skipped := skipCounter);
      }
    }

    /** Once a bulk insert is refused the run changes no more. */
    lemma {:induction false} Halted(table: Table, items: seq<Item>, m: nat, n: nat, start: LoadState)
      requires limit > 0 && m <= n <= |items| && !RunTo(table, items, m, start).ok
      ensures RunTo(table, items, n, start) == RunTo(table, items, m, start)
      decreases n
    {
      if m < n {
        Halted(table, items, m, n - 1, start);
      }
    }

    /** What holds of the state after the loop has passed over `n` items of
        a load into a table that held `store`, with the bulk inserts
        `inserts` already issued. */
    ghost predicate Running(table: Table, items: seq<Item>, n: nat, store: Store, inserts: seq<seq<Record>>,
                            s: LoadState)
      requires limit > 0 && n <= |items|
    {
      Written(store, inserts, s) && Counted(table, items, n, s)
    }

    /** The table side of `Running`: the records inserted by the run could
        be inserted at once, are all written over `store` and were issued as
        their batches; after a refusal the refused batch was issued too and
        cannot be inserted on top of them. */
    ghost predicate Written(store: Store, inserts: seq<seq<Record>>, s: LoadState)
      requires limit > 0
    {
      Insertable(store, s.flushed) && s.rows == Override(store, s.flushed) &&
      (s.ok ==> s.inserts == inserts + Chunks(s.flushed, limit)) &&
      (!s.ok ==> s.inserts == inserts + Chunks(s.flushed, limit) + [s.objects] && !Insertable(s.rows, s.objects))
    }

    /** The counting side of `Running`: the records inserted are whole
        batches and the bar never went backwards; while no insert was refused
        they and the buffer are the records accepted so far, and the counters
        and the bar count them; after a refusal the refused batch is a full
        one that follows them among the accepted records. */
    ghost predicate Counted(table: Table, items: seq<Item>, n: nat, s: LoadState)
      requires limit > 0 && n <= |items|
    {
      Whole(s.flushed, limit) && Steady(s.lines, s.bar) &&
      (s.ok ==> s.flushed + s.objects == AcceptedUpTo(table, items, n) && |s.objects| < limit &&
                s.newCounter == |s.flushed| + |s.objects| && s.skipCounter == n - s.newCounter &&
                s.bar.loaded == |s.flushed| && s.bar.updated == 0 && s.bar.skipped <= s.skipCounter) &&
      (!s.ok ==> s.flushed + s.objects <= AcceptedUpTo(table, items, n) && |s.objects| == limit)
    }

    /** Induction over the stream: a property of the state that holds at
        the start and that every pass of the loop keeps holds after any
        number of items. */
    lemma {:induction false} RunInduction(table: Table, items: seq<Item>, start: LoadState,
                                          inv: (nat, LoadState) -> bool, n: nat)
      requires limit > 0 && n <= |items| && inv(0, start)
      requires forall k: nat, s :: k < |items| && inv(k, s) ==> inv(k + 1, Step(table, s, items[k]))
      ensures inv(n, RunTo(table, items, n, start))
      decreases n
    {
      if n > 0 {
        RunInduction(table, items, start, inv, n - 1);
      }
    }

    lemma RunningTo(table: Table, items: seq<Item>, n: nat, store: Store, inserts: seq<seq<Record>>)
      requires limit > 0 && n <= |items|
      ensures Running(table, items, n, store, inserts, RunTo(table, items, n, Begin(store, inserts)))
    {
      var inv := (k: nat, s: LoadState) => k <= |items| && Running(table, items, k, store, inserts, s);
      forall k: nat, s | k < |items| && inv(k, s) ensures inv(k + 1, Step(table, s, items[k])) {
        StepWritten(table, items, k, store, inserts, s);
        StepCounted(table, items, k, store, inserts, s);
      }
      RunInduction(table, items, Begin(store, inserts), inv, n);
    }

    /** A valid item is buffered and counted; the buffer is then full exactly
        when the count is a multiple of `limit`. */
    lemma Buffered(table: Table, items: seq<Item>, n: nat, s: LoadState)
      requires limit > 0 && n < |items| && Counted(table, items, n, s)
      requires s.ok && Validate(table, items[n])
      ensures s.flushed + s.objects + [ToRecord(items[n].value)] == AcceptedUpTo(table, items, n + 1)
      ensures (s.newCounter + 1) % limit == 0 <==> |s.objects| + 1 == limit
    {
      FlushTest(s.flushed, |s.objects| + 1, limit);
    }

    /** One pass of the loop keeps the table side of `Running`: only a
        flush changes the table. */
    lemma StepWritten(table: Table, items: seq<Item>, n: nat, store: Store, inserts: seq<seq<Record>>, s: LoadState)
      requires limit > 0 && n < |items| && Running(table, items, n, store, inserts, s)
      ensures Written(store, inserts, Step(table, s, items[n]))
    {
      if s.ok && Validate(table, items[n]) && (s.newCounter + 1) % limit == 0 {
        FlushWritten(table, items, n, store, inserts, s);
      }
    }

    lemma FlushWritten(table: Table, items: seq<Item>, n: nat, store: Store, inserts: seq<seq<Record>>, s: LoadState)
      requires limit > 0 && n < |items| && Running(table, items, n, store, inserts, s)
      requires s.ok && Validate(table, items[n]) && (s.newCounter + 1) % limit == 0
      ensures Written(store, inserts, Step(table, s, items[n]))
    {
      Buffered(table, items, n, s);
      var t := s.(objects := s.objects + [ToRecord(items[n].value)], newCounter := s.newCounter + 1);
      var u := Insert(t);
      if u.ok {
        assert Step(table, s, items[n]) == Report(u.(objects := []), t.newCounter, 0, t.skipCounter);
        BatchWritten(store, inserts, t);
      } else {
        assert Step(table, s, items[n]) == u;
      }
    }

    /** An accepted bulk insert of a full buffer keeps the table side of
        `Running`. */
    lemma BatchWritten(store: Store, inserts: seq<seq<Record>>, t: LoadState)
      requires limit > 0 && t.ok && Insert(t).ok && Whole(t.flushed, limit) && |t.objects| == limit
      requires Insertable(store, t.flushed) && t.rows == Override(store, t.flushed)
      requires t.inserts == inserts + Chunks(t.flushed, limit)
      ensures Written(store, inserts, Insert(t).(objects := []))
    {
      FlushAccepted(store, t.flushed, t.objects, limit);
      AppendAssoc(inserts, Chunks(t.flushed, limit), [t.objects]);
    }

    /** One pass of the loop keeps the counting side of `Running`. */
    lemma StepCounted(table: Table, items: seq<Item>, n: nat, store: Store, inserts: seq<seq<Record>>, s: LoadState)
      requires limit > 0 && n < |items| && Running(table, items, n, store, inserts, s)
      ensures Counted(table, items, n + 1, Step(table, s, items[n]))
    {
      if !s.ok {
        AcceptedGrows(table, items, n, n + 1);
      } else if !Validate(table, items[n]) {
        assert AcceptedUpTo(table, items, n + 1) == AcceptedUpTo(table, items, n);
      } else if (s.newCounter + 1) % limit != 0 {
        Buffered(table, items, n, s);
      } else {
        FlushCounted(table, items, n, store, inserts, s);
      }
    }

    lemma FlushCounted(table: Table, items: seq<Item>, n: nat, store: Store, inserts: seq<seq<Record>>, s: LoadState)
      requires limit > 0 && n < |items| && Running(table, items, n, store, inserts, s)
      requires s.ok && Validate(table, items[n]) && (s.newCounter + 1) % limit == 0
      ensures Counted(table, items, n + 1, Step(table, s, items[n]))
    {
      Buffered(table, items, n, s);
      var t := s.(objects := s.objects + [ToRecord(items[n].value)], newCounter := s.newCounter + 1);
      var u := Insert(t);
      if u.ok {
        var r := Report(u.(objects := []), t.newCounter, 0, t.skipCounter);
        assert Step(table, s, items[n]) == r;
        WholeAppend(t.flushed, t.objects, limit);
        SteadyExtend(t.lines, t.bar, r.bar);
      } else {
        assert Step(table, s, items[n]) == u;
      }
    }

    /** The outcome of a load: it succeeds exactly when the accepted records
        could be inserted all at once; then they are all in the table, issued
        in batches of `limit`, and the bar shows them as loaded and the rest
        as skipped. A refused batch is one of those batches, issued after the
        ones before it, all of which are in the table. The bar never goes
        backwards. */
    lemma LoadOutcome(table: Table, items: seq<Item>, store: Store, inserts: seq<seq<Record>>)
      requires limit > 0
      ensures Loaded(table, items, store, inserts).ok <==> Insertable(store, Accepted(table, items))
      ensures var r, v := Loaded(table, items, store, inserts), Accepted(table, items);
              r.ok ==> r.rows == Override(store, v) && r.inserts == inserts + Chunks(v, limit) &&
                       r.bar == Status(|v|, 0, |items| - |v|)
      ensures var r, v := Loaded(table, items, store, inserts), Accepted(table, items);
              !r.ok ==> r.rows == Override(store, r.flushed) && !Insertable(r.rows, r.objects) &&
                        r.inserts == inserts + Chunks(r.flushed, limit) + [r.objects] &&
                        Chunks(r.flushed, limit) + [r.objects] <= Chunks(v, limit)
      ensures var r := Loaded(table, items, store, inserts); Steady(r.lines, r.bar)
    {
      var s := RunTo(table, items, |items|, Begin(store, inserts));
      RunningTo(table, items, |items|, store, inserts);
      FinishOutcome(table, items, store, inserts, s);
    }

    lemma FinishOutcome(table: Table, items: seq<Item>, store: Store, inserts: seq<seq<Record>>, s: LoadState)
      requires limit > 0 && Running(table, items, |items|, store, inserts, s)
      ensures Outcome(store, inserts, Accepted(table, items), |items|, Finish(s), limit)
    {
      var v := Accepted(table, items);
      if !s.ok {
        var rest := v[|s.flushed + s.objects|..];
        assert s.flushed + s.objects + rest == v;
        FlushRefused(store, s.flushed, s.objects, rest, limit);
      } else if s.objects == [] {
        assert s.flushed == v;
        var r := Report(s, 0, 0, s.skipCounter);
        SteadyExtend(s.lines, s.bar, r.bar);
      } else {
        FinishRemainder(store, inserts, v, |items|, s);
      }
    }

    /** The non-empty remainder is bulk inserted and, when accepted, reported. */
    lemma FinishRemainder(store: Store, inserts: seq<seq<Record>>, v: seq<Record>, count: nat, s: LoadState)
      requires limit > 0 && Written(store, inserts, s) && Whole(s.flushed, limit) && Steady(s.lines, s.bar)
      requires s.ok && 0 < |s.objects| < limit
      requires s.flushed + s.objects == v && s.newCounter == |v| && |v| <= count && s.skipCounter == count - |v|
      requires s.bar.loaded == |s.flushed| && s.bar.updated == 0 && s.bar.skipped <= s.skipCounter
      ensures Outcome(store, inserts, v, count, Finish(s), limit)
    {
      var u := Insert(s);
      if u.ok {
        RemainderAccepted(store, inserts, v, count, s);
      } else {
        FlushRefused(store, s.flushed, s.objects, [], limit);
        assert s.flushed + s.objects + [] == v;
        assert Finish(s) == u;
      }
    }

    lemma RemainderAccepted(store: Store, inserts: seq<seq<Record>>, v: seq<Record>, count: nat, s: LoadState)
      requires limit > 0 && Written(store, inserts, s) && Whole(s.flushed, limit) && Steady(s.lines, s.bar)
      requires s.ok && 0 < |s.objects| < limit
      requires s.flushed + s.objects == v && s.newCounter == |v| && |v| <= count && s.skipCounter == count - |v|
      requires s.bar.loaded == |s.flushed| && s.bar.updated == 0 && s.bar.skipped <= s.skipCounter
      requires Insertable(s.rows, s.objects)
      ensures Outcome(store, inserts, v, count, Finish(s), limit)
    {
      var u := Insert(s);
      var t := Report(u, u.newCounter, 0, u.skipCounter);
      var r := Report(t, 0, 0, t.skipCounter);
      assert Finish(s) == r;
      FlushAccepted(store, s.flushed, s.objects, limit);
      AppendAssoc(inserts, Chunks(s.flushed, limit), [s.objects]);
      RemainderReported(s);
    }

    /** Reporting the remainder and then the skip count shows every counter. */
    lemma RemainderReported(s: LoadState)
      requires Steady(s.lines, s.bar) && s.bar.loaded <= s.newCounter && s.bar.updated == 0
      requires s.bar.skipped <= s.skipCounter && s.newCounter != 0
      ensures var t := Report(s, s.newCounter, 0, s.skipCounter);
              var r := Report(t, 0, 0, t.skipCounter);
              Steady(r.lines, r.bar) && r.bar == Status(s.newCounter, 0, s.skipCounter)
    {
      var t := Report(s, s.newCounter, 0, s.skipCounter);
      SteadyExtend(s.lines, s.bar, t.bar);
      var r := Report(t, 0, 0, t.skipCounter);
      SteadyExtend(t.lines, t.bar, r.bar);
    }
  }

  /** How a load into a table holding `store` (with the bulk inserts
      `inserts` already issued) ended, given the accepted records `v` out of
      `count` items: see `TableLoader.LoadOutcome`. */
  ghost predicate Outcome(store: Store, inserts: seq<seq<Record>>, v: seq<Record>, count: nat, r: LoadState, limit: int)
    requires limit > 0 && |v| <= count
  {
    (r.ok <==> Insertable(store, v)) && Steady(r.lines, r.bar) &&
    (r.ok ==> r.rows == Override(store, v) && r.inserts == inserts + Chunks(v, limit) &&
              r.bar == Status(|v|, 0, count - |v|)) &&
    (!r.ok ==> r.rows == Override(store, r.flushed) && !Insertable(r.rows, r.objects) &&
               r.inserts == inserts + Chunks(r.flushed, limit) + [r.objects] &&
               Chunks(r.flushed, limit) + [r.objects] <= Chunks(v, limit))
  }

  /** The local state of one run of `TableLoader.load` together with the
      table and the progress bar it writes to: whether every bulk insert so
      far was accepted, the table's rows and bulk inserts, the records
      inserted by this run (`flushed`, bookkeeping only), the buffer, the two
      counters, and the bar's counters and status lines. */
  datatype LoadState = LoadState(ok: bool, rows: Store, inserts: seq<seq<Record>>, flushed: seq<Record>,
                                 objects: seq<Record>, newCounter: nat, skipCounter: nat,
                                 bar: Status, lines: seq<Status>)

  function Begin(store: Store, inserts: seq<seq<Record>>): LoadState {
    LoadState(true, store, inserts, [], [], 0, 0, Status(0, 0, 0), [])
  }

  /** The bulk insert of the buffer, as `TableLoader.create` performs it. */
  function Insert(s: LoadState): LoadState {
    var ok := Insertable(s.rows, s.objects);
    s.(ok := ok, rows := if ok then Override(s.rows, s.objects) else s.rows,
       inserts := s.inserts + [s.objects], flushed := if ok then s.flushed + s.objects else s.flushed)
  }

  /** A progress bar update, as `LoadingBar.update` performs it. */
  function Report(s: LoadState, loaded: nat, updated: nat, skipped: nat): LoadState {
    var b := Apply(s.bar, loaded, updated, skipped);
    s.(bar := b, lines := s.lines + [b])
  }

  ghost function Snapshot(ok: bool, model: Model, flushed: seq<Record>, objects: seq<Record>,
                    newCounter: nat, skipCounter: nat, bar: LoadingBar): LoadState
    reads model, bar
  {
    LoadState(ok, model.rows, model.inserts, flushed, objects, newCounter, skipCounter, bar.Current(), bar.lines)
  }

  /** A refused batch: the batches issued so far are the first batches of
      the stream, and the stream as a whole could not have been inserted. */
  lemma FlushRefused(store: Store, committed: seq<Record>, objects: seq<Record>, rest: seq<Record>, limit: int)
    requires limit > 0 && Whole(committed, limit)
    requires |objects| == limit || (rest == [] && 0 < |objects| <= limit)
    requires !Insertable(Override(store, committed), objects)
    ensures Chunks(committed, limit) + [objects] <= Chunks(committed + objects + rest, limit)
    ensures !Insertable(store, committed + objects + rest)
  {
    ChunksSplit(committed, objects, rest, limit);
    InsertableAppend(store, committed, objects);
    InsertableAppend(store, committed + objects, rest);
  }

  /** An accepted batch: the batches issued so far are exactly the batches
      of the records inserted so far, and the table holds them all. */
  lemma FlushAccepted(store: Store, committed: seq<Record>, objects: seq<Record>, limit: int)
    requires limit > 0 && Whole(committed, limit) && 0 < |objects| <= limit
    requires Insertable(store, committed) && Insertable(Override(store, committed), objects)
    ensures Chunks(committed + objects, limit) == Chunks(committed, limit) + [objects]
    ensures |objects| == limit ==> Whole(committed + objects, limit)
    ensures Insertable(store, committed + objects)
    ensures Override(Override(store, committed), objects) == Override(store, committed + objects)
  {
    ChunksSplit(committed, objects, [], limit);
    assert committed + objects + [] == committed + objects;
    if |objects| == limit {
      WholeAppend(committed, objects, limit);
    }
    InsertableAppend(store, committed, objects);
    OverrideAppend(store, committed, objects);
  }
}
