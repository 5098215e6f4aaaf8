/** The row-by-row updater: a valid row whose key is already stored is
    written over the stored one at once; a row with an unseen key is
    buffered and bulk inserted in batches of `limit`. */
module Updater {
  import opened Records
  import opened Batches
  import opened Orm
  import opened Progress
  import Loader

  class TableUpdater {
    /** The batch size, the reference date and the validation rules, shared
        with the insert-only loader. */
    const base: Loader.TableLoader
    /** Updates between two progress reports. */
    const updLimit: int

    /** `limit / 10` is Python 2 integer division; for the divisor 10 it
        agrees with Dafny's. */
    constructor(limit: int, today: Date, validators: Loader.Registry)
      ensures base.limit == limit && base.today == today && base.validators == validators
      ensures updLimit == limit / 10
    {
      updLimit := limit / 10;
      base := new Loader.TableLoader(limit, today, validators);
    }

    /** One pass of the loop of `load` over `item`. A run that has hit a
        refused insert stays stopped. */
    function Step(table: Table, s: UpdateState, item: Item): UpdateState
      requires base.limit > 0 && updLimit > 0
    {
      if !s.ok then s
      else if !base.Validate(table, item) then s.(skipCounter := s.skipCounter + 1)
      else UpdateCheck(FlushCheck(Classify(s, ToRecord(item.value)), base.limit), updLimit)
    }

    /** The state after the loop has passed over the first `n` items. */
    function RunTo(table: Table, items: seq<Item>, n: nat, start: UpdateState): UpdateState
      requires base.limit > 0 && updLimit > 0 && n <= |items|
    {
      if n == 0 then start else Step(table, RunTo(table, items, n - 1, start), items[n - 1])
    }

    /** The outcome of updating a table holding `store` from `items`. */
    function Updated(table: Table, items: seq<Item>, store: Store): UpdateState
      requires base.limit > 0 && updLimit > 0
    {
      Finish(RunTo(table, items, |items|, Start(store)))
    }

    /** Updates `table` from the stream `items`; a refused bulk insert (`ok`
        false) aborts the run. The table, its bulk inserts and the progress
        bar end as `Updated` says. */
    method Load(items: seq<Item>, table: Table) returns (ok: bool, bar: LoadingBar)
      requires base.limit > 0 && updLimit > 0
      modifies table.model
      ensures fresh(bar)
      ensures var r := Updated(table, items, old(table.model.rows));
              ok == r.ok && table.model.rows == r.rows && table.model.inserts == old(table.model.inserts) + r.issued &&
              bar.Current() == r.bar && bar.lines == r.lines
    {
      bar := new LoadingBar(table.name, table.filename);
      var newCounter, updCounter, skipCounter := 0, 0, 0;
      var model := table.model;
      var objects: seq<Record> := [];
      ghost var start := Start(model.rows);
      ghost var inserts := model.inserts;
      ghost var issued: seq<seq<Record>> := [];
      ok := true;
      var i := 0;
      while ok && i < |items|
        invariant i <= |items| && model.inserts == inserts + issued
        invariant Snapshot(ok, model, issued, objects, newCounter, updCounter, skipCounter, bar)
                  == RunTo(table, items, i, start)
      {
        var item := items[i];
        ghost var s := RunTo(table, items, i, start);
        if !base.Validate(table, item) {
          skipCounter := skipCounter + 1;
        } else {
          var obj := ToRecord(item.value);
          var oldObj := model.Get(obj.pk);
          if oldObj.None? {
            objects := objects + [obj];
            newCounter := newCounter + 1;
          } else {
            model.ForceSave(obj);
            updCounter := updCounter + 1;
          }
          ghost var t := Classify(s, obj);
          assert Snapshot(ok, model, issued, objects, newCounter, updCounter, skipCounter, bar) == t;
          if newCounter != 0 && newCounter % base.limit == 0 {
            ok := Loader.TableLoader.Create(table, objects);
            AppendAssoc(inserts, issued, [objects]);
            issued := issued + [objects];
            if ok {
              objects := [];
              bar.Update(newCounter, updCounter, skipCounter);
            }
          }
          assert Snapshot(ok, model, issued, objects, newCounter, updCounter, skipCounter, bar)
                 == FlushCheck(t, base.limit);
          if ok && updCounter != 0 && updCounter % updLimit == 0 {
            bar.Update(newCounter, updCounter, skipCounter);
          }
        }
        i := i + 1;
      }
      if !ok {
        Halted(table, items, i, |items|, start);
      }
      ghost var s := RunTo(table, items, |items|, start);
      assert Snapshot(ok, model, issued, objects, newCounter, updCounter, skipCounter, bar) == s;
      if ok && objects != [] {
        ok := Loader.TableLoader.Create(table, objects);
        AppendAssoc(inserts, issued, [objects]);
        issued := issued + [objects];
        ghost var u := Insert(s);
        assert u.ok == ok && u.rows == model.rows && u.issued == issued;
      }
      if ok {
        bar.Update(newCounter, updCounter, skipCounter);
      }
    }

    /** Once a bulk insert is refused the run changes no more. */
    lemma {:induction false} Halted(table: Table, items: seq<Item>, m: nat, n: nat, start: UpdateState)
      requires base.limit > 0 && updLimit > 0 && m <= n <= |items| && !RunTo(table, items, m, start).ok
      ensures RunTo(table, items, n, start) == RunTo(table, items, m, start)
      decreases n
    {
      if m < n {
        Halted(table, items, m, n - 1, start);
      }
    }

    /** What holds of the state after the loop has passed over `n` items of
        a run on a table that held `store`: see `Stored`, `Sighted` and
        `Tallied`; besides, a running buffer is never full. */
    ghost predicate Running(table: Table, items: seq<Item>, n: nat, store: Store, s: UpdateState)
      requires base.limit > 0 && n <= |items|
    {
      var a := base.AcceptedUpTo(table, items, n);
      Stored(store, a, s) && Sighted(store, a, s) && Tallied(a, n, s, base.limit) &&
      (s.ok ==> |s.objects| < base.limit)
    }

    /** Induction over the stream: a property of the state that holds at
        the start and that every pass of the loop keeps holds after any
        number of items. */
    lemma {:induction false} RunInduction(table: Table, items: seq<Item>, start: UpdateState,
                                          inv: (nat, UpdateState) -> bool, n: nat)
      requires base.limit > 0 && updLimit > 0 && n <= |items| && inv(0, start)
      requires forall k: nat, s :: k < |items| && inv(k, s) ==> inv(k + 1, Step(table, s, items[k]))
      ensures inv(n, RunTo(table, items, n, start))
      decreases n
    {
      if n > 0 {
        RunInduction(table, items, start, inv, n - 1);
      }
    }

    lemma RunningTo(table: Table, items: seq<Item>, n: nat, store: Store)
      requires base.limit > 0 && updLimit > 0 && n <= |items|
      ensures Running(table, items, n, store, RunTo(table, items, n, Start(store)))
    {
      var inv := (k: nat, s: UpdateState) => k <= |items| && Running(table, items, k, store, s);
      forall k: nat, s | k < |items| && inv(k, s) ensures inv(k + 1, Step(table, s, items[k])) {
        StepRunning(table, items, k, store, s);
      }
      RunInduction(table, items, Start(store), inv, n);
    }

    /** One pass of the loop keeps `Running`. */
    lemma StepRunning(table: Table, items: seq<Item>, n: nat, store: Store, s: UpdateState)
      requires base.limit > 0 && updLimit > 0 && n < |items| && Running(table, items, n, store, s)
      ensures Running(table, items, n + 1, store, Step(table, s, items[n]))
    {
      var a := base.AcceptedUpTo(table, items, n);
      if !s.ok {
        base.AcceptedGrows(table, items, n, n + 1);
        HaltedKeeps(store, a, base.AcceptedUpTo(table, items, n + 1), n, s, base.limit);
      } else if !base.Validate(table, items[n]) {
        assert base.AcceptedUpTo(table, items, n + 1) == a;
        SkipKeeps(store, a, n, s, base.limit);
      } else {
        var r := ToRecord(items[n].value);
        assert base.AcceptedUpTo(table, items, n + 1) == a + [r];
        PassKeeps(store, a, n, s, r, base.limit, updLimit);
        assert Step(table, s, items[n]) == UpdateCheck(FlushCheck(Classify(s, r), base.limit), updLimit);
      }
    }

    /** The outcome of an update run over the accepted records `v`. With no
        unseen key repeated among them it succeeds. Then every accepted
        record is written over the table in stream order; the bulk inserts
        carry exactly the first sighting of each key the table did not hold;
        and the bar counts those as loaded, the other accepted records as
        updated and the rest of the items as skipped. A refused bulk insert
        repeats a key. Every bulk insert holds at most `limit` records, and
        all but the last hold `limit` or none. The bar never goes backwards. */
    lemma UpdateOutcome(table: Table, items: seq<Item>, store: Store)
      requires base.limit > 0 && updLimit > 0
      ensures var r, v := Updated(table, items, store), base.Accepted(table, items);
              NoNewDuplicates(v, store.Keys) ==> r.ok
      ensures var r, v := Updated(table, items, store), base.Accepted(table, items);
              r.ok ==> r.rows == Override(store, v) && Flatten(r.issued) == Novel(v, store.Keys) &&
                       r.bar.loaded == |Novel(v, store.Keys)| && r.bar.loaded + r.bar.updated == |v| &&
                       r.bar.skipped == |items| - |v|
      ensures var r := Updated(table, items, store);
              !r.ok ==> r.issued != [] && !DistinctPks(Last(r.issued))
      ensures var r := Updated(table, items, store);
              forall j :: 0 <= j < |r.issued| ==> |r.issued[j]| <= base.limit
      ensures var r := Updated(table, items, store);
              forall j :: 0 <= j < |r.issued| - 1 ==> |r.issued[j]| == base.limit || r.issued[j] == []
      ensures var r := Updated(table, items, store); Steady(r.lines, r.bar)
    {
      var s := RunTo(table, items, |items|, Start(store));
      RunningTo(table, items, |items|, store);
      FinishOutcome(store, base.Accepted(table, items), |items|, s, base.limit);
    }
  }

  /** The local state of one run of `TableUpdater.load` together with the
      table and the progress bar it writes to: whether every bulk insert so
      far was accepted, the table's rows, the bulk inserts this run issued,
      the buffer, the three counters, and the bar's counters and status
      lines. */
  datatype UpdateState = UpdateState(ok: bool, rows: Store, issued: seq<seq<Record>>, objects: seq<Record>,
                                     newCounter: nat, updCounter: nat, skipCounter: nat,
                                     bar: Status, lines: seq<Status>)

  function Start(store: Store): UpdateState {
    UpdateState(true, store, [], [], 0, 0, 0, Status(0, 0, 0), [])
  }

  /** The bulk insert of the buffer, as `TableLoader.create` performs it. */
  function Insert(s: UpdateState): UpdateState {
    var ok := Insertable(s.rows, s.objects);
    s.(ok := ok, rows := if ok then Override(s.rows, s.objects) else s.rows, issued := s.issued + [s.objects])
  }

  /** A progress bar update showing all three counters. */
  function Report(s: UpdateState): UpdateState {
    var b := Apply(s.bar, s.newCounter, s.updCounter, s.skipCounter);
    s.(bar := b, lines := s.lines + [b])
  }

  /** A valid record: an update in place when its key is stored, a new
      buffered record otherwise. */
  function Classify(s: UpdateState, r: Record): UpdateState {
    if r.pk in s.rows then s.(rows := s.rows[r.pk := r.fields], updCounter := s.updCounter + 1)
    else s.(objects := s.objects + [r], newCounter := s.newCounter + 1)
  }

  /** Whenever the new-record count is a positive multiple of `limit`, the
      buffer is bulk inserted, emptied and reported. The test runs after
      every valid record, so an update that follows a flush flushes the
      empty buffer again. */
  function FlushCheck(s: UpdateState, limit: int): UpdateState
    requires limit > 0
  {
    if s.newCounter != 0 && s.newCounter % limit == 0 then
      var u := Insert(s);
      if u.ok then Report(u.(objects := [])) else u
    else s
  }

  /** Whenever the update count is a positive multiple of `updLimit`, the
      counters are reported. */
  function UpdateCheck(s: UpdateState, updLimit: int): UpdateState
    requires updLimit > 0
  {
    if s.ok && s.updCounter != 0 && s.updCounter % updLimit == 0 then Report(s) else s
  }

  /** The flush test looks at the new-record count, which an update in
      place does not move: once a flush has emptied the buffer at a multiple
      of `limit`, the next update issues an empty bulk insert (which always
      succeeds) and reports the counters again. */
  lemma EmptyReinsert(s: UpdateState, r: Record, limit: int)
    requires limit > 0 && s.ok && s.objects == [] && s.newCounter != 0 && s.newCounter % limit == 0
    requires r.pk in s.rows
    ensures var t := FlushCheck(Classify(s, r), limit);
            t.ok && t.rows == s.rows[r.pk := r.fields] && t.issued == s.issued + [[]] &&
            t.lines == s.lines + [t.bar] && t.bar == Apply(s.bar, s.newCounter, s.updCounter + 1, s.skipCounter)
  {
  }

  /** After the loop: a non-empty buffer is bulk inserted, then the
      counters are reported. */
  function Finish(s: UpdateState): UpdateState {
    var t := if s.ok && s.objects != [] then Insert(s) else s;
    if t.ok then Report(t) else t
  }

  ghost function Snapshot(ok: bool, model: Model, issued: seq<seq<Record>>, objects: seq<Record>,
                          newCounter: nat, updCounter: nat, skipCounter: nat, bar: LoadingBar): UpdateState
    reads model, bar
  {
    UpdateState(ok, model.rows, issued, objects, newCounter, updCounter, skipCounter, bar.Current(), bar.lines)
  }

  /** The counters of a run. */
  function Counters(s: UpdateState): Status {
    Status(s.newCounter, s.updCounter, s.skipCounter)
  }

  /** Every bulk insert issued so far holds `limit` records or none. */
  predicate Batched(issued: seq<seq<Record>>, limit: int) {
    forall j :: 0 <= j < |issued| ==> |issued[j]| == limit || issued[j] == []
  }

  /** The table side of the run's invariant, given the records `a`
      accepted so far. While running, the table with the buffer written
      over it is `store` with `a` written over it, no buffered key is
      stored, and the stored keys are those of `store` and those bulk
      inserted. After a refusal, the refused batch repeats a key. */
  ghost predicate Stored(store: Store, a: seq<Record>, s: UpdateState) {
    (s.ok ==> Override(s.rows, s.objects) == Override(store, a) &&
              (forall r :: r in s.objects ==> r.pk !in s.rows) &&
              s.rows.Keys == store.Keys + PkSet(Flatten(s.issued))) &&
    (!s.ok ==> s.issued != [] && !DistinctPks(Last(s.issued)))
  }

  /** The key side of the run's invariant. While running, the buffered
      keys are accepted keys, every accepted key is stored or buffered, a
      buffer without repeated keys completes the bulk inserts to the first
      sightings of the unseen keys, and the buffer repeats no key unless
      `a` repeats an unseen one. After a refusal, `a` does. */
  ghost predicate Sighted(store: Store, a: seq<Record>, s: UpdateState) {
    (s.ok ==> PkSet(s.objects) <= PkSet(a) && PkSet(a) <= s.rows.Keys + PkSet(s.objects) &&
              (DistinctPks(s.objects) ==> Flatten(s.issued) + s.objects == Novel(a, store.Keys)) &&
              (NoNewDuplicates(a, store.Keys) ==> DistinctPks(s.objects))) &&
    (!s.ok ==> !NoNewDuplicates(a, store.Keys))
  }

  /** The counting side of the run's invariant after `n` items: the bulk
      inserts hold whole batches and the bar never went backwards; while
      running, the new-record counter counts the records bulk inserted or
      buffered, the counters add up to the accepted records and the items,
      and the bar is not ahead of them. */
  ghost predicate Tallied(a: seq<Record>, n: nat, s: UpdateState, limit: int)
    requires limit > 0
  {
    Whole(Flatten(s.issued), limit) && Batched(s.issued, limit) && Steady(s.lines, s.bar) &&
    (s.ok ==> |s.objects| <= limit && s.newCounter == |Flatten(s.issued)| + |s.objects| &&
              s.newCounter + s.updCounter == |a| && s.skipCounter + |a| == n && Le(s.bar, Counters(s)))
  }

  /** How an update run over the accepted records `v` out of `count` items
      ended: see `TableUpdater.UpdateOutcome`. */
  ghost predicate Outcome(store: Store, v: seq<Record>, count: nat, r: UpdateState, limit: int) {
    (NoNewDuplicates(v, store.Keys) ==> r.ok) && Steady(r.lines, r.bar) &&
    (forall j :: 0 <= j < |r.issued| ==> |r.issued[j]| <= limit) &&
    (forall j :: 0 <= j < |r.issued| - 1 ==> |r.issued[j]| == limit || r.issued[j] == []) &&
    (r.ok ==> r.rows == Override(store, v) && Flatten(r.issued) == Novel(v, store.Keys) &&
              r.bar.loaded == |Novel(v, store.Keys)| && r.bar.loaded + r.bar.updated == |v| &&
              r.bar.skipped == count - |v|) &&
    (!r.ok ==> r.issued != [] && !DistinctPks(Last(r.issued)))
  }

  /** After a refusal, reading further into the stream keeps the invariant. */
  lemma HaltedKeeps(store: Store, a: seq<Record>, b: seq<Record>, n: nat, s: UpdateState, limit: int)
    requires limit > 0 && a <= b && !s.ok
    requires Stored(store, a, s) && Sighted(store, a, s) && Tallied(a, n, s, limit)
    ensures Stored(store, b, s) && Sighted(store, b, s) && Tallied(b, n + 1, s, limit)
  {
    if NoNewDuplicates(b, store.Keys) {
      NoNewDuplicatesPrefix(a, b, store.Keys);
    }
  }

  /** A skipped item is only counted. */
  lemma SkipKeeps(store: Store, a: seq<Record>, n: nat, s: UpdateState, limit: int)
    requires limit > 0 && s.ok && |s.objects| < limit
    requires Stored(store, a, s) && Sighted(store, a, s) && Tallied(a, n, s, limit)
    ensures var t := s.(skipCounter := s.skipCounter + 1);
            Stored(store, a, t) && Sighted(store, a, t) && Tallied(a, n + 1, t, limit)
  {
  }

  /** A valid record keeps the invariant through the three stages of a
      pass: classifying it, the flush test and the update test. */
  lemma PassKeeps(store: Store, a: seq<Record>, n: nat, s: UpdateState, r: Record, limit: int, updLimit: int)
    requires limit > 0 && updLimit > 0 && s.ok && |s.objects| < limit
    requires Stored(store, a, s) && Sighted(store, a, s) && Tallied(a, n, s, limit)
    ensures var u := UpdateCheck(FlushCheck(Classify(s, r), limit), updLimit);
            Stored(store, a + [r], u) && Sighted(store, a + [r], u) && Tallied(a + [r], n + 1, u, limit) &&
            (u.ok ==> |u.objects| < limit)
  {
    var t := Classify(s, r);
    ClassifyStored(store, a, s, r);
    if r.pk in s.rows {
      UpdateSighted(store, a, s, r);
    } else {
      NewSighted(store, a, s, r);
    }
    ClassifyTallied(a, n, s, r, limit);
    var f := FlushCheck(t, limit);
    FlushStored(store, a + [r], t, limit);
    FlushSighted(store, a + [r], t, limit);
    FlushTallied(a + [r], n + 1, t, limit);
    CheckKeeps(store, a + [r], n + 1, f, limit, updLimit);
  }

  lemma ClassifyStored(store: Store, a: seq<Record>, s: UpdateState, r: Record)
    requires s.ok && Stored(store, a, s)
    ensures Stored(store, a + [r], Classify(s, r))
  {
    OverrideSnoc(store, a, r);
    if r.pk in s.rows {
      assert r.pk !in PkSet(s.objects);
      OverrideCommute(s.rows, r.pk, r.fields, s.objects);
    } else {
      OverrideSnoc(s.rows, s.objects, r);
    }
  }

  /** An update in place: its key is stored, so it is no first sighting. */
  lemma UpdateSighted(store: Store, a: seq<Record>, s: UpdateState, r: Record)
    requires s.ok && Stored(store, a, s) && Sighted(store, a, s) && r.pk in s.rows
    ensures Sighted(store, a + [r], Classify(s, r))
  {
    PkSetAppend(a, [r]);
    NovelSnoc(a, r, store.Keys);
    if NoNewDuplicates(a + [r], store.Keys) {
      NoNewDuplicatesPrefix(a, a + [r], store.Keys);
    }
    if DistinctPks(s.objects) {
      PkSetAppend(Flatten(s.issued), s.objects);
    }
  }

  /** A buffered record: its key is neither stored nor, unless the buffer
      repeats it, accepted before, so it is a first sighting. */
  lemma NewSighted(store: Store, a: seq<Record>, s: UpdateState, r: Record)
    requires s.ok && Stored(store, a, s) && Sighted(store, a, s) && r.pk !in s.rows
    ensures Sighted(store, a + [r], Classify(s, r))
  {
    var o := s.objects;
    PkSetAppend(a, [r]);
    PkSetAppend(o, [r]);
    NovelSnoc(a, r, store.Keys);
    DistinctSnoc(o, r);
    if DistinctPks(o + [r]) {
      AppendAssoc(Flatten(s.issued), o, [r]);
    }
    if NoNewDuplicates(a + [r], store.Keys) {
      NoNewDuplicatesPrefix(a, a + [r], store.Keys);
      NewKeyUnseen(a, r, store.Keys);
    }
  }

  lemma ClassifyTallied(a: seq<Record>, n: nat, s: UpdateState, r: Record, limit: int)
    requires limit > 0 && s.ok && Tallied(a, n, s, limit) && |s.objects| < limit
    ensures Tallied(a + [r], n + 1, Classify(s, r), limit)
  {
  }

  /** The flush keeps the table side: an accepted batch moves the buffer
      into the table, a refused one repeats a key, as no buffered key is
      stored. */
  lemma FlushStored(store: Store, a: seq<Record>, t: UpdateState, limit: int)
    requires limit > 0 && t.ok && Stored(store, a, t)
    ensures Stored(store, a, FlushCheck(t, limit))
  {
    if t.newCounter != 0 && t.newCounter % limit == 0 {
      var u := Insert(t);
      if u.ok {
        OverrideFrame(t.rows, t.objects);
        FlattenSnoc(t.issued, t.objects);
        PkSetAppend(Flatten(t.issued), t.objects);
        assert FlushCheck(t, limit) == Report(u.(objects := []));
      } else {
        assert FlushCheck(t, limit) == u;
      }
    }
  }

  lemma FlushSighted(store: Store, a: seq<Record>, t: UpdateState, limit: int)
    requires limit > 0 && t.ok && Stored(store, a, t) && Sighted(store, a, t)
    ensures Sighted(store, a, FlushCheck(t, limit))
  {
    if t.newCounter != 0 && t.newCounter % limit == 0 {
      var u := Insert(t);
      if u.ok {
        OverrideFrame(t.rows, t.objects);
        FlattenSnoc(t.issued, t.objects);
        assert FlushCheck(t, limit) == Report(u.(objects := []));
      } else {
        assert FlushCheck(t, limit) == u;
      }
    }
  }

  lemma FlushTallied(a: seq<Record>, n: nat, t: UpdateState, limit: int)
    requires limit > 0 && t.ok && Tallied(a, n, t, limit)
    ensures var f := FlushCheck(t, limit);
            Tallied(a, n, f, limit) && (f.ok ==> |f.objects| < limit)
  {
    FlushTest(Flatten(t.issued), |t.objects|, limit);
    if t.newCounter != 0 && t.newCounter % limit == 0 {
      var u := Insert(t);
      WholeAppend(Flatten(t.issued), t.objects, limit);
      FlattenSnoc(t.issued, t.objects);
      if u.ok {
        var f := Report(u.(objects := []));
        assert FlushCheck(t, limit) == f;
        ApplyReports(t.bar, Counters(t), t.newCounter, t.updCounter, t.skipCounter);
        SteadyExtend(t.lines, t.bar, f.bar);
      } else {
        assert FlushCheck(t, limit) == u;
      }
    }
  }

  /** The update test only reports the counters. */
  lemma CheckKeeps(store: Store, a: seq<Record>, n: nat, f: UpdateState, limit: int, updLimit: int)
    requires limit > 0 && updLimit > 0 && (f.ok ==> |f.objects| < limit)
    requires Stored(store, a, f) && Sighted(store, a, f) && Tallied(a, n, f, limit)
    ensures var u := UpdateCheck(f, updLimit);
            Stored(store, a, u) && Sighted(store, a, u) && Tallied(a, n, u, limit) && (u.ok ==> |u.objects| < limit)
  {
    if f.ok && f.updCounter != 0 && f.updCounter % updLimit == 0 {
      ApplyReports(f.bar, Counters(f), f.newCounter, f.updCounter, f.skipCounter);
      SteadyExtend(f.lines, f.bar, Report(f).bar);
    }
  }

  /** The end of a run: the remainder's bulk insert and the final report. */
  lemma FinishOutcome(store: Store, v: seq<Record>, count: nat, s: UpdateState, limit: int)
    requires limit > 0 && (s.ok ==> |s.objects| < limit)
    requires Stored(store, v, s) && Sighted(store, v, s) && Tallied(v, count, s, limit)
    ensures Outcome(store, v, count, Finish(s), limit)
  {
    if !s.ok {
      assert Finish(s) == s;
    } else if s.objects == [] {
      var r := Report(s);
      assert Finish(s) == r;
      assert Flatten(s.issued) + [] == Flatten(s.issued);
      ApplyReports(s.bar, Counters(s), s.newCounter, s.updCounter, s.skipCounter);
      SteadyExtend(s.lines, s.bar, r.bar);
    } else {
      var u := Insert(s);
      if u.ok {
        FinishRemainder(store, v, count, s, limit);
      } else {
        assert Finish(s) == u;
      }
    }
  }

  lemma FinishRemainder(store: Store, v: seq<Record>, count: nat, s: UpdateState, limit: int)
    requires limit > 0 && s.ok && 0 < |s.objects| < limit && Insertable(s.rows, s.objects)
    requires Stored(store, v, s) && Sighted(store, v, s) && Tallied(v, count, s, limit)
    ensures Outcome(store, v, count, Finish(s), limit)
  {
    var u := Insert(s);
    var r := Report(u);
    assert Finish(s) == r;
    FlattenSnoc(s.issued, s.objects);
    ApplyReports(s.bar, Counters(s), s.newCounter, s.updCounter, s.skipCounter);
    SteadyExtend(s.lines, s.bar, r.bar);
  }

  /** A record whose unseen key no earlier record repeats carries a key
      none of them carries. */
  lemma NewKeyUnseen(a: seq<Record>, r: Record, keys: set<Key>)
    requires NoNewDuplicates(a + [r], keys) && r.pk !in keys
    ensures r.pk !in PkSet(a)
  {
    forall x | x in a ensures x.pk != r.pk {
      var i :| 0 <= i < |a| && a[i] == x;
      assert (a + [r])[i] == x && (a + [r])[|a|] == r;
    }
  }

  lemma DistinctSnoc(o: seq<Record>, r: Record)
    ensures DistinctPks(o + [r]) <==> DistinctPks(o) && r.pk !in PkSet(o)
  {
    if DistinctPks(o + [r]) {
      forall i, j | 0 <= i < j < |o| ensures o[i].pk != o[j].pk {
        assert (o + [r])[i] == o[i] && (o + [r])[j] == o[j];
      }
      forall x | x in o ensures x.pk != r.pk {
        var i :| 0 <= i < |o| && o[i] == x;
        assert (o + [r])[i] == x && (o + [r])[|o|] == r;
      }
    }
  }

  /** The first sightings grow by the last record exactly when its key is
      unseen. */
  lemma NovelSnoc(a: seq<Record>, r: Record, keys: set<Key>)
    ensures Novel(a + [r], keys) == Novel(a, keys) + (if r.pk in keys || r.pk in PkSet(a) then [] else [r])
  {
    assert Init(a + [r]) == a;
    assert Last(a + [r]) == r;
  }
}
