# django-fias table loaders, modelled in Dafny

This project models the ingestion engine of django-fias (`fias/importer/loader.py`).
The engine streams the rows of one FIAS table file into the database. There are three variants:

- `TableLoader.load` is insert-only. It validates each row, buffers the valid ones and bulk inserts them whenever the valid count reaches a positive multiple of `limit`, then once more for a non-empty remainder.
- `TableUpdater.load` looks each valid row up by primary key. A stored row is overwritten at once (`save(force_update=True)`). A row with an unseen key is buffered for a bulk insert.
- `NewTableUpdater.load` buffers every valid row. At each flush, `split_objects` partitions the buffer with one key-membership query. Rows with unseen keys are bulk inserted; rows with stored keys are force-updated.

All three keep a `LoadingBar` with three counters (loaded, updated, skipped). A non-zero argument to `update` overwrites its counter.

## Modules

- `records.dfy` (`Records`): items, rows and records.
  - The table is a `map` from key to fields.
  - It also holds the reference functions the contracts are stated with:
    - `Override`: write each record over the table, in order.
    - `Fresh` / `Existing`: the two halves of `split_objects`.
    - `Novel`: the first sighting of every unseen key.
- `batches.dfy` (`Batches`): `Chunks` (cut a sequence into batches of `limit`), `Flatten`, and the arithmetic of the flush test.
- `orm.dfy` (`Orm`): the slice of the Django ORM the loaders use.
  - A `Model` class whose `rows` field is the table.
  - `bulk_create` is all-or-nothing and fails with an integrity error on a repeated or already stored key.
  - `get`, `filter(pk__in=…)`, and `save(force_update=True)`, which demands a stored key.
  - A ghost log of every bulk insert.
- `progress.dfy` (`Progress`): the counters of `LoadingBar`, and a ghost log of the status lines it writes.
- `loader.dfy` (`Loader`): `TableLoader`.
- `updater.dfy` (`Updater`): `TableUpdater`.
- `new_updater.dfy` (`NewUpdater`): `NewTableUpdater`.
- `agreement.dfy` (`Agreement`): how the three variants relate.

Each `load` is an imperative method over the `Model` and a fresh `LoadingBar`. It is proved equal to a value-level run:
- `Step` is one pass of the loop body.
- `RunTo` folds `Step` over the stream.
- `Finish` is the code after the loop.

What the source promises is then proved about that run as lemmas (`LoadOutcome`, `UpdateOutcome`). An integrity error from `bulk_create` propagates out of `load` in the source. Here it is the result `ok == false`, and the run stops.

`TableUpdater` tests for a flush after every valid row, updates included, using the new-record count at that moment. So after a flush has emptied the buffer at a multiple of `limit`, each update that comes before the next new row re-runs the test with the same new-record count. It then issues `create([])` and reports again. An update after the next new row does not, because the count has moved off the multiple. Reading the flush rule as "once per multiple of `limit`" would not predict this. The model follows the code; see `Updater.EmptyReinsert`.

## Model

| member | source | states |
|---|---|---|
| Progress.LoadingBar.constructor | fias/importer/loader.py:21-23 | the three counters start at 0 and no status line has been written |
| Progress.LoadingBar.Update | fias/importer/loader.py:36-45 | each non-zero argument replaces its counter, a zero one leaves it, one status line with the new counters is written, and the bar stays monotone when the counters have not gone down |
| Progress.ApplyIdempotent | fias/importer/loader.py:36-42 | updates overwrite rather than accumulate: repeating an update changes nothing, and an all-zero update changes nothing |
| Progress.ApplyReports | fias/importer/loader.py:36-42 | reporting counters that have only grown never moves the bar backwards or past the counters, and reporting all three shows exactly the counters |
| Progress.SteadyExtend | fias/importer/loader.py:44-45 | writing a status line for counters that have not gone down keeps every line at or below every later one |
| Loader.TableLoader.constructor | fias/importer/loader.py:50-52 | the loader keeps its batch size, reference date and rules |
| Loader.TableLoader.Validate | fias/importer/loader.py:54-58 | a missing item or key is rejected without consulting a rule; without a rule for the table every keyed item is valid; otherwise the table's rule decides, given the reference date |
| Loader.TableLoader.AcceptedAll | fias/importer/loader.py:54-58 | with no rule for the table and a key on every item, every item is accepted, as its record, in stream order |
| Loader.TableLoader.AcceptedGrows | fias/importer/loader.py:73-79 | reading further into the stream only appends accepted records |
| Agreement.SameRules | fias/importer/loader.py:54-58 | two loaders with the same date and rules accept the same records from the same stream |
| Orm.Model.BulkCreate | fias/importer/loader.py:61-62 | the bulk insert succeeds exactly when no key repeats and none is stored; it then adds every record, else leaves the table unchanged; it is logged either way |
| Loader.TableLoader.Create | fias/importer/loader.py:61-65 | `create` is one bulk insert of exactly the objects given |
| Loader.TableLoader.Load | fias/importer/loader.py:67-91 | the table, the log of bulk inserts, the bar and its status lines end exactly as the reference run `Loaded` says |
| Loader.TableLoader.LoadOutcome | fias/importer/loader.py:67-90 | the load succeeds iff the accepted records could be bulk inserted at once. On success: the table is the store with every accepted record added; the bulk inserts are those records cut into batches of `limit`, in order; the bar shows every accepted item as loaded and the rest as skipped. On failure: the refused batch is the next batch, after batches all in the table. The bar never goes backwards |
| Loader.TableLoader.Halted | fias/importer/loader.py:81-82 | after a refused bulk insert the run changes nothing more |
| Batches.ChunksFlatten | fias/importer/loader.py:78-88 | the batches, concatenated, are the accepted records in stream order |
| Batches.ChunkSizes | fias/importer/loader.py:81-88 | every batch holds 1 to `limit` records, and every batch but the last holds exactly `limit` |
| Batches.ChunkCount | fias/importer/loader.py:81-88 | there are ceil(n / `limit`) batches for n records |
| Batches.BatchBoundary | fias/importer/loader.py:81 | after whole batches, the running count is a multiple of `limit` exactly when the buffer is empty or full |
| Batches.FlushTest | fias/importer/loader.py:81 | the same flush test, stated for a prefix of whole batches followed by a buffer |
| Batches.ChunksSplit | fias/importer/loader.py:81-88 | flushing a full buffer after whole batches adds exactly one batch to the chunking of the stream |
| Orm.Model.Get | fias/importer/loader.py:127-131 | the lookup finds the stored fields when the key is stored, and reports a missing row otherwise |
| Orm.Model.ForceSave | fias/importer/loader.py:134 | a forced update of a stored key writes its fields and changes nothing else |
| Updater.TableUpdater.constructor | fias/importer/loader.py:110-112 | the update-report interval is `limit / 10` |
| Updater.TableUpdater.Load | fias/importer/loader.py:114-149 | the table, the bulk inserts issued, the bar and its status lines end exactly as the reference run `Updated` says |
| Updater.TableUpdater.UpdateOutcome | fias/importer/loader.py:114-149 | if no unseen key repeats among the accepted records, the run succeeds. On success: the table is the store with each record written over it in order; the bulk inserts, concatenated, are the first sightings of unseen keys; every accepted record counts once, as loaded (new) or updated; the rest count as skipped. A refused insert repeats a key. Every bulk insert holds at most `limit` records, and all but the last hold `limit` or none. The bar never goes backwards |
| Updater.TableUpdater.Halted | fias/importer/loader.py:137-138 | after a refused bulk insert the run changes nothing more |
| Updater.EmptyReinsert | fias/importer/loader.py:137-143 | an update in place right after a flush at a multiple of `limit` issues an empty bulk insert and reports again |
| Records.Fresh | fias/importer/loader.py:170-176 | the records routed to `new_objects` carry exactly the input keys that are not stored, and come from the input |
| Records.Existing | fias/importer/loader.py:170-176 | the records routed to `exists_objects` carry exactly the input keys that are stored, and come from the input |
| Records.PartitionComplete | fias/importer/loader.py:165-178 | the two halves hold every input record exactly once, so their lengths sum to the input's |
| Orm.Model.FilterPkIn | fias/importer/loader.py:168 | the query returns exactly the given keys that are stored |
| NewUpdater.NewTableUpdater.constructor | fias/importer/loader.py:50-52 | the batch updater keeps the batch size, reference date and rules it inherits from the insert-only loader |
| NewUpdater.NewTableUpdater.SplitObjects | fias/importer/loader.py:165-178 | `new_objects` and `exists_objects` are the input records with unseen and with stored keys, each in input order |
| NewUpdater.NewTableUpdater.Update | fias/importer/loader.py:180-183 | each object, all with stored keys, is written over its row in order; nothing is bulk inserted |
| Records.OverridePartition | fias/importer/loader.py:201-206 | inserting the unseen records and then overwriting with the stored ones leaves the table as writing the batch in stream order does |
| NewUpdater.NewTableUpdater.Write | fias/importer/loader.py:201-206 | the flush partitions the batch against the table, bulk inserts the unseen half and, if that is accepted, force-updates the stored half |
| NewUpdater.NewTableUpdater.FlushBatch | fias/importer/loader.py:200-209 | a flush inside the loop moves the table, counters, buffer and bar exactly as the reference `Flushed` says |
| NewUpdater.NewTableUpdater.Conclude | fias/importer/loader.py:211-220 | the code after the loop moves the table, counters and bar exactly as the reference `Finish` says |
| NewUpdater.NewTableUpdater.Load | fias/importer/loader.py:185-221 | the table, the bulk inserts issued, the bar and its status lines end exactly as the reference run `Updated` says |
| NewUpdater.NewTableUpdater.UpdateOutcome | fias/importer/loader.py:185-221 | if no unseen key repeats, the run succeeds. On success: the table is the store with each accepted record written over it in order; the bulk inserts are the first sightings of unseen keys, one per batch of `limit` accepted records; new plus updated counts every accepted record once, and the rest count as skipped. A refused insert repeats a key, and the table is then the store with the accepted records of the whole batches flushed before it written over it. No bulk insert exceeds `limit`, and the bar never goes backwards |
| NewUpdater.NewTableUpdater.InsertContents | fias/importer/loader.py:196-217 | on success, the j-th bulk insert holds exactly the records of the j-th batch of `limit` accepted records whose key neither the table nor an earlier batch held, in batch order |
| NewUpdater.NewTableUpdater.Halted | fias/importer/loader.py:200-206 | after a refused bulk insert the run changes nothing more |
| Records.OverrideFrame | fias/importer/loader.py:205-206 | writing records adds exactly their keys and leaves every other row as it was |
| Records.OverrideTwice | fias/importer/loader.py:134 | writing the same records over the table a second time changes nothing |
| Records.OverrideStoresAll | fias/importer/loader.py:205-206 | with distinct keys, every record ends stored under its key with its own fields |
| Agreement.DistinctUpsert | fias/importer/loader.py:185-221 | with distinct accepted keys, the batch updater is an upsert: every accepted record is stored with its fields, no other key appears, and every other stored row is unchanged |
| Agreement.RefreshOnly | fias/importer/loader.py:114-221 | when every accepted key is already stored, both updaters succeed, write every record over its row, bulk insert nothing, and report zero loaded and every accepted record as updated |
| Agreement.UpdatersAgree | fias/importer/loader.py:114-221 | when no unseen key repeats, the row-by-row and batch updaters leave the same table and the same bar, and bulk insert the same records overall |
| Agreement.Rerun | fias/importer/loader.py:114-221 | after a successful update run, running either updater again over the same rows leaves the table as it is, bulk inserts nothing, and reports zero loaded and every accepted record as updated |
| Agreement.LoaderAgrees | fias/importer/loader.py:67-91 | when the accepted records could be bulk inserted at once, the insert-only loader and both updaters end with the same table and bar |
| Records.NovelAppend | fias/importer/loader.py:127-131 | the first sightings of unseen keys in a longer stream extend those of its prefix |
| Records.FreshIsNovel | fias/importer/loader.py:201-205 | when the unseen records of a batch have distinct keys, they are exactly the first sightings of unseen keys |
| Records.NovelOfStored | fias/importer/loader.py:127-135 | a stream whose keys are all stored has no first sighting of an unseen key |

## Left out

- Rendering of the progress bar is not modelled: the `%` formatting through `__getitem__`, `writeln` to standard error, and `finish()`. A status line is modelled as the three counters it shows.
- `settings.DEBUG` / `db.reset_queries()` in `create` is left out. It is debug housekeeping with no effect on the table.
- The savepoint of `@transaction.atomic(savepoint=True)` on `update` is left out. A forced update of a stored key always succeeds in the model, so there is nothing to roll back.
- Errors other than the bulk-insert integrity error are not modelled: database failures and a forced update of a missing key. Given exclusive access to the table during a load, the latter cannot happen in any of the three algorithms, and the model proves this at each call. Writes by other processes during a load are not modelled.
- `item._meta.pk.to_python(...)` is taken as the identity on keys.
- `datetime.date.today()` becomes the constructor parameter `today`.
- The per-table validators and the `table.rows` parser are not part of this model. The validators are a map from table name to a predicate over a record and the date; the parser's output is the input sequence `items`.
- Django model instances are records with a key and opaque fields. An item the parser yields as `None`, and an item without a key, are kept as inputs so `validate` can reject them.
- The CLI (`fias/management/commands/fias_test_updater.py`) is not part of this model.
- Loader.TableLoader.Load: requires `limit > 0`. With `limit == 0` the source raises `ZeroDivisionError` at the first valid row (`new_counter % self.limit`), and that error path is not modelled. A negative limit is excluded as well. The source would accept one: Python's `%` with a negative divisor is 0 at every multiple of `|limit|`, so it would flush every `|limit|` rows.
- Updater.TableUpdater.Load: requires `limit > 0` and `limit / 10 > 0`. With `limit == 0` the source raises `ZeroDivisionError` at the first valid row: at the flush test if the row is new, and at the update-report test if it is an update, since `upd_limit` is 0 as well. With `0 < limit < 10` it raises at the first update (`upd_counter % self.upd_limit`). Those error paths are not modelled. Negative limits are excluded as well. The source would accept one: it would flush every `|limit|` new rows, and Python 2's floor division makes `upd_limit` negative (-1 for `limit` from -1 to -10), so it would report every `|upd_limit|` updates.
- NewUpdater.NewTableUpdater.Load: requires `limit > 0`, as for the insert-only loader. With `limit == 0` the source raises `ZeroDivisionError` at the first valid row (`counter % self.limit`). A negative limit is excluded as well; the source would split and flush every `|limit|` rows.
- Updater.TableUpdater.UpdateOutcome: states success only as a consequence of "no unseen key repeats", not as an iff. Whether a repeated unseen key is refused depends on whether a flush fell between its two sightings. After a refused insert it states only the refused batch, not the table's rows. Bulk-insert sizes are stated as bounds: at most `limit`, and all but the last hold `limit` or none.
- NewUpdater.NewTableUpdater.UpdateOutcome: states success only as a consequence of "no unseen key repeats", not as an iff, for the same reason. Bulk-insert sizes are stated as the bound `limit`, because a flush inserts only the unseen part of its batch. `NewUpdater.NewTableUpdater.InsertContents` states each insert's exact contents.
