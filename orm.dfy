/** The slice of the database layer the loaders use: one table of rows keyed
    by primary key, with bulk insert, lookup by key, a key-membership query and
    forced update of an existing row. */
module Orm {
  import opened Records

  /** A model class together with its manager: the rows of its table. */
  class Model {
    var rows: Store
    /** The argument of every bulk insert issued so far, in order. */
    ghost var inserts: seq<seq<Record>>

    constructor(rows: Store)
      ensures this.rows == rows && inserts == []
    {
      this.rows := rows;
      inserts := [];
    }

    /** Inserts all `objects` in one statement. The statement fails as a
        whole, leaving the table as it was, when two objects share a key or
        an object's key is already stored (an integrity error). */
    method BulkCreate(objects: seq<Record>) returns (ok: bool)
      modifies this
      ensures ok == Insertable(old(rows), objects)
      ensures rows == if ok then Override(old(rows), objects) else old(rows)
      ensures inserts == old(inserts) + [objects]
    {
      ok := Insertable(rows, objects);
      if ok {
        rows := Override(rows, objects);
      }
      inserts := inserts + [objects];
    }

    /** The stored row with key `pk`, or `None` when there is none. */
    method Get(pk: Key) returns (found: Option<Fields>)
      ensures pk in rows ==> found == Some(rows[pk])
      ensures pk !in rows ==> found == None
    {
      if pk in rows {
        found := Some(rows[pk]);
      } else {
        found := None;
      }
    }

    /** The keys among `ids` that are stored. */
    method FilterPkIn(ids: seq<Key>) returns (found: set<Key>)
      ensures forall k :: k in found <==> k in ids && k in rows
    {
      found := set k | k in ids && k in rows;
    }

    /** Writes `obj` over the stored row with its key. A forced update of a
        key that is not stored is an error, so callers must rule it out. */
    method ForceSave(obj: Record)
      requires obj.pk in rows
      modifies this
      ensures rows == old(rows)[obj.pk := obj.fields]
      ensures inserts == old(inserts)
    {
      rows := rows[obj.pk := obj.fields];
    }
  }

  /** A table to load: its name, the file it is read from, and its model. */
  datatype Table = Table(name: string, filename: string, model: Model)
}
