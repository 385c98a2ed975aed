/** The shared state the controllers reach through Laravel's facades: the
    `enrollments` table (with its auto-increment counter) and the keys of
    the cache locks currently held. Locks are a set of keys; their
    ten-second expiry and owner tokens are not modelled. */
module Storage {
  import opened Wrappers
  import opened EnrollmentModel

  class Database {
    var rows: seq<Enrollment>
    var nextId: nat
    var locks: set<string>

    /** Auto-increment keeps primary keys distinct and below the counter. */
    ghost predicate Valid()
      reads this
    {
      UniqueIds(rows) && forall i :: 0 <= i < |rows| ==> rows[i].id < nextId
    }

    constructor ()
      ensures Valid() && rows == [] && locks == {} && nextId == 1
    {
      rows := [];
      nextId := 1;
      locks := {};
    }

    /** `Cache::lock(key)->get()`: takes the key when no one holds it and
        reports whether it did; never waits. */
    method TryLock(key: string) returns (acquired: bool)
      modifies this`locks
      ensures acquired <==> key !in old(locks)
      ensures locks == old(locks) + {key}
    {
      acquired := key !in locks;
      if acquired {
        locks := locks + {key};
      }
    }

    /** `$lock->release()`. */
    method Release(key: string)
      modifies this`locks
      ensures locks == old(locks) - {key}
    {
      locks := locks - {key};
    }

    /** `Enrollment::create(attrs)`: inserts the row under the next primary
        key, or fails and inserts nothing. */
    method Insert(attrs: map<string, Value>) returns (r: Option<Enrollment>)
      requires Valid()
      modifies this`rows, this`nextId
      ensures Valid()
      ensures r == NewRow(old(nextId), attrs)
      ensures r.Some? ==> rows == old(rows) + [r.value] && nextId == old(nextId) + 1
      ensures r.None? ==> rows == old(rows) && nextId == old(nextId)
    {
      r := NewRow(nextId, attrs);
      if r.Some? {
        rows := rows + [r.value];
        nextId := nextId + 1;
      }
    }

    /** `$enrollment->update(attrs)` on a row read from the table: saves the
        filled attributes under that row's primary key. */
    method Update(id: nat, attrs: map<string, Value>)
      requires Valid()
      modifies this`rows
      ensures Valid()
      ensures rows == SaveById(old(rows), id, attrs)
    {
      rows := SaveById(rows, id, attrs);
    }
  }
}
