/** The `weather_queries` table of backend/database.py and its four
    operations. The table is declared `INTEGER PRIMARY KEY AUTOINCREMENT`,
    so SQLite keeps a counter of the largest key ever issued and never hands
    out a key twice. Clock readings (`CURRENT_TIMESTAMP`) are parameters. */
module QueryStore {
  import opened Common
  import opened Tables

  /** A `weather_queries` row without its key. */
  datatype Query = Query(location: string, locationType: string,
                         rangeStart: string, rangeEnd: string,
                         temperature: Option<real>, conditions: Option<string>,
                         createdAt: int, updatedAt: int)

  /** The rows and the AUTOINCREMENT counter of `sqlite_sequence`. */
  datatype Db = Db(rows: seq<Row<Query>>, counter: nat)

  predicate Valid(db: Db) {
    IdsAscending(db.rows) && MaxId(db.rows) <= db.counter
  }

  const EmptyDb := Db([], 0)

  /** `insert_query`. A `None` for one of the NOT NULL columns makes the
      INSERT fail, which the function reports as `None`; otherwise the new
      key, one past the largest key ever issued. */
  function InsertQuery(db: Db, location: Option<string>, locationType: Option<string>,
                       rangeStart: Option<string>, rangeEnd: Option<string>,
                       temperature: Option<real>, conditions: Option<string>, now: int): (res: (Db, Option<nat>))
    requires Valid(db)
    ensures Valid(res.0)
    ensures res.1.None? <==> location.None? || locationType.None? || rangeStart.None? || rangeEnd.None?
    ensures res.1.None? ==> res.0 == db
    ensures res.1.Some? ==>
              && res.1.value > db.counter
              && res.0.counter == res.1.value
              && ToMap(res.0.rows) == ToMap(db.rows)[res.1.value :=
                   Query(location.value, locationType.value, rangeStart.value, rangeEnd.value,
                         temperature, conditions, now, now)]
  {
    if location.None? || locationType.None? || rangeStart.None? || rangeEnd.None? then (db, None)
    else
      var id := db.counter + 1;
      var q := Query(location.value, locationType.value, rangeStart.value, rangeEnd.value,
                     temperature, conditions, now, now);
      var rows := Append(db.rows, id, q);
      MaxIdLeast(rows, id);
      (Db(rows, id), Some(id))
  }

  /** `COALESCE(?, column)`: the argument when it is not NULL. */
  function Coalesce<T>(arg: Option<T>, current: Option<T>): (r: Option<T>)
    ensures arg.Some? ==> r == arg
    ensures arg.None? ==> r == current
  {
    if arg.Some? then arg else current
  }

  /** `update_query`: true iff a row has that key. Temperature and
      conditions change only where the argument is not `None`; `updated_at`
      becomes the current time; nothing else changes. */
  function UpdateQuery(db: Db, id: nat, temperature: Option<real>, conditions: Option<string>, now: int): (res: (Db, bool))
    requires Valid(db)
    ensures Valid(res.0)
    ensures res.1 <==> id in ToMap(db.rows)
    ensures !res.1 ==> res.0 == db
    ensures res.1 ==> var prev := ToMap(db.rows)[id];
                      ToMap(res.0.rows) == ToMap(db.rows)[id := prev.(temperature := Coalesce(temperature, prev.temperature),
                                                                     conditions := Coalesce(conditions, prev.conditions),
                                                                     updatedAt := now)]
    ensures res.0.counter == db.counter
  {
    match Find(db.rows, id)
    case None => (db, false)
    case Some(q) =>
      var q' := q.(temperature := Coalesce(temperature, q.temperature),
                   conditions := Coalesce(conditions, q.conditions),
                   updatedAt := now);
      var rows := Replace(db.rows, id, q');
      MaxIdLeast(rows, db.counter);
      (db.(rows := rows), true)
  }

  /** Passing `None` for both values leaves the row's data as it was;
      only `updated_at` moves. */
  lemma UpdateWithNothingKeepsData(db: Db, id: nat, now: int)
    requires Valid(db) && id in ToMap(db.rows)
    ensures var q := ToMap(UpdateQuery(db, id, None, None, now).0.rows)[id];
            q == ToMap(db.rows)[id].(updatedAt := now)
  {
  }

  /** `delete_query`: true iff a row had that key; afterwards none has. */
  function DeleteQuery(db: Db, id: nat): (res: (Db, bool))
    requires Valid(db)
    ensures Valid(res.0)
    ensures res.1 <==> id in ToMap(db.rows)
    ensures ToMap(res.0.rows) == ToMap(db.rows) - {id}
    ensures res.0.counter == db.counter
  {
    match Find(db.rows, id)
    case None => (db, false)
    case Some(_) =>
      var rows := Remove(db.rows, id);
      RemoveKeepsMax(db.rows, id);
      (db.(rows := rows), true)
  }

  lemma RemoveKeepsMax<T>(rows: seq<Row<T>>, id: nat)
    requires IdsAscending(rows)
    ensures MaxId(Remove(rows, id)) <= MaxId(rows)
  {
    MaxIdLeast(Remove(rows, id), MaxId(rows));
  }

  function CreatedAt(r: Row<Query>): int { r.value.createdAt }

  /** `get_all_queries`: every row, newest `created_at` first. */
  function GetAllQueries(db: Db): (r: seq<Row<Query>>)
    ensures SortedDesc(r, CreatedAt)
    ensures multiset(r) == multiset(db.rows)
  {
    SortDesc(db.rows, CreatedAt)
  }

  /** A key, once deleted, is never issued again: the next insert gets a
      key above every key ever used. */
  lemma DeletedKeyNotReissued(db: Db, id: nat, now: int)
    requires Valid(db) && id in ToMap(db.rows)
    ensures var db' := DeleteQuery(db, id).0;
            var res := InsertQuery(db', Some("l"), Some("t"), Some("s"), Some("e"), None, None, now);
            res.1.Some? && res.1.value != id
  {
  }
}
