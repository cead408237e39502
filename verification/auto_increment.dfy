/** Key allocation of a table whose integer primary key is auto-generated. */
module AutoIncrement {

  /** The key a row inserted with id `requested` is stored under. Room binds an
      id of 0 as NULL for an auto-generated key, and SQLite's AUTOINCREMENT then
      hands out one more than the largest key the table has ever held
      (`lastId`, its `sqlite_sequence` entry); any other id is kept as given. */
  function AssignedKey(keys: set<int>, lastId: nat, requested: int): (k: int)
    requires forall x :: x in keys ==> x <= lastId
    ensures k != 0
    ensures requested != 0 ==> k == requested
    ensures requested == 0 ==> k !in keys && lastId < k
  {
    if requested == 0 then lastId + 1 else requested
  }

  /** The table's `sqlite_sequence` entry after a row is stored under `key`. */
  function Advance(lastId: nat, key: int): (n: nat)
    ensures lastId <= n && key <= n
    ensures n == lastId || n == key
  {
    if key > lastId then key else lastId
  }
}
