/** The `user` table and its two statements. */
module UserDao {
  import opened Common
  import opened Entities
  import opened AutoIncrement

  /** The rows by primary key, and the largest key ever handed out. */
  datatype UserRows = UserRows(rows: map<int, UserEntity>, lastId: nat)

  /** Each row sits under its own id; no row has id 0 (it means "allocate"),
      and no key exceeds the allocation counter. */
  type UserTable = t: UserRows | forall k :: k in t.rows ==> t.rows[k].id == k && k != 0 && k <= t.lastId
    witness UserRows(map[], 0)

  /** `@Insert(onConflict = REPLACE)` on an auto-generated key: a user with id 0
      gets a fresh key, any other id replaces the row under it. */
  function Insert(t: UserTable, user: UserEntity): (t': UserTable)
    ensures var k := AssignedKey(t.rows.Keys, t.lastId, user.id);
      && t'.rows.Keys == t.rows.Keys + {k}
      && t'.rows[k].name == user.name && t'.rows[k].picture == user.picture
    ensures user.id != 0 ==> t'.rows[user.id] == user
    ensures user.id == 0 ==> |t'.rows| == |t.rows| + 1
    ensures forall k :: k in t.rows && k != user.id ==> t'.rows[k] == t.rows[k]
  {
    var k := AssignedKey(t.rows.Keys, t.lastId, user.id);
    UserRows(t.rows[k := user.(id := k)], Advance(t.lastId, k))
  }

  /** `SELECT * FROM user WHERE id = :userId`. */
  function GetUserById(t: UserTable, userId: int): (r: Option<UserEntity>)
    ensures r.None? <==> userId !in t.rows
    ensures r.Some? ==> r.value.id == userId && r.value == t.rows[userId]
  {
    if userId in t.rows then Some(t.rows[userId]) else None
  }
}
