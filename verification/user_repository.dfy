/** Reading a user through the repository: the row mapped to the domain record. */
module UserRepository {
  import opened Common
  import opened Domain
  import opened AutoIncrement
  import opened UserDao

  /** `getUserById`: `null` when the table has no row under `userId`, otherwise
      the row converted with `User.fromDto`. The table is only read. */
  function GetUserById(t: UserTable, userId: int): (r: Option<User>)
    ensures r.None? <==> userId !in t.rows
    ensures r.Some? ==> r.value.id == userId && r.value.ToDto() == t.rows[userId]
  {
    match UserDao.GetUserById(t, userId)
    case None => None
    case Some(e) => Some(User.FromDto(e))
  }

  /** A user stored with an explicit id is read back unchanged. */
  lemma StoredUserReadsBack(t: UserTable, u: User)
    requires u.id != 0
    ensures GetUserById(UserDao.Insert(t, u.ToDto()), u.id) == Some(u)
  {
  }

  /** A user stored with the default id is found under the key the table
      allocated for it, with the given name and picture. */
  lemma NewUserReadsBack(t: UserTable, name: string, picture: string)
    ensures var k := AssignedKey(t.rows.Keys, t.lastId, DefaultUserId);
            && k !in t.rows
            && GetUserById(UserDao.Insert(t, NewUser(name, picture).ToDto()), k) == Some(User(k, name, picture))
  {
  }
}
