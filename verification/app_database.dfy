/** The embedded store: its three tables side by side. */
module AppDatabase {
  import opened ProductDao
  import opened UserDao
  import opened ReviewDao

  datatype Tables = Tables(products: ProductTable, users: UserTable, reviews: ReviewTable)
}
