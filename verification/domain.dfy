/** Domain records and their conversions to and from table rows. */
module Domain {
  import opened Common
  import opened Entities

  /** Per-product user state that the catalogue does not carry. */
  datatype ProductLocalInfo = ProductLocalInfo(id: int, favorite: bool := false, rate: Option<real> := None) {

    function ToDto(): ProductEntity
    {
      ProductEntity(id, favorite, rate)
    }

    /** An instance method in the source: the receiver only serves to reach it. */
    function FromDto(e: ProductEntity): ProductLocalInfo
    {
      ProductLocalInfo(e.id, e.favorite, e.rate)
    }
  }

  /** `ProductLocalInfo(id)`: the defaults are "not a favorite" and "not rated". */
  function DefaultLocalInfo(id: int): (r: ProductLocalInfo)
    ensures r.id == id && !r.favorite && r.rate == None
  {
    ProductLocalInfo(id)
  }

  lemma FromDtoIgnoresReceiver(a: ProductLocalInfo, b: ProductLocalInfo, e: ProductEntity)
    ensures a.FromDto(e) == b.FromDto(e)
  {
  }

  lemma ProductLocalInfoRoundTrip(x: ProductLocalInfo, e: ProductEntity)
    ensures x.FromDto(x.ToDto()) == x
    ensures x.FromDto(e).ToDto() == e
  {
  }

  /** A review of one product by one user; the source expects `rate` in 1..5 but
      never checks it. */
  datatype Review = Review(id: int, userId: int, productId: int, rate: int32, comment: string) {

    function ToDto(): ReviewEntity
    {
      ReviewEntity(id, userId, productId, rate, comment)
    }

    static function FromDto(e: ReviewEntity): Review
    {
      Review(e.id, e.userId, e.productId, e.rate, e.comment)
    }
  }

  lemma ReviewRoundTrip(r: Review, e: ReviewEntity)
    ensures Review.FromDto(r.ToDto()) == r
    ensures Review.FromDto(e).ToDto() == e
  {
  }

  /** `User(id = 0, ...)`: 0 asks the store to allocate the id. */
  const DefaultUserId: int := 0

  datatype User = User(id: int, name: string, picture: string) {

    function ToDto(): UserEntity
    {
      UserEntity(id, name, picture)
    }

    static function FromDto(e: UserEntity): User
    {
      User(e.id, e.name, e.picture)
    }
  }

  /** A user built with only a name and a picture carries the default id. */
  function NewUser(name: string, picture: string): (u: User)
    ensures u.id == DefaultUserId && u.name == name && u.picture == picture
  {
    User(DefaultUserId, name, picture)
  }

  lemma UserRoundTrip(u: User, e: UserEntity)
    ensures User.FromDto(u.ToDto()) == u
    ensures User.FromDto(e).ToDto() == e
  {
  }
}
