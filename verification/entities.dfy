/** The rows of the three tables of the embedded store. */
module Entities {
  import opened Common

  /** A row of `product`: the local overlay of one catalogue product.
      `id` is the primary key and equals the catalogue id. */
  datatype ProductEntity = ProductEntity(id: int, favorite: bool, rate: Option<real>)

  /** A row of `user`; `id` is an auto-generated primary key. */
  datatype UserEntity = UserEntity(id: int, name: string, picture: string)

  /** A row of `review`; `id` is an auto-generated primary key. */
  datatype ReviewEntity = ReviewEntity(id: int, userId: int, productId: int, rate: int32, comment: string)
}
