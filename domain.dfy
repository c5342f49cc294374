/** The domain model at the centre of the hexagon. */
module Domain {
  import opened Wrappers

  /** A user: its identifier, absent for a user not yet persisted, and the
      three profile fields an update may overwrite. */
  datatype User = User(id: Option<int>, firstName: string, lastName: string, email: string)

  /** Two users agree on the three mutable profile fields. */
  predicate SameProfile(a: User, b: User)
  {
    a.firstName == b.firstName && a.lastName == b.lastName && a.email == b.email
  }

}
