/** The entities of internal/domain as values. UUIDs are opaque identifiers
    and `time.Time` values are integers. */
module Domain {

  /** A `uuid.UUID`; only equality is ever used. */
  type Uuid = int

  /** The administrator role name of internal/domain/user.go. */
  const ADMIN: string := "ADMIN"

  /** A stored user. The bcrypt password hash is kept as opaque bytes. */
  datatype User = User(id: Uuid, role: string, login: string, password: seq<bv8>, createdAt: int)

  /** A movie; `date` is its creation time, `rating` a Go `int`. */
  datatype Movie = Movie(id: Uuid, title: string, description: string, date: int, rating: int)

  datatype Actor = Actor(id: Uuid, name: string, surname: string, sex: string, birthdate: int)
}
