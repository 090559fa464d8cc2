/** The state the Express server holds across requests (the users table, the
    session of the calling client, the medicines table and the cart table),
    the replies it sends, and the invariant its handlers keep. */
module ServerState {
  import opened Wrappers
  import opened Catalog

  /** A row of the users table; `passwordHash` is the stored bcrypt hash. */
  datatype User = User(id: int, name: string, email: string, passwordHash: string)

  /** The identity snapshot a successful login stores in the session. */
  datatype SessionUser = SessionUser(id: int, name: string, email: string)

  /** A row of the cart table (row id and timestamp left out). */
  datatype Row = Row(userId: int, productId: int, quantity: int)

  /** The server as one client sees it: `session` is that client's session. */
  datatype State = State(users: seq<User>, session: Option<SessionUser>, medicines: Medicines, cart: seq<Row>)

  /** A JSON reply: a success carries a `message`, a failure an `error`. */
  datatype Reply = Success(status: int, message: string) | Failure(status: int, error: string)

  const NotLoggedIn := Failure(401, "Not logged in")
  const InvalidItem := Failure(400, "Valid product ID and quantity required")
  const ProductNotFound := Failure(400, "Product not found")
  const ItemNotFound := Failure(404, "Item not found in cart")
  const ItemAdded := Success(200, "Item added to cart")
  const QuantityMerged := Success(200, "Cart updated with new quantity")
  const ItemRemoved := Success(200, "Item removed from cart")
  const ItemUpdated := Success(200, "Cart item updated successfully")

  const MissingFields := Failure(400, "All fields are required")
  const ShortPassword := Failure(400, "Password must be at least 6 characters")
  const EmailTaken := Failure(400, "Email already registered")
  const SignedUp := Success(201, "Signup successful")
  const MissingCredentials := Failure(400, "Email and password required")
  const UnknownUser := Failure(400, "User not found")
  const BadCredentials := Failure(400, "Invalid credentials")
  const LoggedIn := Success(200, "Login successful")
  const LoggedOut := Success(200, "Logged out successfully")

  /** The minimum password length signup accepts. */
  const MinPasswordLength := 6

  /** Row `r` belongs to user `u` and product `p`. */
  predicate Matches(r: Row, u: int, p: int) {
    r.userId == u && r.productId == p
  }

  /** At most one row per (user, product) pair. */
  predicate NoDuplicates(cart: seq<Row>) {
    forall i, j :: 0 <= i < j < |cart| ==> !Matches(cart[j], cart[i].userId, cart[i].productId)
  }

  /** Every quantity is at least 1. */
  predicate AllPositive(cart: seq<Row>) {
    forall i :: 0 <= i < |cart| ==> cart[i].quantity >= 1
  }

  /** No two users share an email. */
  predicate UniqueEmails(users: seq<User>) {
    forall i, j :: 0 <= i < j < |users| ==> users[i].email != users[j].email
  }

  /** The invariant every handler keeps. */
  predicate Valid(s: State) {
    NoDuplicates(s.cart) && AllPositive(s.cart) && UniqueEmails(s.users)
  }
}
