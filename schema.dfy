/**
 * The rows of the credential store's five tables (users, roles, tokens, services,
 * user_services), the constraints the schema declares on them, and the ways an
 * operation can fail.
 */
module Schema {
  import opened Wrappers

  /** A row of `users`. `roleId` is None when the row carries SQL NULL there. */
  datatype User = User(id: int, username: string, password: string, email: string, roleId: Option<int>)

  /** A row of `roles`. */
  datatype Role = Role(id: int, name: string)

  /** A row of `tokens`: a bearer token stored for its owner (the creation timestamp is not modelled). */
  datatype Token = Token(id: int, userId: int, token: string)

  /** A row of `services`. */
  datatype Service = Service(id: int, name: string)

  /** A row of `user_services`: the grant of one service to one user. */
  datatype UserService = UserService(id: int, userId: int, serviceId: int)

  /** What an operation of the store can raise. */
  datatype Fault =
    | HttpError(status: int, detail: string)  // an HTTPException raised on purpose
    | IntegrityError                          // the database rejected a commit (UNIQUE or NOT NULL)
    | NoneHasNoId                             // attribute access on None (`None.id`)

  /**
   * What a request handler answers: a 200 reply carrying a value, an HTTPException
   * with its status and detail, or an exception nothing caught, which the web
   * framework turns into its own plain 500 reply.
   */
  datatype Outcome<+T> = Done(value: T) | Raised(status: int, detail: string) | Crashed

  /** Every id is drawn from the table's sequence (1, 2, ...) below `next`. */
  predicate UsersWellFormed(us: seq<User>, next: int)
  {
    1 <= next &&
    (forall u :: u in us ==> 1 <= u.id < next && u.roleId.Some?) &&
    (forall a, b :: a in us && b in us && (a.id == b.id || a.username == b.username || a.email == b.email) ==> a == b)
  }

  predicate RolesWellFormed(rs: seq<Role>, next: int)
  {
    1 <= next &&
    (forall r :: r in rs ==> 1 <= r.id < next) &&
    (forall a, b :: a in rs && b in rs && (a.id == b.id || a.name == b.name) ==> a == b)
  }

  predicate TokensWellFormed(ts: seq<Token>, next: int)
  {
    1 <= next &&
    (forall t :: t in ts ==> 1 <= t.id < next) &&
    (forall a, b :: a in ts && b in ts && a.id == b.id ==> a == b)
  }

  predicate ServicesWellFormed(ss: seq<Service>, next: int)
  {
    1 <= next &&
    (forall s :: s in ss ==> 1 <= s.id < next) &&
    (forall a, b :: a in ss && b in ss && (a.id == b.id || a.name == b.name) ==> a == b)
  }

  /** Beyond ids, no (user, service) pair is granted twice. */
  predicate UserServicesWellFormed(gs: seq<UserService>, next: int)
  {
    1 <= next &&
    (forall g :: g in gs ==> 1 <= g.id < next) &&
    (forall a, b :: a in gs && b in gs && (a.id == b.id || (a.userId == b.userId && a.serviceId == b.serviceId)) ==> a == b)
  }
}
