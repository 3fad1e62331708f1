/** The pure rules of the account routes and of the user model: the role
    check, the validators, the row a sign-up inserts, and the two shapes an
    account is shown in. */
module UserRules {
  import opened Schema
  import Text

  /** The body fields of POST /users the model reads; None is an absent key. */
  datatype UserInput = UserInput(
    name: Option<string>,
    email: Option<string>,
    password: Option<string>,
    role: Option<string>,
    isActive: Option<bool>)

  /** What POST /users answers on success: never the password. */
  datatype Account = Account(id: Id, name: string, email: string, role: Role)

  /** The outcome of POST /users. */
  datatype SignupReply = BadRole | NotCreated | Registered(account: Account) {
    function Status(): int {
      match this
      case BadRole => 400
      case NotCreated => 412
      case Registered(_) => 201
    }
  }

  /** The model validators: name and password required and not blank
      (`notEmpty`), email required, not blank and an email address. */
  predicate SignupValid(input: UserInput, isEmail: string -> bool) {
    && input.name.Some? && Text.NotBlank(input.name.value)
    && input.email.Some? && Text.NotBlank(input.email.value) && isEmail(input.email.value)
    && input.password.Some? && Text.NotBlank(input.password.value)
  }

  /** A sign-up validates exactly when name, email and password trim to
      something and the email is an address: a password of spaces only is
      refused. */
  lemma SignupValidIsTrimmed(input: UserInput, isEmail: string -> bool)
    ensures SignupValid(input, isEmail) <==>
      && input.name.Some? && Text.Trim(input.name.value) != ""
      && input.email.Some? && Text.Trim(input.email.value) != "" && isEmail(input.email.value)
      && input.password.Some? && Text.Trim(input.password.value) != ""
  {
    if input.name.Some? { Text.NotBlankIffTrimmed(input.name.value); }
    if input.email.Some? { Text.NotBlankIffTrimmed(input.email.value); }
    if input.password.Some? { Text.NotBlankIffTrimmed(input.password.value); }
  }

  /** The unique index on email sees every row, soft-deleted ones included. */
  predicate EmailTaken(users: map<Id, User>, email: string) {
    exists v :: v in users && users[v].email == email
  }

  /** The row a sign-up inserts: the beforeCreate hook stores the hash of the
      password, is_active defaults to true, and the row is not deleted. */
  function NewUser(input: UserInput, role: Role, hash: string -> string): (r: User)
    requires input.name.Some? && input.email.Some? && input.password.Some?
    ensures r.name == input.name.value && r.email == input.email.value && r.role == role
    ensures r.password == hash(input.password.value)
    ensures r.isActive == input.isActive.GetOr(true)
    ensures r.deletedAt.None?
  {
    User(input.name.value, input.email.value, hash(input.password.value), role, input.isActive.GetOr(true), None)
  }

  /** The response projection of a created user. */
  function AccountOf(id: Id, user: User): (a: Account)
    ensures a.id == id && a.name == user.name && a.email == user.email && a.role == user.role
  {
    Account(id, user.name, user.email, user.role)
  }

  /** Inserting a valid sign-up keeps the table's constraints: non-empty name
      and email, and unique email. */
  lemma SignupKeepsUsersOk(users: map<Id, User>, id: Id, input: UserInput, role: Role,
                           isEmail: string -> bool, hash: string -> string)
    requires UsersOk(users) && id !in users
    requires SignupValid(input, isEmail) && !EmailTaken(users, input.email.value)
    ensures UsersOk(users[id := NewUser(input, role, hash)])
  {
    var users' := users[id := NewUser(input, role, hash)];
    forall a, b | a in users' && b in users' && users'[a].email == users'[b].email
      ensures a == b
    {
      if a != id && b != id {
        assert users[a].email == users[b].email;
      }
    }
  }

  /** A valid sign-up with a free email, inserted at the next key, keeps
      every table consistent. */
  lemma SignupKeepsConsistent(
    users: map<Id, User>, products: map<Id, Product>, carts: map<Id, Cart>,
    items: map<Id, CartItem>, orders: map<Id, Order>, lines: set<(Id, Id)>,
    favorites: set<(Id, Id)>,
    nextUser: Id, nextProduct: Id, nextCart: Id, nextItem: Id, nextOrder: Id,
    input: UserInput, role: Role, isEmail: string -> bool, hash: string -> string)
    requires Consistent(users, products, carts, items, orders, lines, favorites,
                        nextUser, nextProduct, nextCart, nextItem, nextOrder)
    requires SignupValid(input, isEmail) && !EmailTaken(users, input.email.value)
    ensures Consistent(users[nextUser := NewUser(input, role, hash)], products, carts, items, orders, lines,
                       favorites, nextUser + 1, nextProduct, nextCart, nextItem, nextOrder)
  {
    var users' := users[nextUser := NewUser(input, role, hash)];
    SignupKeepsUsersOk(users, nextUser, input, role, isEmail, hash);
    UserRefsKept(users, users', products, carts, orders, favorites);
  }

  // ---- GET /user ----

  /** The attributes GET /user selects. */
  datatype Profile = Profile(id: Id, name: string, email: string, role: Role, isActive: bool)

  /** `User.findByPk(id, { attributes })`: only live rows are found. */
  function ProfileOf(users: map<Id, User>, u: Id): (r: Option<Profile>)
    ensures r.None? <==> !IsLive(users, u)
    ensures r.Some? ==> r.value == Profile(u, users[u].name, users[u].email, users[u].role, users[u].isActive)
  {
    if IsLive(users, u) then Some(Profile(u, users[u].name, users[u].email, users[u].role, users[u].isActive))
    else None
  }

  // ---- DELETE /user ----

  /** The outcome of DELETE /user. */
  datatype CloseReply = NoUser | SoftDeleted | Deactivated {
    function Status(): int {
      match this
      case NoUser => 404
      case SoftDeleted => 204
      case Deactivated => 200
    }
  }

  /** `user.destroy()` on a paranoid model: the row stays, marked deleted. */
  function SoftDelete(user: User, now: int): (r: User)
    ensures r.deletedAt == Some(now)
    ensures r.name == user.name && r.email == user.email && r.password == user.password
    ensures r.role == user.role && r.isActive == user.isActive
  {
    user.(deletedAt := Some(now))
  }

  /** A soft-deleted customer disappears from every lookup by key, yet the row
      keeps its email, so the address cannot be registered again. */
  lemma SoftDeletedIsGone(users: map<Id, User>, u: Id, now: int)
    requires IsLive(users, u)
    ensures ProfileOf(users[u := SoftDelete(users[u], now)], u).None?
    ensures EmailTaken(users[u := SoftDelete(users[u], now)], users[u].email)
  {
    var users' := users[u := SoftDelete(users[u], now)];
    assert users'[u].email == users[u].email;
  }

  /** A deactivated seller is still found, with is_active false. */
  lemma DeactivatedIsFound(users: map<Id, User>, u: Id)
    requires IsLive(users, u)
    ensures var r := ProfileOf(users[u := users[u].(isActive := false)], u);
      r.Some? && !r.value.isActive && r.value.role == users[u].role
  {
  }

  /** Rewriting a user's row without touching name, email or role (a soft
      delete, a deactivation) keeps every table consistent. */
  lemma SameAccountKeepsConsistent(
    users: map<Id, User>, products: map<Id, Product>, carts: map<Id, Cart>,
    items: map<Id, CartItem>, orders: map<Id, Order>, lines: set<(Id, Id)>,
    favorites: set<(Id, Id)>,
    nextUser: Id, nextProduct: Id, nextCart: Id, nextItem: Id, nextOrder: Id, u: Id, changed: User)
    requires Consistent(users, products, carts, items, orders, lines, favorites,
                        nextUser, nextProduct, nextCart, nextItem, nextOrder)
    requires u in users
    requires changed.name == users[u].name && changed.email == users[u].email && changed.role == users[u].role
    ensures Consistent(users[u := changed], products, carts, items, orders, lines, favorites,
                       nextUser, nextProduct, nextCart, nextItem, nextOrder)
  {
    var users' := users[u := changed];
    UserRefsKept(users, users', products, carts, orders, favorites);
    assert UsersOk(users');
  }
}
