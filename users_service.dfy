/** `UsersService`: the user table behind registration, profile updates and
    the credential check. `create` stores a password only as the output of
    a salted hash, and `update` hashes a non-empty password but writes an
    empty one as it is; the hash and the comparison of a password against a
    stored hash are bcrypt's and are given to the service as functions. */
module Users {
  import opened Wrappers
  import opened Roles

  /** A row of the user table; the table's `username` and `email` columns
      carry unique constraints. */
  datatype User = User(id: int, username: string, email: string, password: string, address: string)

  /** The body of a create request. */
  datatype CreateUserDto = CreateUserDto(username: string, email: string, password: string, address: string, role: Role)

  /** The body of an update request: every field optional. */
  datatype UpdateUserDto = UpdateUserDto(
    username: Option<string>, email: Option<string>, password: Option<string>,
    address: Option<string>, role: Option<Role>)

  /** The bcrypt cost factor passed to every hash. */
  const SaltRounds := 10

  const UsernameTakenMessage: string := "Username đã tồn tại"
  const EmailTakenMessage: string := "Email đã tồn tại"

  /** A JavaScript string is truthy exactly when it is not empty. */
  predicate Truthy(s: Option<string>)
  {
    s.Some? && s.value != ""
  }

  /** The row an update writes: each supplied column replaced, the others
      kept. */
  function Apply(u: User, dto: UpdateUserDto): (r: User)
    ensures r.id == u.id
    ensures r.username == (if dto.username.Some? then dto.username.value else u.username)
    ensures r.email == (if dto.email.Some? then dto.email.value else u.email)
    ensures r.password == (if dto.password.Some? then dto.password.value else u.password)
    ensures r.address == (if dto.address.Some? then dto.address.value else u.address)
  {
    User(u.id,
         if dto.username.Some? then dto.username.value else u.username,
         if dto.email.Some? then dto.email.value else u.email,
         if dto.password.Some? then dto.password.value else u.password,
         if dto.address.Some? then dto.address.value else u.address)
  }

  /** An update that supplies no column leaves the row as it is. */
  lemma ApplyNothing(u: User)
    ensures Apply(u, UpdateUserDto(None, None, None, None, None)) == u
  {
  }

  /** Applying the same update twice is applying it once. */
  lemma ApplyIdempotent(u: User, dto: UpdateUserDto)
    ensures Apply(Apply(u, dto), dto) == Apply(u, dto)
  {
  }

  class UsersService {
    var users: map<int, User>
    var nextId: int
    /** `bcrypt.hash(password, rounds)` with the salt it draws. */
    const hash: (string, int, string) -> string
    /** `bcrypt.compare(password, storedHash)`. */
    const compare: (string, string) -> bool

    /** Ids are positive, below the next one handed out and equal to the
        row's own id; the unique constraints on username and email hold. */
    ghost predicate Valid()
      reads this
    {
      0 < nextId &&
      (forall id :: id in users ==> 0 < id < nextId && users[id].id == id) &&
      (forall i, j :: i in users && j in users && i != j ==>
         users[i].username != users[j].username && users[i].email != users[j].email)
    }

    constructor (hash: (string, int, string) -> string, compare: (string, string) -> bool)
      ensures Valid()
      ensures users == map[] && nextId == 1
      ensures this.hash == hash && this.compare == compare
    {
      users := map[];
      nextId := 1;
      this.hash := hash;
      this.compare := compare;
    }

    /** Some row holds that username. */
    predicate HasUsername(username: string)
      reads this
    {
      exists id :: id in users && users[id].username == username
    }

    /** Some row holds that email. */
    predicate HasEmail(email: string)
      reads this
    {
      exists id :: id in users && users[id].email == email
    }

    /** Some row other than `id` holds the username or the email of `u`:
        writing `u` at `id` would break a unique constraint. */
    predicate Clashes(id: int, u: User)
      reads this
    {
      exists j :: j in users && j != id && (users[j].username == u.username || users[j].email == u.email)
    }

    /** `findAll`: every row of the table. */
    function FindAll(): (r: set<User>)
      reads this
      requires Valid()
      ensures forall u :: u in r <==> u.id in users && users[u.id] == u
    {
      set id | id in users :: users[id]
    }

    /** `findOne`: the row with that id, or nothing. */
    function FindOne(id: int): (r: Option<User>)
      reads this
      requires Valid()
      ensures r.Some? <==> id in users
      ensures r.Some? ==> r.value == users[id] && r.value.id == id
    {
      if id in users then Some(users[id]) else None
    }

    /** The row holding `username`, if any: the lookup behind `create`'s
        duplicate check and `validateUser`. */
    method FindByUsername(username: string) returns (r: Option<User>)
      requires Valid()
      ensures r.None? <==> !HasUsername(username)
      ensures r.Some? ==> r.value.id in users && users[r.value.id] == r.value && r.value.username == username
    {
      if HasUsername(username) {
        var id :| id in users && users[id].username == username;
        r := Some(users[id]);
      } else {
        r := None;
      }
    }

    /** `create`: a taken username is rejected first, then a taken email;
        otherwise the row is stored under a fresh id with the password
        replaced by its hash and the role, which has no column, dropped. */
    method Create(dto: CreateUserDto, salt: string) returns (r: Outcome<User>)
      requires Valid()
      modifies this
      ensures Valid()
      ensures old(HasUsername(dto.username)) ==>
        r == Err(BadRequest(UsernameTakenMessage)) && users == old(users) && nextId == old(nextId)
      ensures !old(HasUsername(dto.username)) && old(HasEmail(dto.email)) ==>
        r == Err(BadRequest(EmailTakenMessage)) && users == old(users) && nextId == old(nextId)
      ensures !old(HasUsername(dto.username)) && !old(HasEmail(dto.email)) ==>
        var u := User(old(nextId), dto.username, dto.email, hash(dto.password, SaltRounds, salt), dto.address);
        r == Ok(u) && old(nextId) !in old(users) &&
        users == old(users)[old(nextId) := u] && nextId == old(nextId) + 1
    {
      var existingUser := FindByUsername(dto.username);
      if existingUser.Some? {
        return Err(BadRequest(UsernameTakenMessage));
      }
      if HasEmail(dto.email) {
        return Err(BadRequest(EmailTakenMessage));
      }
      var hashedPassword := hash(dto.password, SaltRounds, salt);
      var newUser := User(nextId, dto.username, dto.email, hashedPassword, dto.address);
      users := users[nextId := newUser];
      nextId := nextId + 1;
      r := Ok(newUser);
    }

    /** `update`: a supplied non-empty password is replaced by its hash,
        then every supplied column is written to the row with that id. A
        missing id changes nothing and raises nothing; a write that would
        break a unique constraint is refused by the database. */
    method Update(id: int, dto: UpdateUserDto, salt: string) returns (r: Outcome<()>)
      requires Valid()
      modifies this
      ensures Valid()
      ensures nextId == old(nextId)
      ensures id !in old(users) ==> r == Ok(()) && users == old(users)
      ensures id in old(users) ==>
        var written := if Truthy(dto.password) then dto.(password := Some(hash(dto.password.value, SaltRounds, salt))) else dto;
        var u := Apply(old(users)[id], written);
        (old(Clashes(id, u)) ==> r == Err(InternalServerError) && users == old(users)) &&
        (!old(Clashes(id, u)) ==> r == Ok(()) && users == old(users)[id := u])
    {
      var dto := dto;
      if Truthy(dto.password) {
        dto := dto.(password := Some(hash(dto.password.value, SaltRounds, salt)));
      }
      if id !in users {
        return Ok(());
      }
      var u := Apply(users[id], dto);
      if Clashes(id, u) {
        return Err(InternalServerError);
      }
      users := users[id := u];
      r := Ok(());
    }

    /** `remove`: deletes the row with that id, if there is one, without
        checking that it exists. */
    method Remove(id: int)
      requires Valid()
      modifies this
      ensures Valid()
      ensures users == old(users) - {id} && nextId == old(nextId)
    {
      users := users - {id};
    }

    /** `validateUser`: false for an unknown username; otherwise whether
        the password matches the stored hash. */
    method ValidateUser(username: string, password: string) returns (ok: bool)
      requires Valid()
      ensures !HasUsername(username) ==> !ok
      ensures HasUsername(username) ==>
        exists id :: id in users && users[id].username == username && ok == compare(password, users[id].password)
    {
      var user := FindByUsername(username);
      if user.None? {
        return false;
      }
      ok := compare(password, user.value.password);
    }
  }

  /** When bcrypt's compare accepts every password against its own hash,
      a user whose registration succeeds passes the credential check with
      the password they registered with. */
  method RegisteredUserValidates(service: UsersService, dto: CreateUserDto, salt: string)
    returns (created: Outcome<User>, ok: bool)
    requires service.Valid()
    requires forall p, rounds, s :: service.compare(p, service.hash(p, rounds, s))
    modifies service
    ensures created.Ok? ==> ok
  {
    created := service.Create(dto, salt);
    if created.Ok? {
      assert service.users[created.value.id] == created.value;
    }
    ok := service.ValidateUser(dto.username, dto.password);
    if created.Ok? {
      // The unique constraint on usernames leaves the new row as the only match.
      var id :| id in service.users && service.users[id].username == dto.username &&
        ok == service.compare(dto.password, service.users[id].password);
      assert id == created.value.id;
    }
  }

  /** When bcrypt's compare accepts every password against its own hash,
      changing the password of any stored user to a non-empty one always
      succeeds, and the user then passes the credential check with the
      new password. */
  method ChangedPasswordValidates(service: UsersService, id: int, newPassword: string, salt: string)
    returns (updated: Outcome<()>, ok: bool)
    requires service.Valid()
    requires forall p, rounds, s :: service.compare(p, service.hash(p, rounds, s))
    requires id in service.users && newPassword != ""
    modifies service
    ensures updated == Ok(()) && ok
  {
    var username := service.users[id].username;
    var changed := Apply(service.users[id], UpdateUserDto(None, None, Some(service.hash(newPassword, SaltRounds, salt)), None, None));
    // Only the password changes, so the unique constraints cannot break.
    assert !service.Clashes(id, changed);
    updated := service.Update(id, UpdateUserDto(None, None, Some(newPassword), None, None), salt);
    assert service.users[id] == changed;
    ok := service.ValidateUser(username, newPassword);
    var j :| j in service.users && service.users[j].username == username &&
      ok == service.compare(newPassword, service.users[j].password);
    assert j == id;
  }
}
