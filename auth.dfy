/** routes/auth.js: registration, login and the two profile routes over the
    user table. Password hashing and token signing are left abstract: they
    are the functions of a `Crypto` value the table is built with. */
module Auth {
  import opened Wrappers
  import opened Api
  import Bearer

  /** A row of the user table; `password` holds the digest, never the
      password itself. */
  datatype User = User(id: UserId, name: string, email: string, password: string)

  /** What the register, get and update routes send back: no digest. */
  datatype UserView = UserView(id: UserId, name: string, email: string)

  /** The payload of a token. */
  datatype Claims = Claims(userId: UserId)

  datatype LoginBody = LoginBody(token: string, user: User)

  /** bcrypt's `hash` and `compare`, and jsonwebtoken's `sign` and `verify`
      (which fails, here `None`, on a bad or expired token). */
  datatype Crypto = Crypto(hash: string -> string,
                           verifyPassword: (string, string) -> bool,
                           sign: Claims -> string,
                           verify: string -> Option<Claims>)

  function View(u: User): UserView {
    UserView(u.id, u.name, u.email)
  }

  /** A request-body field that is present and truthy: a non-empty string. */
  predicate Present(field: Option<string>) {
    field.Some? && field.value != ""
  }

  /** No two users share an email. */
  ghost predicate EmailsUnique(users: map<UserId, User>) {
    forall a, b :: a in users && b in users && users[a].email == users[b].email ==> a == b
  }

  predicate EmailTaken(users: map<UserId, User>, email: string) {
    exists id :: id in users && users[id].email == email
  }

  /** The email belongs to some user other than `self`. */
  predicate EmailTakenByOther(users: map<UserId, User>, email: string, self: UserId) {
    exists id :: id in users && users[id].email == email && id != self
  }

  /** Adding a user whose email is new keeps emails unique. */
  lemma InsertKeepsEmailsUnique(users: map<UserId, User>, u: User)
    requires EmailsUnique(users) && u.id !in users && !EmailTaken(users, u.email)
    ensures EmailsUnique(users[u.id := u])
  {
  }

  /** Changing one user's name and email to an email no other user has
      keeps emails unique. */
  lemma RenameKeepsEmailsUnique(users: map<UserId, User>, id: UserId, name: string, email: string)
    requires EmailsUnique(users) && id in users && !EmailTakenByOther(users, email, id)
    ensures EmailsUnique(users[id := users[id].(name := name, email := email)])
  {
  }

  /** The two 401 checks of the profile routes: the subject of a valid
      Bearer token, or `None`. An absent or empty header is refused before
      its prefix is looked at. */
  function Authenticate(crypto: Crypto, authorization: Option<string>): (subject: Option<UserId>)
    ensures subject.Some? ==>
              authorization.Some? && Bearer.StartsWith(authorization.value, Bearer.Scheme)
    ensures subject.Some? ==>
              authorization.Some? && Bearer.BearerToken(authorization.value).Some? &&
              crypto.verify(Bearer.BearerToken(authorization.value).value) == Some(Claims(subject.value))
    ensures authorization.Some? && Bearer.BearerToken(authorization.value).Some?
            && crypto.verify(Bearer.BearerToken(authorization.value).value).Some?
            ==> subject == Some(crypto.verify(Bearer.BearerToken(authorization.value).value).value.userId)
  {
    if authorization.None? || authorization.value == "" then None
    else
      match Bearer.BearerToken(authorization.value)
      case None => None
      case Some(token) =>
        match crypto.verify(token)
        case None => None
        case Some(claims) => Some(claims.userId)
  }

  /** The user table. */
  class UserTable {
    var users: map<UserId, User>
    var nextId: nat
    const crypto: Crypto

    /** Each row is filed under its own id, ids below `nextId` have been
        issued, and emails are unique. */
    ghost predicate Valid()
      reads this
    {
      && (forall id :: id in users ==> users[id].id == id && id < nextId)
      && EmailsUnique(users)
    }

    constructor (crypto: Crypto)
      ensures Valid() && users == map[] && this.crypto == crypto
    {
      users := map[];
      nextId := 0;
      this.crypto := crypto;
    }

    /** `prisma.user.findUnique({ where: { email } })`. */
    method FindByEmail(email: string) returns (found: Option<User>)
      requires Valid()
      ensures found.None? <==> !EmailTaken(users, email)
      ensures found.Some? ==> found.value.id in users && users[found.value.id] == found.value
                              && found.value.email == email
    {
      var unseen := users.Keys;
      while unseen != {}
        invariant unseen <= users.Keys
        invariant forall id :: id in users && id !in unseen ==> users[id].email != email
        decreases unseen
      {
        var id :| id in unseen;
        if users[id].email == email {
          return Some(users[id]);
        }
        unseen := unseen - {id};
      }
      return None;
    }

    /** `POST /register`. */
    method Register(name: Option<string>, email: Option<string>, password: Option<string>)
      returns (r: Reply<UserView>)
      requires Valid()
      modifies this
      ensures Valid()
      ensures !(Present(name) && Present(email) && Present(password)) ==>
                r == Err(BAD_REQUEST) && users == old(users) && nextId == old(nextId)
      ensures Present(name) && Present(email) && Present(password) && EmailTaken(old(users), email.value) ==>
                r == Err(CONFLICT) && users == old(users) && nextId == old(nextId)
      ensures Present(name) && Present(email) && Present(password) && !EmailTaken(old(users), email.value) ==>
                var u := User(old(nextId), name.value, email.value, crypto.hash(password.value));
                && u.id !in old(users)
                && users == old(users)[u.id := u]
                && |users| == |old(users)| + 1
                && r == Ok(CREATED, View(u))
    {
      if !Present(name) || !Present(email) || !Present(password) {
        return Err(BAD_REQUEST);
      }
      var existing := FindByEmail(email.value);
      if existing.Some? {
        return Err(CONFLICT);
      }
      var digest := crypto.hash(password.value);
      var u := User(nextId, name.value, email.value, digest);
      InsertKeepsEmailsUnique(users, u);
      users := users[u.id := u];
      nextId := nextId + 1;
      r := Ok(CREATED, View(u));
    }

    /** `POST /login`: a uniform 400 for an unknown email and for a wrong
        password; on success the token and the whole row, digest included. */
    method Login(email: string, password: string) returns (r: Reply<LoginBody>)
      requires Valid()
      ensures !EmailTaken(users, email) ==> r == Err(BAD_REQUEST)
      ensures forall id :: id in users && users[id].email == email ==>
                r == if crypto.verifyPassword(password, users[id].password)
                     then Ok(OK, LoginBody(crypto.sign(Claims(id)), users[id]))
                     else Err(BAD_REQUEST)
    {
      var found := FindByEmail(email);
      if found.None? {
        return Err(BAD_REQUEST);
      }
      var user := found.value;
      if !crypto.verifyPassword(password, user.password) {
        return Err(BAD_REQUEST);
      }
      var token := crypto.sign(Claims(user.id));
      r := Ok(OK, LoginBody(token, user));
    }

    /** `GET /users/:id`: 401, then 403 for someone else's profile, then 404. */
    method GetUser(authorization: Option<string>, id: UserId) returns (r: Reply<UserView>)
      requires Valid()
      ensures Authenticate(crypto, authorization).None? ==> r == Err(UNAUTHORIZED)
      ensures Authenticate(crypto, authorization).Some? && Authenticate(crypto, authorization).value != id
              ==> r == Err(FORBIDDEN)
      ensures Authenticate(crypto, authorization) == Some(id) ==>
                r == if id in users then Ok(OK, View(users[id])) else Err(NOT_FOUND)
    {
      var subject := Authenticate(crypto, authorization);
      if subject.None? {
        return Err(UNAUTHORIZED);
      }
      if subject.value != id {
        return Err(FORBIDDEN);
      }
      if id !in users {
        return Err(NOT_FOUND);
      }
      r := Ok(OK, View(users[id]));
    }

    /** `PUT /users/:id`: 401, 403, then 400 for an empty name or email, 409
        for another user's email; the update of a row that is not there
        fails in the datastore (500). Only that user's name and email change. */
    method UpdateUser(authorization: Option<string>, id: UserId, name: Option<string>,
                      email: Option<string>) returns (r: Reply<UserView>)
      requires Valid()
      modifies this
      ensures Valid() && nextId == old(nextId)
      ensures r.Err? ==> users == old(users)
      ensures Authenticate(crypto, authorization).None? ==> r == Err(UNAUTHORIZED)
      ensures Authenticate(crypto, authorization).Some? && Authenticate(crypto, authorization).value != id
              ==> r == Err(FORBIDDEN)
      ensures Authenticate(crypto, authorization) == Some(id) && !(Present(name) && Present(email))
              ==> r == Err(BAD_REQUEST)
      ensures Authenticate(crypto, authorization) == Some(id) && Present(name) && Present(email)
              && EmailTakenByOther(old(users), email.value, id)
              ==> r == Err(CONFLICT)
      ensures Authenticate(crypto, authorization) == Some(id) && Present(name) && Present(email)
              && !EmailTakenByOther(old(users), email.value, id)
              ==> if id in old(users)
                  then users == old(users)[id := old(users)[id].(name := name.value, email := email.value)]
                       && r == Ok(OK, View(users[id]))
                  else r == Err(SERVER_ERROR)
    {
      var subject := Authenticate(crypto, authorization);
      if subject.None? {
        return Err(UNAUTHORIZED);
      }
      if subject.value != id {
        return Err(FORBIDDEN);
      }
      if !Present(name) || !Present(email) {
        return Err(BAD_REQUEST);
      }
      var existing := FindByEmail(email.value);
      if existing.Some? && existing.value.id != id {
        return Err(CONFLICT);
      }
      if id !in users {
        return Err(SERVER_ERROR);
      }
      RenameKeepsEmailsUnique(users, id, name.value, email.value);
      users := users[id := users[id].(name := name.value, email := email.value)];
      r := Ok(OK, View(users[id]));
    }
  }
}
