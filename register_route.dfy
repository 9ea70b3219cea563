/** The `POST` handler of app/api/register/route.ts over the `users`
    collection: the required-field check, the duplicate-email check and the
    insert of one user whose password is stored hashed. The hash (bcrypt with
    its salt and work factor) and the clock are parameters. */
module RegisterRoute {
  import opened Js

  type Date = int

  datatype User = User(name: string, email: string, password: string, createdAt: Date)

  /** The JSON body of the request; any field may be missing. */
  datatype RegisterBody = RegisterBody(name: Option<string>, email: Option<string>, password: Option<string>)

  /** The JSON response `{ message }` with its status. */
  datatype Response = Response(status: nat, message: string)

  const MissingFields := Response(400, "All fields are required")
  const AlreadyExists := Response(409, "User already exists")
  const Created := Response(201, "User created successfully")
  const ServerError := Response(500, "Internal Server Error")

  /** No two users share an email. */
  predicate UniqueEmails(users: seq<User>) {
    forall i, j :: 0 <= i < j < |users| ==> users[i].email != users[j].email
  }

  /** `findOne({ email })`: the first user with that email, if any. */
  function FindByEmail(users: seq<User>, email: string): (r: Option<User>)
    ensures r.Some? ==> r.value in users && r.value.email == email
    ensures r.None? ==> forall i :: 0 <= i < |users| ==> users[i].email != email
  {
    if users == [] then None
    else if users[0].email == email then Some(users[0])
    else FindByEmail(users[1..], email)
  }

  /** The `users` collection of the `blogspace` database, with its unique index on `email`. */
  class UserCollection {
    var users: seq<User>

    ghost predicate Valid()
      reads this
    {
      UniqueEmails(users)
    }

    constructor ()
      ensures Valid() && users == []
    {
      users := [];
    }

    /** `insertOne(user)`: the unique index rejects a second user with the same
        email (the driver throws); otherwise the user is appended. */
    method InsertOne(u: User) returns (ok: bool)
      requires Valid()
      modifies this
      ensures Valid()
      ensures ok <==> FindByEmail(old(users), u.email).None?
      ensures users == if ok then old(users) + [u] else old(users)
    {
      ok := FindByEmail(users, u.email).None?;
      if ok {
        users := users + [u];
      }
    }
  }

  /** `POST /api/register`. `body` is `None` when the request body is not JSON.
      Missing or empty fields give 400 and a known email 409, both leaving the
      table as it was; otherwise one user with the hashed password is appended
      and the response is 201. Emails stay unique throughout. */
  method Post(db: UserCollection, body: Option<RegisterBody>, hash: string -> string, now: Date)
    returns (resp: Response)
    requires db.Valid()
    modifies db
    ensures db.Valid()
    ensures body.None? ==> resp == ServerError && db.users == old(db.users)
    ensures body.Some? && !(Truthy(body.value.name) && Truthy(body.value.email) && Truthy(body.value.password)) ==>
      resp == MissingFields && db.users == old(db.users)
    ensures body.Some? && Truthy(body.value.name) && Truthy(body.value.email) && Truthy(body.value.password) ==>
      if FindByEmail(old(db.users), body.value.email.value).Some? then
        resp == AlreadyExists && db.users == old(db.users)
      else
        resp == Created &&
        db.users == old(db.users) + [User(body.value.name.value, body.value.email.value, hash(body.value.password.value), now)]
  {
    if body.None? {
      return ServerError;
    }
    var b := body.value;
    if !Truthy(b.name) || !Truthy(b.email) || !Truthy(b.password) {
      return MissingFields;
    }
    var existing := FindByEmail(db.users, b.email.value);
    if existing.Some? {
      return AlreadyExists;
    }
    var hashed := hash(b.password.value);
    var ok := db.InsertOne(User(b.name.value, b.email.value, hashed, now));
    if !ok {
      return ServerError;
    }
    resp := Created;
  }

  /** Registering the same email twice, starting from any table in which it
      is new: the first attempt adds one user, the second is refused with 409,
      and the first user is kept exactly as stored. */
  method RegisterTwice(db: UserCollection, first: RegisterBody, second: RegisterBody, hash: string -> string, now: Date)
    returns (r1: Response, r2: Response)
    requires db.Valid()
    requires Truthy(first.name) && Truthy(first.email) && Truthy(first.password)
    requires FindByEmail(db.users, first.email.value).None?
    requires Truthy(second.name) && Truthy(second.password) && second.email == first.email
    modifies db
    ensures r1 == Created && r2 == AlreadyExists
    ensures db.users == old(db.users) + [User(first.name.value, first.email.value, hash(first.password.value), now)]
  {
    r1 := Post(db, Some(first), hash, now);
    assert db.users[|db.users| - 1].email == first.email.value;
    r2 := Post(db, Some(second), hash, now);
  }
}
