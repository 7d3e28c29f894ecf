/**
 * The account handlers of the user service over the user collection: the
 * availability check and registration. Registration runs only on a body the
 * `create` rule accepts, and its work runs as one transaction: every write goes
 * to the session and is committed only when no call inside it raises.
 */
module UserController {
  import opened Json
  import opened Joi
  import opened Wrappers
  import opened Responses
  import opened UserModel

  type ObjectId = nat
  type Salt = nat

  /** bcrypt's `hash(plaintext, salt)`, left uninterpreted. */
  type Hasher = (string, Salt) -> string

  /** What registration draws at random: the string passed through `randomString({length: 128})` and the two bcrypt salts. */
  datatype Entropy = Entropy(token: string, tokenSalt: Salt, passwordSalt: Salt)

  /** The call inside the transaction that raises, if any. */
  datatype Fault = NoFault | LookupFails | HashFails | SaveFails

  ghost predicate EmailsUnique(users: map<ObjectId, User>)
  {
    forall a, b :: a in users && b in users && users[a].email == users[b].email ==> a == b
  }

  predicate Registered(users: map<ObjectId, User>, email: string)
  {
    exists id :: id in users && users[id].email == email
  }

  /**
   * How Mongoose's `findOne({email: v})` matches a stored email when `v` is not a
   * string: it casts a number or a boolean to a string, turns an array into `$in`
   * and runs an object as query operators. Left uninterpreted.
   */
  type CastMatch = (Value, string) -> bool

  /** Whether the query value `v` selects a user whose email is `email`: equality for a string, `castMatch` otherwise. */
  predicate QueryMatches(v: Value, email: string, castMatch: CastMatch)
  {
    if v.JString? then v.s == email else castMatch(v, email)
  }

  /** The email query `User.findOne({email: v})` finds a user for. */
  predicate Taken(users: map<ObjectId, User>, v: Value, castMatch: CastMatch)
  {
    exists id :: id in users && QueryMatches(v, users[id].email, castMatch)
  }

  /** The document registration builds from a body: the submitted email, a hashed identity token and the hashed password. */
  function Registration(body: Body, hash: Hasher, entropy: Entropy): User
  {
    NewUser(StringAt(body, "email"), hash(entropy.token, entropy.tokenSalt), hash(StringAt(body, "password"), entropy.passwordSalt))
  }

  class UserRegistry {
    var users: map<ObjectId, User>
    var nextId: ObjectId

    /** Every id was handed out, every stored user passed the schema, and no two users share an email. */
    ghost predicate Valid()
      reads this
    {
      && (forall id :: id in users ==> id < nextId)
      && (forall id :: id in users ==> Conforms(users[id]))
      && EmailsUnique(users)
    }

    constructor ()
      ensures Valid() && users == map[]
    {
      users := map[];
      nextId := 0;
    }

    /** `User.findOne({email})` for a string email. */
    method FindByEmail(email: string) returns (found: Option<ObjectId>)
      ensures found.Some? ==> found.value in users && users[found.value].email == email
      ensures found.None? <==> !Registered(users, email)
    {
      if exists id :: id in users && users[id].email == email {
        var id :| id in users && users[id].email == email;
        found := Some(id);
      } else {
        found := None;
      }
    }

    /** `User.findOne({email: v})` for a query value taken from a body without validation. */
    method FindByQuery(v: Value, castMatch: CastMatch) returns (found: Option<ObjectId>)
      ensures found.Some? ==> found.value in users && QueryMatches(v, users[found.value].email, castMatch)
      ensures found.None? <==> !Taken(users, v, castMatch)
    {
      if v.JString? {
        found := FindByEmail(v.s);
      } else if exists id :: id in users && castMatch(v, users[id].email) {
        var id :| id in users && castMatch(v, users[id].email);
        found := Some(id);
      } else {
        found := None;
      }
    }

    /** `getAccountAvailability`: reads the store only, and only when a truthy email is given. */
    method GetAccountAvailability(body: Body, castMatch: CastMatch) returns (r: Response<string>)
      ensures !("email" in body && Truthy(body["email"])) ==> r == NotFound("No input provided")
      ensures "email" in body && Truthy(body["email"]) && Taken(users, body["email"], castMatch) ==>
        r == ValidationError(["Email is registered"], "account-not-available")
      ensures "email" in body && Truthy(body["email"]) && !Taken(users, body["email"], castMatch) ==>
        r == Ok("Account available")
    {
      if !("email" in body && Truthy(body["email"])) {
        return NotFound("No input provided");
      }
      var feedbacks: seq<string> := [];
      var user := FindByQuery(body["email"], castMatch);
      if user.Some? {
        feedbacks := feedbacks + ["Email is registered"];
      }
      if |feedbacks| == 0 {
        return Ok("Account available");
      }
      return ValidationError(feedbacks, "account-not-available");
    }

    /** `createUser`: validation gate, then the transaction that checks the email and saves the new user. */
    method CreateUser(body: Body, isEmail: string -> bool, hash: Hasher, entropy: Entropy, fault: Fault)
      returns (r: Response<string>)
      requires Valid()
      requires |entropy.token| == 128
      modifies this
      ensures Valid()
      ensures !Accepts(Create, body, isEmail) ==> r == RequestInvalid && unchanged(this)
      ensures Accepts(Create, body, isEmail) && fault == LookupFails ==> r == ServerError && unchanged(this)
      ensures Accepts(Create, body, isEmail) && fault != LookupFails && Registered(old(users), StringAt(body, "email")) ==>
        r == ValidationError(["This email address is already registered"], "validation-error") && unchanged(this)
      ensures (&& Accepts(Create, body, isEmail) && fault != LookupFails && !Registered(old(users), StringAt(body, "email"))
               && (fault != NoFault || !Conforms(Registration(body, hash, entropy)))) ==>
        r == ServerError && unchanged(this)
      ensures (&& Accepts(Create, body, isEmail) && fault == NoFault && !Registered(old(users), StringAt(body, "email"))
               && Conforms(Registration(body, hash, entropy))) ==>
        && r == Created("User account created")
        && users == old(users)[old(nextId) := Registration(body, hash, entropy)]
        && nextId == old(nextId) + 1
    {
      if !Accepts(Create, body, isEmail) {
        return RequestInvalid;
      }
      CreateRuleExactly(body, isEmail);
      var session := users;
      if fault == LookupFails {
        return ServerError;
      }
      var errors: seq<string> := [];
      var user := FindByEmail(body["email"].s);
      if user.Some? {
        errors := errors + ["This email address is already registered"];
      }
      if |errors| > 0 {
        return ValidationError(errors, "validation-error");
      }
      if fault == HashFails {
        return ServerError;
      }
      var data := NewUser(body["email"].s, hash(entropy.token, entropy.tokenSalt), hash(body["password"].s, entropy.passwordSalt));
      if fault == SaveFails || !Conforms(data) {
        return ServerError;
      }
      session := session[nextId := data];
      users, nextId := session, nextId + 1;
      r := Created("User account created");
    }
  }
}
