/**
 * The handlers of the wallet service over the wallet collection: creating a
 * user's wallet, reading it, and updating it through an allow-list of fields.
 * Creation and update run only on a body their rule accepts, and each runs its
 * work as one transaction: every write goes to the session and is committed
 * only when no call inside it raises.
 */
module WalletController {
  import opened Json
  import opened Joi
  import opened Wrappers
  import opened Responses
  import opened WalletModel

  type ObjectId = nat

  /** The store call inside the transaction that raises, if any. */
  datatype Fault = NoFault | LookupFails | SaveFails

  /** The fields a request may change. */
  const UpdatableFields: seq<string> := ["balance"]

  ghost predicate OneWalletPerUser(wallets: map<ObjectId, Wallet>)
  {
    forall a, b :: a in wallets && b in wallets && wallets[a].user == wallets[b].user ==> a == b
  }

  predicate HasWallet(wallets: map<ObjectId, Wallet>, user: string)
  {
    exists id :: id in wallets && wallets[id].user == user
  }

  /** `updatableFields.filter(field => fields.indexOf(field) !== -1)`: the allow-listed fields that the body names. */
  function FilterFields(updatable: seq<string>, fields: set<string>): (r: seq<string>)
    ensures forall f :: f in r <==> f in updatable && f in fields
    ensures |r| <= |updatable|
  {
    if updatable == [] then []
    else (if updatable[0] in fields then [updatable[0]] else []) + FilterFields(updatable[1..], fields)
  }

  /**
   * `wallet[field] = value` on a Mongoose document. A value that does not cast to
   * the path's type leaves a cast error that makes the next `save` fail (None);
   * a path the schema does not declare is ignored.
   */
  function SetField(w: Wallet, field: string, v: Value): Option<Wallet>
  {
    if field == "balance" then (if v.JNumber? then Some(w.(balance := v.n)) else None)
    else if field == "user" then (if v.JString? then Some(w.(user := v.s)) else None)
    else Some(w)
  }

  /** The document after `fields.forEach(field => wallet[field] = body[field])`; None once a cast error is recorded. */
  function ApplyFields(w: Option<Wallet>, fields: seq<string>, body: Body): Option<Wallet>
    requires forall f :: f in fields ==> f in body
    decreases |fields|
  {
    if fields == [] then w
    else ApplyFields(if w.Some? then SetField(w.value, fields[0], body[fields[0]]) else None, fields[1..], body)
  }

  /** The `forEach` loop of `updateWallet`. */
  method AssignFields(wallet: Wallet, fields: seq<string>, body: Body) returns (r: Option<Wallet>)
    requires forall f :: f in fields ==> f in body
    ensures r == ApplyFields(Some(wallet), fields, body)
  {
    r := Some(wallet);
    var i := 0;
    while i < |fields|
      invariant 0 <= i <= |fields|
      invariant ApplyFields(r, fields[i..], body) == ApplyFields(Some(wallet), fields, body)
    {
      var field := fields[i];
      assert fields[i..][1..] == fields[i + 1..];
      if r.Some? {
        r := SetField(r.value, field, body[field]);
      }
      i := i + 1;
    }
  }

  /**
   * Whatever the body holds, the allow-list filter followed by the assignments changes
   * the balance when the body has one and nothing else: the `user` field is never touched.
   */
  lemma FilteredUpdateChangesOnlyBalance(w: Wallet, body: Body)
    ensures ApplyFields(Some(w), FilterFields(UpdatableFields, body.Keys), body) ==
      if "balance" !in body then Some(w)
      else if body["balance"].JNumber? then Some(w.(balance := body["balance"].n))
      else None
  {
  }

  class WalletRegistry {
    var wallets: map<ObjectId, Wallet>
    var nextId: ObjectId

    /** Every id was handed out, every stored wallet passed the schema, and no user has two wallets. */
    ghost predicate Valid()
      reads this
    {
      && (forall id :: id in wallets ==> id < nextId)
      && (forall id :: id in wallets ==> Conforms(wallets[id]))
      && OneWalletPerUser(wallets)
    }

    constructor ()
      ensures Valid() && wallets == map[]
    {
      wallets := map[];
      nextId := 0;
    }

    /** `Wallet.findOne({user})`. */
    method FindByUser(user: string) returns (found: Option<ObjectId>)
      ensures found.Some? ==> found.value in wallets && wallets[found.value].user == user
      ensures found.None? <==> !HasWallet(wallets, user)
    {
      if exists id :: id in wallets && wallets[id].user == user {
        var id :| id in wallets && wallets[id].user == user;
        found := Some(id);
      } else {
        found := None;
      }
    }

    /** `createWallet`: validation gate, then the transaction that checks the id and the existing wallet and saves a new one. */
    method CreateWallet(body: Body, validId: string -> bool, fault: Fault) returns (r: Response<Wallet>)
      requires Valid()
      modifies this
      ensures Valid()
      ensures !Accepts(Create, body, NoFormat) ==> r == RequestInvalid && unchanged(this)
      ensures Accepts(Create, body, NoFormat) && !validId(StringAt(body, "userId")) ==>
        r == ValidationError(["Invalid user id"], "validation-error") && unchanged(this)
      ensures Accepts(Create, body, NoFormat) && validId(StringAt(body, "userId")) && fault == LookupFails ==>
        r == ServerError && unchanged(this)
      ensures (&& Accepts(Create, body, NoFormat) && validId(StringAt(body, "userId")) && fault != LookupFails
               && HasWallet(old(wallets), StringAt(body, "userId"))) ==>
        r == ValidationError(["This user has an existing wallet"], "validation-error") && unchanged(this)
      ensures (&& Accepts(Create, body, NoFormat) && validId(StringAt(body, "userId")) && fault == SaveFails
               && !HasWallet(old(wallets), StringAt(body, "userId"))) ==>
        r == ServerError && unchanged(this)
      ensures (&& Accepts(Create, body, NoFormat) && validId(StringAt(body, "userId")) && fault == NoFault
               && !HasWallet(old(wallets), StringAt(body, "userId"))) ==>
        && r == Created("User wallet created")
        && wallets == old(wallets)[old(nextId) := NewWallet(StringAt(body, "userId"))]
        && nextId == old(nextId) + 1
    {
      if !Accepts(Create, body, NoFormat) {
        return RequestInvalid;
      }
      CreateRuleExactly(body, NoFormat);
      var session := wallets;
      var userId := body["userId"].s;
      if !validId(userId) {
        return ValidationError(["Invalid user id"], "validation-error");
      }
      if fault == LookupFails {
        return ServerError;
      }
      var errors: seq<string> := [];
      var wallet := FindByUser(userId);
      if wallet.Some? {
        errors := errors + ["This user has an existing wallet"];
      }
      if |errors| > 0 {
        return ValidationError(errors, "validation-error");
      }
      var data := NewWallet(userId);
      if fault == SaveFails || !Conforms(data) {
        return ServerError;
      }
      session := session[nextId := data];
      wallets, nextId := session, nextId + 1;
      r := Created("User wallet created");
    }

    /** `getWallet`: reads the store only. */
    method GetWallet(userId: string, validId: string -> bool) returns (r: Response<Wallet>)
      ensures !validId(userId) ==> r == ValidationError(["Invalid user id"], "validation-error")
      ensures validId(userId) && !HasWallet(wallets, userId) ==> r == NotFound("Wallet not created for this user id")
      ensures validId(userId) && HasWallet(wallets, userId) ==>
        r.Ok? && r.data.user == userId && exists id :: id in wallets && wallets[id] == r.data
    {
      if !validId(userId) {
        return ValidationError(["Invalid user id"], "validation-error");
      }
      var wallet := FindByUser(userId);
      if wallet.None? {
        return NotFound("Wallet not created for this user id");
      }
      return Ok(wallets[wallet.value]);
    }

    /** `updateWallet`: validation gate, then the transaction that finds the wallet, assigns the allow-listed fields and saves it. */
    method UpdateWallet(userId: string, body: Body, validId: string -> bool, fault: Fault) returns (r: Response<Wallet>)
      requires Valid()
      modifies this
      ensures Valid()
      ensures !Accepts(Update, body, NoFormat) ==> r == RequestInvalid && unchanged(this)
      ensures Accepts(Update, body, NoFormat) && !validId(userId) ==>
        r == ValidationError(["Invalid user id"], "validation-error") && unchanged(this)
      ensures Accepts(Update, body, NoFormat) && validId(userId) && fault == LookupFails ==>
        r == ServerError && unchanged(this)
      ensures (&& Accepts(Update, body, NoFormat) && validId(userId) && fault != LookupFails
               && !HasWallet(old(wallets), userId)) ==>
        r == NotFound("Wallet not created for this user id") && unchanged(this)
      ensures (&& Accepts(Update, body, NoFormat) && validId(userId) && fault == SaveFails
               && HasWallet(old(wallets), userId)) ==>
        r == ServerError && unchanged(this)
      ensures (&& Accepts(Update, body, NoFormat) && validId(userId) && fault == NoFault
               && HasWallet(old(wallets), userId)) ==>
        && nextId == old(nextId)
        && exists id :: (&& id in old(wallets) && old(wallets)[id].user == userId
                         && wallets == old(wallets)[id := old(wallets)[id].(balance := BalanceOf(body))]
                         && r == Ok(wallets[id]))
    {
      if !Accepts(Update, body, NoFormat) {
        return RequestInvalid;
      }
      UpdateRuleExactly(body, NoFormat);
      var session := wallets;
      if !validId(userId) {
        return ValidationError(["Invalid user id"], "validation-error");
      }
      if fault == LookupFails {
        return ServerError;
      }
      var found := FindByUser(userId);
      if found.None? {
        return NotFound("Wallet not created for this user id");
      }
      var id := found.value;
      var updatedFields := FilterFields(UpdatableFields, body.Keys);
      var wallet := AssignFields(wallets[id], updatedFields, body);
      FilteredUpdateChangesOnlyBalance(wallets[id], body);
      if fault == SaveFails || wallet.None? || !Conforms(wallet.value) {
        return ServerError;
      }
      session := session[id := wallet.value];
      wallets := session;
      r := Ok(wallet.value);
    }
  }
}
