/** The wallet document of the wallet service and the joi rules its routes validate bodies with. */
module WalletModel {
  import opened Json
  import opened Joi
  import opened Wrappers

  /** A wallet document: the owning user's id and a balance, a JavaScript number that is only ever assigned. Timestamps are not modelled. */
  datatype Wallet = Wallet(user: string, balance: real)

  /** `new Wallet({user})`: the schema supplies the default balance. */
  function NewWallet(user: string): Wallet
  {
    Wallet(user, 0.0)
  }

  /** What Mongoose's validation demands of a wallet on save: the required `user` is a non-empty string. */
  predicate Conforms(w: Wallet)
  {
    w.user != ""
  }

  const Create: Schema := [Key("userId", String(false, 0, None), true, [])]

  const Update: Schema := [Key("balance", Number, true, [])]

  /** The format check handed to joi; neither wallet rule uses `.email()`, so its choice does not matter. */
  function NoFormat(s: string): bool
  {
    false
  }

  /** The number stored under `balance`, or 0 when there is none. */
  function BalanceOf(body: Body): real
  {
    if "balance" in body && body["balance"].JNumber? then body["balance"].n else 0.0
  }

  /** A new wallet starts with balance 0 for its user, and passes the schema's validation exactly when that user id is non-empty. */
  lemma NewWalletDefaults(user: string)
    ensures NewWallet(user).user == user && NewWallet(user).balance == 0.0
    ensures Conforms(NewWallet(user)) <==> user != ""
  {
  }

  /** `create` accepts exactly the bodies holding only a non-empty string `userId`. */
  lemma CreateRuleExactly(body: Body, isEmail: string -> bool)
    ensures Accepts(Create, body, isEmail) <==>
      body.Keys <= {"userId"} && "userId" in body && body["userId"].JString? && body["userId"].s != ""
  {
    if Accepts(Create, body, isEmail) {
      assert KeyAccepted(Create[0], body, isEmail);
      forall name | name in body ensures name == "userId" {
        assert Declares(Create, name);
      }
    }
    if body.Keys <= {"userId"} && "userId" in body && body["userId"].JString? && body["userId"].s != "" {
      forall name | name in body ensures Declares(Create, name) {
        assert Create[0].name == name;
      }
      assert KeyAccepted(Create[0], body, isEmail);
    }
  }

  /** `update` accepts exactly the bodies holding only a numeric `balance`. */
  lemma UpdateRuleExactly(body: Body, isEmail: string -> bool)
    ensures Accepts(Update, body, isEmail) <==>
      body.Keys <= {"balance"} && "balance" in body && body["balance"].JNumber?
  {
    if Accepts(Update, body, isEmail) {
      assert KeyAccepted(Update[0], body, isEmail);
      forall name | name in body ensures name == "balance" {
        assert Declares(Update, name);
      }
    }
    if body.Keys <= {"balance"} && "balance" in body && body["balance"].JNumber? {
      forall name | name in body ensures Declares(Update, name) {
        assert Update[0].name == name;
      }
      assert KeyAccepted(Update[0], body, isEmail);
    }
  }
}
