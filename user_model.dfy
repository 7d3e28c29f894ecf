/** The user document of the user service and the joi rules its routes validate bodies with. */
module UserModel {
  import opened Json
  import opened Joi
  import opened Wrappers

  /** The values the schema's `gender` enum admits. */
  const Genders: seq<string> := ["Male", "Female"]

  /** A user document; the password and the identity token are stored hashed. Timestamps are not modelled. */
  datatype User = User(idToken: string, fullName: string, email: string, gender: string, password: string)

  /** `new User({email, idToken, password})`: the schema supplies the defaults of the other fields. */
  function NewUser(email: string, idToken: string, password: string): User
  {
    User(idToken, "", email, "Male", password)
  }

  /** What Mongoose's validation demands of a user on save: the required strings are non-empty and the gender is in the enum. */
  predicate Conforms(u: User)
  {
    u.idToken != "" && u.email != "" && u.password != "" && u.gender in Genders
  }

  const Create: Schema := [
    Key("email", String(true, 0, Some(50)), true, []),
    Key("password", String(false, 6, None), true, [])
  ]

  const Update: Schema := [
    Key("email", String(true, 0, Some(50)), false, []),
    Key("fullName", String(false, 0, Some(100)), false, []),
    Key("currentPassword", String(false, 0, None), false, []),
    Key("password", String(false, 6, None), false, []),
    Key("confirmPassword", String(false, 0, None), false, [Ref("password")]),
    Key("gender", String(false, 0, None), false, [Literal(JString("Male")), Literal(JString("Female"))])
  ]

  const InitiatePasswordReset: Schema := [
    Key("email", String(true, 0, Some(50)), true, [])
  ]

  const FinalizePasswordReset: Schema := [
    Key("newPassword", String(false, 6, None), true, []),
    Key("confirmPassword", String(false, 0, None), true, [Ref("newPassword")]),
    Key("verificationCode", String(false, 0, None), true, [])
  ]

  /** A string of email format that `.email().max(50)` admits. */
  predicate EmailField(v: Value, isEmail: string -> bool)
  {
    v.JString? && v.s != "" && isEmail(v.s) && |v.s| <= 50
  }

  /** A new document takes the schema defaults, and it passes the schema's validation exactly when its three required strings are non-empty. */
  lemma NewUserDefaults(email: string, idToken: string, password: string)
    ensures NewUser(email, idToken, password).fullName == ""
    ensures NewUser(email, idToken, password).gender == "Male"
    ensures Conforms(NewUser(email, idToken, password)) <==> email != "" && idToken != "" && password != ""
  {
  }

  /** `create` accepts exactly the bodies with an email-formatted `email` of at most 50 characters and a `password` of at least 6, and nothing else. */
  lemma CreateRuleExactly(body: Body, isEmail: string -> bool)
    ensures Accepts(Create, body, isEmail) <==>
      && body.Keys <= {"email", "password"}
      && "email" in body && EmailField(body["email"], isEmail)
      && "password" in body && body["password"].JString? && |body["password"].s| >= 6
  {
    if Accepts(Create, body, isEmail) {
      assert KeyAccepted(Create[0], body, isEmail);
      assert KeyAccepted(Create[1], body, isEmail);
      forall name | name in body ensures name in {"email", "password"} {
        assert Declares(Create, name);
      }
    }
    if && body.Keys <= {"email", "password"}
       && "email" in body && EmailField(body["email"], isEmail)
       && "password" in body && body["password"].JString? && |body["password"].s| >= 6
    {
      forall name | name in body ensures Declares(Create, name) {
        assert Create[if name == "email" then 0 else 1].name == name;
      }
      assert KeyAccepted(Create[0], body, isEmail);
      assert KeyAccepted(Create[1], body, isEmail);
    }
  }

  /** `update` makes every key optional; each key that is present must meet its own rule, and `confirmPassword` must equal `password`. */
  lemma UpdateRuleExactly(body: Body, isEmail: string -> bool)
    ensures Accepts(Update, body, isEmail) <==>
      && body.Keys <= {"email", "fullName", "currentPassword", "password", "confirmPassword", "gender"}
      && ("email" in body ==> EmailField(body["email"], isEmail))
      && ("fullName" in body ==> body["fullName"].JString? && body["fullName"].s != "" && |body["fullName"].s| <= 100)
      && ("currentPassword" in body ==> body["currentPassword"].JString? && body["currentPassword"].s != "")
      && ("password" in body ==> body["password"].JString? && |body["password"].s| >= 6)
      && ("confirmPassword" in body ==> "password" in body && body["confirmPassword"] == body["password"])
      && ("gender" in body ==> body["gender"].JString? && body["gender"].s in Genders)
  {
    var names := {"email", "fullName", "currentPassword", "password", "confirmPassword", "gender"};
    UpdateKeys(body, isEmail);
    assert (forall key :: key in Update ==> KeyAccepted(key, body, isEmail)) <==>
      forall i :: 0 <= i < |Update| ==> KeyAccepted(Update[i], body, isEmail)
    by {
      if forall i :: 0 <= i < |Update| ==> KeyAccepted(Update[i], body, isEmail) {
        forall key | key in Update ensures KeyAccepted(key, body, isEmail) {
          var i :| 0 <= i < |Update| && Update[i] == key;
        }
      }
    }
    assert (forall name :: name in body ==> Declares(Update, name)) <==> body.Keys <= names by {
      if body.Keys <= names {
        forall name | name in body ensures Declares(Update, name) {
          var i := if name == "email" then 0 else if name == "fullName" then 1 else if name == "currentPassword" then 2
            else if name == "password" then 3 else if name == "confirmPassword" then 4 else 5;
          assert Update[i].name == name;
        }
      }
    }
  }

  /** The `update` rule key by key. */
  lemma UpdateKeys(body: Body, isEmail: string -> bool)
    ensures KeyAccepted(Update[0], body, isEmail) <==> ("email" in body ==> EmailField(body["email"], isEmail))
    ensures KeyAccepted(Update[1], body, isEmail) <==>
      ("fullName" in body ==> body["fullName"].JString? && body["fullName"].s != "" && |body["fullName"].s| <= 100)
    ensures KeyAccepted(Update[2], body, isEmail) <==>
      ("currentPassword" in body ==> body["currentPassword"].JString? && body["currentPassword"].s != "")
    ensures KeyAccepted(Update[3], body, isEmail) <==>
      ("password" in body ==> body["password"].JString? && |body["password"].s| >= 6)
    ensures KeyAccepted(Update[4], body, isEmail) <==>
      ("confirmPassword" in body ==> "password" in body && body["confirmPassword"] == body["password"])
    ensures KeyAccepted(Update[5], body, isEmail) <==>
      ("gender" in body ==> body["gender"].JString? && body["gender"].s in Genders)
  {
    if "confirmPassword" in body {
      assert Matches(Update[4].only[0], body["confirmPassword"], body) <==>
        "password" in body && body["confirmPassword"] == body["password"];
    }
    if "gender" in body && body["gender"].JString? && body["gender"].s in Genders {
      assert Matches(Update[5].only[if body["gender"].s == "Male" then 0 else 1], body["gender"], body);
    }
  }

  /** The gender values the `update` rule admits are exactly the schema's enum. */
  lemma UpdateGenderIsSchemaEnum(g: Value, isEmail: string -> bool)
    ensures Accepts(Update, map["gender" := g], isEmail) <==> g.JString? && g.s in Genders
  {
    UpdateRuleExactly(map["gender" := g], isEmail);
  }

  /** `initiatePasswordReset` accepts exactly the bodies holding only an email-formatted `email` of at most 50 characters. */
  lemma InitiatePasswordResetRuleExactly(body: Body, isEmail: string -> bool)
    ensures Accepts(InitiatePasswordReset, body, isEmail) <==>
      body.Keys <= {"email"} && "email" in body && EmailField(body["email"], isEmail)
  {
    if Accepts(InitiatePasswordReset, body, isEmail) {
      assert KeyAccepted(InitiatePasswordReset[0], body, isEmail);
      forall name | name in body ensures name == "email" {
        assert Declares(InitiatePasswordReset, name);
      }
    }
    if body.Keys <= {"email"} && "email" in body && EmailField(body["email"], isEmail) {
      forall name | name in body ensures Declares(InitiatePasswordReset, name) {
        assert InitiatePasswordReset[0].name == name;
      }
      assert KeyAccepted(InitiatePasswordReset[0], body, isEmail);
    }
  }

  /** `finalizePasswordReset` demands a `newPassword` of at least 6 characters, an equal `confirmPassword` and a non-empty `verificationCode`. */
  lemma FinalizePasswordResetRuleExactly(body: Body, isEmail: string -> bool)
    ensures Accepts(FinalizePasswordReset, body, isEmail) <==>
      && body.Keys <= {"newPassword", "confirmPassword", "verificationCode"}
      && "newPassword" in body && body["newPassword"].JString? && |body["newPassword"].s| >= 6
      && "confirmPassword" in body && body["confirmPassword"] == body["newPassword"]
      && "verificationCode" in body && body["verificationCode"].JString? && body["verificationCode"].s != ""
  {
    if Accepts(FinalizePasswordReset, body, isEmail) {
      assert KeyAccepted(FinalizePasswordReset[0], body, isEmail);
      assert KeyAccepted(FinalizePasswordReset[1], body, isEmail);
      assert KeyAccepted(FinalizePasswordReset[2], body, isEmail);
      forall name | name in body ensures name in {"newPassword", "confirmPassword", "verificationCode"} {
        assert Declares(FinalizePasswordReset, name);
      }
    }
    if && body.Keys <= {"newPassword", "confirmPassword", "verificationCode"}
       && "newPassword" in body && body["newPassword"].JString? && |body["newPassword"].s| >= 6
       && "confirmPassword" in body && body["confirmPassword"] == body["newPassword"]
       && "verificationCode" in body && body["verificationCode"].JString? && body["verificationCode"].s != ""
    {
      forall name | name in body ensures Declares(FinalizePasswordReset, name) {
        var i := if name == "newPassword" then 0 else if name == "confirmPassword" then 1 else 2;
        assert FinalizePasswordReset[i].name == name;
      }
      assert Matches(FinalizePasswordReset[1].only[0], body["confirmPassword"], body);
      assert KeyAccepted(FinalizePasswordReset[0], body, isEmail);
      assert KeyAccepted(FinalizePasswordReset[1], body, isEmail);
      assert KeyAccepted(FinalizePasswordReset[2], body, isEmail);
    }
  }
}
