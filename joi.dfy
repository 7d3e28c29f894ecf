/**
 * The part of the joi validation library the schemas of this system use, as an
 * interpreter of declarative object schemas. Joi's defaults are modelled: keys a
 * schema does not declare are rejected, `string()` rejects the empty string, and
 * a value that matches an entry of a `valid(...)` list is accepted without the
 * type's own checks while any other value is rejected.
 */
module Joi {
  import opened Json
  import opened Wrappers

  /** An entry of a `valid(...)` list: a literal value, or `joi.ref(key)` naming a sibling key. */
  datatype Allowed = Literal(value: Value) | Ref(key: string)

  /**
   * `joi.string()` with the rules chained on it: `.email()` when `email` holds,
   * `.min(min)` (0 when absent) and `.max(n)` when `max` is `Some(n)`; or `joi.number()`.
   */
  datatype Kind = String(email: bool, min: nat, max: Option<nat>) | Number

  /** One key of a `joi.object({...})`: its type, whether it is `.required()`, and its `valid(...)` list ([] when there is none). */
  datatype Key = Key(name: string, kind: Kind, required: bool, only: seq<Allowed>)

  type Schema = seq<Key>

  /** `isEmail` is the address-format check behind `.email()`, left uninterpreted. */
  predicate KindAccepts(kind: Kind, v: Value, isEmail: string -> bool)
  {
    match kind
    case String(email, min, max) =>
      && v.JString? && v.s != ""
      && (email ==> isEmail(v.s))
      && min <= |v.s|
      && (max.Some? ==> |v.s| <= max.value)
    case Number => v.JNumber?
  }

  /** A reference resolves against the other keys of the same body; an absent key resolves to nothing. */
  predicate Matches(a: Allowed, v: Value, body: Body)
  {
    match a
    case Literal(x) => v == x
    case Ref(k) => k in body && body[k] == v
  }

  predicate ValueAccepted(key: Key, v: Value, body: Body, isEmail: string -> bool)
  {
    if key.only != [] then exists a :: a in key.only && Matches(a, v, body)
    else KindAccepts(key.kind, v, isEmail)
  }

  predicate KeyAccepted(key: Key, body: Body, isEmail: string -> bool)
  {
    if key.name in body then ValueAccepted(key, body[key.name], body, isEmail) else !key.required
  }

  predicate Declares(schema: Schema, name: string)
  {
    exists key :: key in schema && key.name == name
  }

  /** `schema.validate(body)` reports no error. */
  predicate Accepts(schema: Schema, body: Body, isEmail: string -> bool)
  {
    && (forall name :: name in body ==> Declares(schema, name))
    && (forall key :: key in schema ==> KeyAccepted(key, body, isEmail))
  }
}
