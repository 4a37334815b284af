/** The user record of models/user.model.js and the collection that holds it.

    The collection is a map from user id to record. Ids are handed out by a
    counter `nextId`, so that the order of ids is the order of insertion.
    MongoDB does not promise which document `findOne` returns when several
    match; the model assumes the first in insertion order, the match with the
    smallest id. Only the lemmas that single out one of several matches
    depend on this assumption. */
module UserModel {
  import opened Wrappers

  type UserId = nat

  /** One document of the `User` collection. `password` holds the bcrypt hash,
      never the plaintext. `resetToken`/`resetTokenExpire` are optional; the
      expiry is a timestamp in milliseconds. Creation and update timestamps
      are not modelled. */
  datatype User = User(
    email: string,
    username: string,
    password: string,
    resetToken: Option<string>,
    resetTokenExpire: Option<int>)

  /** The user collection: the documents and the id the next insert gets. */
  datatype Store = Store(users: map<UserId, User>, nextId: UserId)

  /** The minimum length of `password` in the schema. */
  const PasswordMinLength := 6

  /** `required: true` on a string path rejects the empty string; `password`
      also carries `minLength: 6`. */
  predicate SchemaValid(u: User)
  {
    && u.email != ""
    && u.username != ""
    && u.password != ""
    && |u.password| >= PasswordMinLength
  }

  /** Not demanded by the schema, but kept by every handler: a reset token is
      stored exactly when its expiry is. */
  predicate ResetFieldsPaired(u: User)
  {
    u.resetToken.Some? <==> u.resetTokenExpire.Some?
  }

  /** `unique: true` on `email`. */
  ghost predicate UniqueEmails(users: map<UserId, User>)
  {
    forall a, b :: a in users && b in users && users[a].email == users[b].email ==> a == b
  }

  /** `unique: true` on `username`. */
  ghost predicate UniqueUsernames(users: map<UserId, User>)
  {
    forall a, b :: a in users && b in users && users[a].username == users[b].username ==> a == b
  }

  /** Every id in use was handed out before `nextId`. */
  ghost predicate IdsBelowNext(s: Store)
  {
    forall id :: id in s.users ==> id < s.nextId
  }

  /** The store invariant: the schema's constraints on every document, the two
      unique indexes, and the id counter ahead of every id in use. */
  ghost predicate ValidStore(s: Store)
  {
    && IdsBelowNext(s)
    && (forall id :: id in s.users ==> SchemaValid(s.users[id]) && ResetFieldsPaired(s.users[id]))
    && UniqueEmails(s.users)
    && UniqueUsernames(s.users)
  }

  /** The query documents the controller passes to `User.findOne`. */
  datatype Filter =
    | ByEmail(email: string)                 // { email }
    | ByUsername(username: string)           // { username }
    | ByUsernameOrEmail(identifier: string)  // { $or: [{ username: x }, { email: x }] }

  predicate Matches(u: User, f: Filter)
  {
    match f
    case ByEmail(e) => u.email == e
    case ByUsername(n) => u.username == n
    case ByUsernameOrEmail(x) => u.username == x || u.email == x
  }

  /** Some document matches the filter. */
  ghost predicate AnyMatch(users: map<UserId, User>, f: Filter)
  {
    exists id :: id in users && Matches(users[id], f)
  }

  /** The first document with id in [from, bound) that matches `f`. */
  function FindFrom(users: map<UserId, User>, f: Filter, from: nat, bound: nat): (r: Option<UserId>)
    decreases bound - from
    ensures r.Some? ==> from <= r.value < bound && r.value in users && Matches(users[r.value], f)
    ensures r.Some? ==> forall id :: from <= id < r.value && id in users ==> !Matches(users[id], f)
    ensures r.None? ==> forall id :: from <= id < bound && id in users ==> !Matches(users[id], f)
  {
    if from >= bound then None
    else if from in users && Matches(users[from], f) then Some(from)
    else FindFrom(users, f, from + 1, bound)
  }

  /** `User.findOne(filter)`: a matching document, or nothing. Which one of
      several matches is returned is an assumption of the model: the first in
      insertion order. */
  function FindOne(s: Store, f: Filter): (r: Option<UserId>)
    ensures r.Some? ==> r.value in s.users && Matches(s.users[r.value], f)
    ensures r.Some? ==> forall id :: id < r.value && id in s.users ==> !Matches(s.users[id], f)
  {
    FindFrom(s.users, f, 0, s.nextId)
  }

  /** On a store whose ids are all below the counter, `findOne` finds a
      document exactly when one matches. */
  lemma FindOneComplete(s: Store, f: Filter)
    requires IdsBelowNext(s)
    ensures FindOne(s, f).None? <==> !AnyMatch(s.users, f)
  {
    if FindOne(s, f).None? {
      forall id | id in s.users ensures !Matches(s.users[id], f) {
        assert id < s.nextId;
      }
    }
  }

  /** Under the unique index on `email`, the document `findOne({ email })`
      returns is the only one with that email. */
  lemma FindByEmailUnique(s: Store, e: string, id: UserId)
    requires IdsBelowNext(s) && UniqueEmails(s.users)
    requires id in s.users && s.users[id].email == e
    ensures FindOne(s, ByEmail(e)) == Some(id)
  {
    FindOneComplete(s, ByEmail(e));
  }
}
