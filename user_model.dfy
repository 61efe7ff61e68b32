/** The `User` record (models/User.js) and the users collection it is stored in. */
module UserModel {

  import opened Wrappers

  /** A document id (`_id`), compared as its string form. */
  type Id = string

  /** A point in time, in milliseconds since the epoch. */
  type Time = int

  /** One stored user. `password` is optional because the listing query has to filter out
      documents without one; every user this model creates has one. */
  datatype User = User(
    id: Id,
    name: string,
    email: string,
    password: Option<string>,
    otp: Option<string>,
    otpExpiry: Option<Time>,
    isVerified: bool,
    isAdmin: bool,
    createdAt: Time)

  /** A user as the authentication middleware loads it: without `password`, `otp` and
      `otpExpiry`. */
  datatype Principal = Principal(
    id: Id,
    name: string,
    email: string,
    isVerified: bool,
    isAdmin: bool,
    createdAt: Time)

  /** `select('-password -otp -otpExpiry')`. */
  function Public(u: User): (p: Principal)
    ensures p.id == u.id && p.email == u.email && p.isAdmin == u.isAdmin
  {
    Principal(u.id, u.name, u.email, u.isVerified, u.isAdmin, u.createdAt)
  }

  /** The schema's `required` validators, checked on every save: `name`, `email` and
      `password` must be present and non-empty. */
  predicate SchemaValid(u: User) {
    u.name != "" && u.email != "" && u.password.Some? && u.password.value != ""
  }

  /** A user built with `new User({...})`: the given fields, and the schema defaults for
      the rest (`otp` and `otpExpiry` null, `isVerified` and `isAdmin` false unless given). */
  function NewUser(id: Id, name: string, email: string, password: string, otp: Option<string>,
                   otpExpiry: Option<Time>, isVerified: Option<bool>, isAdmin: Option<bool>,
                   now: Time): (u: User)
    ensures u.id == id && u.name == name && u.email == email && u.password == Some(password)
    ensures u.otp == otp && u.otpExpiry == otpExpiry && u.createdAt == now
    ensures u.isVerified == (isVerified.Some? && isVerified.value)
    ensures u.isAdmin == (isAdmin.Some? && isAdmin.value)
  {
    User(id, name, email, Some(password), otp, otpExpiry, isVerified.GetOr(false),
         isAdmin.GetOr(false), now)
  }

  /** The unique index on `email`, and distinct document ids. */
  ghost predicate Unique(rows: seq<User>) {
    && (forall i, j :: 0 <= i < j < |rows| ==> rows[i].email != rows[j].email)
    && (forall i, j :: 0 <= i < j < |rows| ==> rows[i].id != rows[j].id)
  }

  /** `User.findOne({ email })`: the first user with that email. */
  function FindByEmail(rows: seq<User>, email: string): (r: Option<nat>)
    ensures r.Some? ==> r.value < |rows| && rows[r.value].email == email
    ensures r.Some? ==> forall j :: 0 <= j < r.value ==> rows[j].email != email
    ensures r.None? ==> forall j :: 0 <= j < |rows| ==> rows[j].email != email
  {
    if |rows| == 0 then None
    else if rows[0].email == email then Some(0)
    else
      match FindByEmail(rows[1..], email)
      case None => None
      case Some(i) => Some(i + 1)
  }

  /** `User.findById(id)`. */
  function FindById(rows: seq<User>, id: Id): (r: Option<nat>)
    ensures r.Some? ==> r.value < |rows| && rows[r.value].id == id
    ensures r.None? ==> forall j :: 0 <= j < |rows| ==> rows[j].id != id
  {
    if |rows| == 0 then None
    else if rows[0].id == id then Some(0)
    else
      match FindById(rows[1..], id)
      case None => None
      case Some(i) => Some(i + 1)
  }

  /** Replacing a user by one with the same email and id keeps the collection unique. */
  lemma ReplaceKeepsUnique(rows: seq<User>, i: nat, u: User)
    requires Unique(rows) && i < |rows|
    requires u.email == rows[i].email && u.id == rows[i].id
    ensures Unique(rows[i := u])
  {
    var r := rows[i := u];
    forall a, b | 0 <= a < b < |r| ensures r[a].email != r[b].email && r[a].id != r[b].id {
      assert r[a].email == rows[a].email && r[b].email == rows[b].email;
      assert r[a].id == rows[a].id && r[b].id == rows[b].id;
    }
  }

  /** Appending a user whose email and id are new keeps the collection unique. */
  lemma AppendKeepsUnique(rows: seq<User>, u: User)
    requires Unique(rows)
    requires forall j :: 0 <= j < |rows| ==> rows[j].email != u.email && rows[j].id != u.id
    ensures Unique(rows + [u])
  {
  }

  /** The users collection. */
  class UserCollection {
    var rows: seq<User>

    ghost predicate Valid()
      reads this
    {
      Unique(rows)
    }

    constructor(initial: seq<User>)
      requires Unique(initial)
      ensures Valid() && rows == initial
    {
      rows := initial;
    }

    /** `user.save()` of a changed user: the document at `i` is replaced. */
    method Replace(i: nat, u: User)
      requires Valid() && i < |rows|
      requires u.email == rows[i].email && u.id == rows[i].id
      modifies this
      ensures Valid() && rows == old(rows)[i := u]
    {
      ReplaceKeepsUnique(rows, i, u);
      rows := rows[i := u];
    }

    /** `user.save()` of a new user. */
    method Insert(u: User)
      requires Valid()
      requires forall j :: 0 <= j < |rows| ==> rows[j].email != u.email && rows[j].id != u.id
      modifies this
      ensures Valid() && rows == old(rows) + [u]
    {
      AppendKeepsUnique(rows, u);
      rows := rows + [u];
    }
  }
}
