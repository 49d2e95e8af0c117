/** User sign-up (controllers/auth.controller.js), without the password hashing. */
module AuthController {
  import opened Wrappers
  import opened Js
  import opened Http
  import opened Models
  import opened Util
  import opened Store
  import opened AuthMiddleware
  import opened HotelController

  /** The fields `signup` answers with. */
  datatype AccountView = AccountView(name: string, userId: string, email: string, userType: UserType)

  /** The stored `type`: `req.body.type || "user"`, cast to a string and checked against
      the enum; None when the cast or the enum check fails. */
  function SignupType(v: Value): (t: Option<UserType>)
    ensures v in Falsy ==> t == Some(User)
    ensures v.Str? && v.s != "" ==> t == ParseUserType(v.s)
    ensures v !in Falsy && (v.Bool? || v.Num? || v.Obj?) ==> t.None?
  {
    if !Truthy(v) then Some(User)
    else if v.Obj? then None
    else ParseUserType(ToString(v))
  }

  /** `signup`: `User.create` with the supplied fields and the defaulted type; a schema or
      unique-index failure answers 500. `passwordHash` stands for the bcrypt hash. */
  method Signup(db: Database, name: string, userId: string, email: string, passwordHash: string, typeField: Value, now: int)
    returns (r: Reply<AccountView>)
    requires db.Valid()
    modifies db
    ensures db.Valid()
    ensures db.hotels == old(db.hotels) && db.bookings == old(db.bookings)
    ensures old(BookingRefsResolve(db.bookings, db.hotels, db.users)) ==> BookingRefsResolve(db.bookings, db.hotels, db.users)
    ensures r.Err? ==> r == Err(500, ServerError) && db.users == old(db.users) && db.nextId == old(db.nextId)
    ensures SignupType(typeField).None? ==> r.Err?
    ensures SignupType(typeField).Some? ==>
      var a := NewAccount(name, email, passwordHash, SignupType(typeField).value, userId, now);
      && (r.Ok? <==> AccountRequired(a) && !Taken(old(db.users), a))
      && (r.Ok? ==>
            && r == Ok(201, AccountView(name, userId, email, a.userType))
            && old(db.nextId) !in old(db.users) && db.nextId == old(db.nextId) + 1
            && db.users == old(db.users)[old(db.nextId) := a])
  {
    var t := SignupType(typeField);
    if t.None? {
      return Err(500, ServerError);
    }
    var id := db.CreateUser(NewAccount(name, email, passwordHash, t.value, userId, now));
    if id.None? {
      return Err(500, ServerError);
    }
    r := Ok(201, AccountView(name, userId, email, t.value));
  }

  /** A body that passes the presence checks of `validateSignupRequest`, as every body it
      lets through does, cast to strings and stored with a non-empty hash, meets the user
      schema's `required` rules: behind the middleware a sign-up fails on the enum, on a
      taken email or userId, or on a cast failure of an object name or userId, which
      Mongoose does not turn into text the way `String(...)` does. */
  lemma AdmittedSignupMeetsSchema(body: SignupBody, passwordHash: string, t: UserType, now: int)
    requires AllPresent(body) && passwordHash != ""
    ensures AccountRequired(NewAccount(ToString(body.name), ToString(body.email), passwordHash, t, ToString(body.userId), now))
  {
  }

  /** Nothing restricts who may ask for the admin type: `type: "admin"` in a sign-up body
      is stored as given, and the account it creates passes `create`'s admin check. */
  lemma SelfDeclaredAdmin(users: map<Id, Account>, u: Id)
    requires u in users && users[u].userType == SignupType(Str("admin")).value
    ensures SignupType(Str("admin")) == Some(Admin)
    ensures AdminCaller(users, Some(u))
  {
  }
}
