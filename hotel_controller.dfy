/** Hotel creation (controllers/hotel.controller.js) and the route that guards it
    (routes/hotel.routes.js). */
module HotelController {
  import opened Wrappers
  import opened Http
  import opened Models
  import opened Util
  import opened Store
  import opened HotelMiddleware
  import opened AuthMiddleware

  /** The caller resolves to a user whose type is `admin`. */
  predicate AdminCaller(users: map<Id, Account>, found: Option<Id>) {
    found.Some? && found.value in users && users[found.value].userType == Admin
  }

  /** `create`: an unknown caller gets 404, a caller who is not an admin 403; otherwise
      `Hotel.create` inserts the hotel as supplied, or fails schema validation (500). */
  method Create(db: Database, caller: string, hotelId: string, name: string, location: string, price: int, now: int)
    returns (r: Reply<Hotel>)
    requires db.Valid()
    modifies db
    ensures db.Valid()
    ensures db.users == old(db.users) && db.bookings == old(db.bookings)
    ensures old(BookingRefsResolve(db.bookings, db.hotels, db.users)) ==> BookingRefsResolve(db.bookings, db.hotels, db.users)
    ensures old(db.FindUserByUserId(caller)).None? ==> r == Err(404, UserNotFound)
    ensures (old(db.FindUserByUserId(caller)).Some? && !AdminCaller(old(db.users), old(db.FindUserByUserId(caller)))) ==>
      r == Err(403, NotAdmin)
    ensures (AdminCaller(old(db.users), old(db.FindUserByUserId(caller))) && !HotelRequired(NewHotel(hotelId, name, location, price, now))) ==>
      r == Err(500, ServerError)
    ensures r.Err? ==> db.hotels == old(db.hotels) && db.nextId == old(db.nextId)
    ensures r.Ok? <==>
      (AdminCaller(old(db.users), old(db.FindUserByUserId(caller))) && HotelRequired(NewHotel(hotelId, name, location, price, now)))
    ensures r.Ok? ==>
      && r == Ok(201, NewHotel(hotelId, name, location, price, now))
      && old(db.nextId) !in old(db.hotels) && db.nextId == old(db.nextId) + 1
      && db.hotels == old(db.hotels)[old(db.nextId) := r.data]
  {
    var user := db.FindUserByUserId(caller);
    if user.None? {
      return Err(404, UserNotFound);
    }
    if db.users[user.value].userType != Admin {
      return Err(403, NotAdmin);
    }
    var id := db.CreateHotel(NewHotel(hotelId, name, location, price, now));
    if id.None? {
      return Err(500, ServerError);
    }
    r := Ok(201, NewHotel(hotelId, name, location, price, now));
  }

  /** `POST /v1/hotels`: `verifyToken`, then `validateHotelCreateRequest`, then `create`.
      `caller` is the userId the token's signature check yields. The first refusal is the
      answer and leaves the catalog as it was. Behind the middleware `create` no longer
      fails on the schema, so an admitted request succeeds exactly for an admin caller.
      Hotels created through this route never duplicate a hotelId or a name. */
  method CreateHotelRoute(db: Database, token: Option<string>, caller: string, body: HotelBody, now: int)
    returns (r: Reply<Hotel>)
    requires db.Valid()
    modifies db
    ensures db.Valid()
    ensures db.users == old(db.users) && db.bookings == old(db.bookings)
    ensures VerifyToken(token).Refused? ==> r == Err(401, NoToken) && db.hotels == old(db.hotels)
    ensures (VerifyToken(token).CheckSignature? && old(ValidateHotelCreateRequest(db.hotels, body)).Reject?) ==>
      && r == Err(old(ValidateHotelCreateRequest(db.hotels, body)).code, old(ValidateHotelCreateRequest(db.hotels, body)).reason)
      && db.hotels == old(db.hotels)
    ensures (VerifyToken(token).CheckSignature? && old(ValidateHotelCreateRequest(db.hotels, body)) == Next) ==>
      && (old(db.FindUserByUserId(caller)).None? ==> r == Err(404, UserNotFound))
      && ((old(db.FindUserByUserId(caller)).Some? && !AdminCaller(old(db.users), old(db.FindUserByUserId(caller)))) ==>
            r == Err(403, NotAdmin))
      && (r.Ok? <==> AdminCaller(old(db.users), old(db.FindUserByUserId(caller))))
    ensures r.Err? ==> db.hotels == old(db.hotels) && db.nextId == old(db.nextId)
    ensures r.Ok? ==>
      && FieldsOk(body)
      && r.data == NewHotel(body.hotelId.s, body.name.s, body.location.s, body.price.n, now)
      && db.nextId == old(db.nextId) + 1
      && db.hotels == old(db.hotels)[old(db.nextId) := r.data]
    ensures old(UniqueCatalog(db.hotels)) ==> UniqueCatalog(db.hotels)
  {
    var check := VerifyToken(token);
    if check.Refused? {
      return Err(check.code, check.reason);
    }
    var verdict := ValidateHotelCreateRequest(db.hotels, body);
    if verdict.Reject? {
      return Err(verdict.code, verdict.reason);
    }
    ghost var before, id := db.hotels, db.nextId;
    AdmittedHotelMeetsSchema(body, now);
    r := Create(db, caller, body.hotelId.s, body.name.s, body.location.s, body.price.n, now);
    if r.Ok? && UniqueCatalog(before) {
      FreshHotelKeepsCatalogUnique(before, id, r.data);
    }
  }
}
