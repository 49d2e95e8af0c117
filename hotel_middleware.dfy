/** The admission checks in front of hotel creation (middlewares/hotel.middleware.js). */
module HotelMiddleware {
  import opened Js
  import opened Http
  import opened Models

  /** The request-body fields the middleware looks at, as JSON values. */
  datatype HotelBody = HotelBody(hotelId: Value, name: Value, price: Value, location: Value)

  /** A string with at least one character that is not whitespace. */
  predicate Filled(v: Value) {
    v.Str? && exists k :: 0 <= k < |v.s| && !IsWhitespace(v.s[k])
  }

  /** The guard `!v || typeof v !== 'string' || v.trim() === ''`. */
  function BlankOrNotString(v: Value): (bad: bool)
    ensures bad <==> !Filled(v)
  {
    !Truthy(v) || TypeOf(v) != "string" || Trim(v.s) == ""
  }

  /** The guard `!v || typeof v !== 'number'`. */
  function BadPrice(v: Value): (bad: bool)
    ensures bad <==> !(v.Num? && v.n != 0)
  {
    !Truthy(v) || TypeOf(v) != "number"
  }

  /** All four field checks pass. */
  predicate FieldsOk(body: HotelBody) {
    Filled(body.hotelId) && Filled(body.name) && body.price.Num? && body.price.n != 0 && Filled(body.location)
  }

  /** `validateHotelCreateRequest`: the field checks in the order hotelId, name, price,
      location, then the hotelId and name lookups. It reads the catalog and changes nothing. */
  function ValidateHotelCreateRequest(hotels: map<Id, Hotel>, body: HotelBody): (r: Verdict)
    ensures !Filled(body.hotelId) ==> r == Reject(400, InvalidField("hotelId"))
    ensures Filled(body.hotelId) && !Filled(body.name) ==> r == Reject(400, InvalidField("name"))
    ensures Filled(body.hotelId) && Filled(body.name) && !(body.price.Num? && body.price.n != 0) ==>
      r == Reject(400, InvalidField("price"))
    ensures Filled(body.hotelId) && Filled(body.name) && body.price.Num? && body.price.n != 0 && !Filled(body.location) ==>
      r == Reject(400, InvalidField("location"))
    ensures FieldsOk(body) && HotelIdTaken(hotels, body.hotelId.s) ==> r == Reject(400, DuplicateHotelId)
    ensures FieldsOk(body) && !HotelIdTaken(hotels, body.hotelId.s) && HotelNameTaken(hotels, body.name.s) ==>
      r == Reject(400, DuplicateHotelName)
    ensures r == Next <==> FieldsOk(body) && !HotelIdTaken(hotels, body.hotelId.s) && !HotelNameTaken(hotels, body.name.s)
  {
    if BlankOrNotString(body.hotelId) then Reject(400, InvalidField("hotelId"))
    else if BlankOrNotString(body.name) then Reject(400, InvalidField("name"))
    else if BadPrice(body.price) then Reject(400, InvalidField("price"))
    else if BlankOrNotString(body.location) then Reject(400, InvalidField("location"))
    else if HotelIdTaken(hotels, body.hotelId.s) then Reject(400, DuplicateHotelId)
    else if HotelNameTaken(hotels, body.name.s) then Reject(400, DuplicateHotelName)
    else Next
  }

  /** A body that passes the four field checks, as every body the middleware lets through
      does, makes a hotel that meets the schema's `required` rules: behind this middleware
      `Hotel.create` never fails on them. */
  lemma AdmittedHotelMeetsSchema(body: HotelBody, now: int)
    requires FieldsOk(body)
    ensures HotelRequired(NewHotel(body.hotelId.s, body.name.s, body.location.s, body.price.n, now))
  {
    assert body.hotelId.s != "" && body.name.s != "" && body.location.s != "";
  }
}
