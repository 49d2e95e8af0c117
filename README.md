# Hotel booking backend: reservation ledger and admission checks

This project is a Dafny model of the core of a small Express/Mongoose hotel-booking
service. It covers four parts:

- **The reservation ledger.** `bookHotel` checks the date, resolves the hotel and the
  caller, and refuses a (hotel, instant) slot that is already taken. Otherwise it inserts a
  booking and appends its id to the caller's booking list. `getBookingsByUser` walks that
  list in order.
- **Hotel admission.** This is the `validateHotelCreateRequest` middleware followed by
  the admin-only `create` controller.
- **The request validators.** These are the booking, sign-in and sign-up presence checks,
  the missing-token branch of `verifyToken`, and the password and email validators of
  `utils/util.js`.
- **The three record types.** These are the user, hotel and booking records, with the
  constraints their schemas declare.

The database is the class `Store.Database`:

- It holds one map per table, keyed by ObjectId.
- One counter hands out the ids, so the id order is the insertion order.
- `findOne` is modelled as "the earliest-inserted match".
- Its `Valid()` invariant covers three things: every id was handed out before the
  counter, every required string is non-empty, and email and userId are unique among
  users.

The controllers are module-level methods that take the `Database` as a parameter. They
have `modifies` frames, and their `ensures` state the new state of every table and of the
id counter on every exit. The middlewares and validators are
pure functions over a table and the request body. Body fields are JSON values
(`Js.Value`), because truthiness, `typeof`, `String(...)`, `trim` and `toLowerCase`
decide their outcomes.

The main results:

- **Slots stay single.** `BookHotel` keeps "at most one booking per (hotel, instant)",
  which nothing but its own lookup enforces. A slot is a hotel and an exact millisecond
  timestamp, not a calendar day: `2024-07-01` and `2024-07-01T00:00:01Z` are two slots.
- **Booking refuses without writing.** It answers each error in the handler's order and
  changes nothing when it refuses.
- **A booking is listed.** On success, the new booking's entry appears at the end of the
  caller's listing.
- **The listing's meaning.** `GetBookingsByUser` is proved against `Stays`.
  `StaysMeaning` characterises `Stays` against an independent filter, `Resolved`: an
  entry per resolving id, in order. The listing fails exactly when some booking's hotel
  is gone.
- **Email validation.** It is characterised without the split points of the pattern's
  repeated groups in the local part and the host name (`ValidateEmailMeaning`). The
  bracketed dotted quad keeps its existential over dot positions.
- **Password validation.** It is characterised as the five plain conditions, with the
  length counted in UTF-16 code units as JavaScript counts it.
- **Catalog uniqueness.** Hotels admitted through `POST /v1/hotels` never duplicate a
  hotelId or a name, for requests handled one at a time. Behind the middleware the
  schema's `required` rules cannot fail for string fields, so an admitted request
  succeeds exactly for an admin caller.

## Model

| member | source | states |
|---|---|---|
| Js.Truthy | middlewares/booking.middleware.js:9 | a value is truthy exactly when it is not undefined, null, false, 0 or "" |
| Js.TypeOf | middlewares/hotel.middleware.js:12 | `typeof` is "string" exactly for strings and "number" exactly for numbers |
| Js.TrimStart | middlewares/hotel.middleware.js:12 | drops a whitespace prefix and keeps a suffix that does not start with whitespace |
| Js.TrimEnd | middlewares/hotel.middleware.js:12 | drops a whitespace suffix and keeps a prefix that does not end with whitespace |
| Js.Trim | middlewares/hotel.middleware.js:12 | `trim()` is empty exactly when the string is all whitespace; a non-empty result neither starts nor ends with whitespace |
| Js.NatToString | utils/util.js:8 | a number's decimal text is non-empty digits that denote the number, with a leading 0 only in "0" itself |
| Js.Utf16Length | utils/util.js:22 | a string's JavaScript length lies between its character count and twice that |
| Js.Utf16LengthOfBmp | utils/util.js:22 | within the Basic Multilingual Plane the JavaScript length is the character count |
| Js.ToString | utils/util.js:8 | `String(v)` leaves strings unchanged; a number's text starts with '-' exactly when it is negative; the result is empty only for the empty string |
| Js.Lower | utils/util.js:9 | `toLowerCase()` keeps the length and every non-capital, and turns every capital into a lower-case letter |
| Js.LowerIdempotent | utils/util.js:9 | lower-casing twice is lower-casing once |
| EmailPattern.DotRunsShape | utils/util.js:11 | `(\.X+)*` matches exactly the empty string or a dot followed by dot-separated runs |
| EmailPattern.DottedRunsShape | utils/util.js:11 | `X+(\.X+)*` matches exactly non-empty runs separated by single dots |
| EmailPattern.RunsDottedIsDotSeparated | utils/util.js:11 | a string matched by `(X+\.)+` is dot-separated runs ending in a dot |
| EmailPattern.DotSeparatedIsRunsDotted | utils/util.js:11 | dot-separated runs followed by a dot are matched by `(X+\.)+` |
| EmailPattern.HostNameShape | utils/util.js:11 | the host alternative matches exactly dot-separated `[a-z0-9-]` labels, a dot, then two or more letters |
| Util.ParseUserType | utils/util.js:36-39 | exactly "admin" and "user" name a user type, each naming one |
| Util.ValidatePassword | utils/util.js:21-24 | accepted iff at least 8 UTF-16 code units, no line terminator, and a digit, one of `!@#$%^&*`, a lower-case and an upper-case letter |
| Util.PasswordWithLineTerminatorRejected | utils/util.js:22 | a password with a line terminator anywhere is refused |
| Util.AstralPasswordAccepted | utils/util.js:22 | six characters of which two lie outside the Basic Multilingual Plane make eight code units, enough for `.{8,}` |
| Util.FixturePasswordAccepted | tests/controllers/book.controller.test.js:26 | the fixture password is accepted |
| Util.ValidateEmail | utils/util.js:7-13 | an accepted address holds an `@` after lower-casing |
| Util.EmailIgnoresCase | utils/util.js:8-9 | an address and its lower-cased spelling get the same verdict |
| Util.MatchesHasShape | utils/util.js:11 | a string the pattern matches has the plain email shape |
| Util.ShapeMatches | utils/util.js:11 | a string with the plain email shape is matched by the pattern |
| Util.ValidateEmailMeaning | utils/util.js:7-13 | accepted iff the lower-cased text has an `@` splitting it into a local part (dot-separated runs, or one single-code-unit character and a quoted string) and a dotted-quad or labels-then-TLD domain |
| Util.ShapedLowerCaseAccepted | utils/util.js:7-13 | a lower-case address with the shape is accepted |
| Util.PlainAddressAccepted | tests/controllers/book.controller.test.js:22 | every `local@host.tld` of allowed lower-case characters is accepted, the fixture address among them |
| Util.BareQuotedLocalRefused | utils/util.js:11 | an address starting with a quote followed by any non-quote character is refused |
| Util.AstralLeadingCharRefused | utils/util.js:11 | an address starting with a character outside the Basic Multilingual Plane and then a quote is refused, since `.` takes only its first code unit |
| Util.LeadingCharQuotedLocalAccepted | utils/util.js:11 | a quoted local part behind one extra single-code-unit character is accepted |
| Models.FreshHotelKeepsCatalogUnique | middlewares/hotel.middleware.js:47-69 | a hotel whose hotelId and name are both untaken, added under a fresh id, keeps hotelIds and names unique |
| Store.FindFirst | controllers/booking.controller.js:46-48 | finds the least id in range whose record matches, or reports that none matches |
| Store.Database.FindHotelByHotelId | controllers/booking.controller.js:46-48 | finds a hotel with that hotelId, or none exists |
| Store.Database.FindUserByUserId | controllers/booking.controller.js:61-63 | finds a user with that userId, or none exists |
| Store.Database.FindBookingBySlot | controllers/booking.controller.js:66-69 | finds a booking for that hotel and date, or none exists |
| Store.Database.CreateBooking | controllers/booking.controller.js:85 | inserts the booking under a fresh id with no slot check; other tables unchanged |
| Store.Database.CreateHotel | models/hotel.model.js:18-35 | refuses a hotel with an empty required field; otherwise inserts it under a fresh id |
| Store.Database.CreateUser | models/user.model.js:3-26 | refuses an empty required field or a taken email or userId; otherwise inserts under a fresh id |
| Store.Database.PushUserBooking | controllers/booking.controller.js:88-89 | appends the id to the end of one user's list; nothing else changes |
| HotelMiddleware.BlankOrNotString | middlewares/hotel.middleware.js:12 | the guard fails exactly when the value is not a string with a non-whitespace character |
| HotelMiddleware.BadPrice | middlewares/hotel.middleware.js:30 | the price guard fails exactly when the value is not a non-zero number |
| HotelMiddleware.AdmittedHotelMeetsSchema | middlewares/hotel.middleware.js:10-45 | a body that passes the four field checks, as every admitted body does, makes a hotel that meets the schema's `required` rules |
| HotelMiddleware.ValidateHotelCreateRequest | middlewares/hotel.middleware.js:10-78 | the first failing check decides, in the order hotelId, name, price, location, duplicate hotelId, duplicate name; `next` iff all pass |
| BookingMiddleware.ValidateBookingRequest | middlewares/booking.middleware.js:8-17 | `next` iff both hotelId and date are truthy, else 400 |
| AuthMiddleware.ValidateSigninRequest | middlewares/auth.middleware.js:13-21 | `next` iff both email and password are truthy, else 400 |
| AuthMiddleware.ValidateSignupRequest | middlewares/auth.middleware.js:31-62 | presence, then registered email, then email format, then password format; `next` iff all pass |
| AuthMiddleware.SignupSeesOnlyEmails | middlewares/auth.middleware.js:39-45 | two user tables with the same emails give the same verdict, so userId uniqueness is not checked |
| AuthMiddleware.BlankSignupFieldsArePresent | middlewares/auth.middleware.js:32-37 | fields of spaces only pass the presence checks |
| AuthMiddleware.VerifyToken | middlewares/auth.middleware.js:71-80 | a missing or empty token is refused with 401; any other token goes on to the signature check |
| BookingController.Stays | controllers/booking.controller.js:131-151 | a successful listing has no more entries than the user has ids |
| BookingController.Resolved | controllers/booking.controller.js:136-142 | the ids kept are at most the ids given, and each names a booking |
| BookingController.StaysMeaning | controllers/booking.controller.js:131-151 | the listing fails iff some listed booking's hotel is gone; otherwise one entry per resolving id, in order, from that booking's hotel and date |
| BookingController.StaysFailIffDangling | controllers/booking.controller.js:144-146 | the listing fails exactly when some listed booking names a hotel that is gone |
| BookingController.StaysEntries | controllers/booking.controller.js:135-150 | a successful listing has one entry per resolving id, in order, built from that booking's hotel and date |
| BookingController.ListingSucceedsWhenHotelsResolve | controllers/booking.controller.js:144-150 | while every booking's hotel resolves, the listing succeeds with one entry per resolving id |
| BookingController.StaysIgnoreOtherIds | controllers/booking.controller.js:135-151 | a booking under an id the list does not mention leaves the listing unchanged |
| BookingController.StaysFailureSticks | controllers/booking.controller.js:144-146 | once the walk meets a booking without a hotel, no later id can rescue the listing |
| BookingController.NewBookingListed | controllers/booking.controller.js:85-89 | a fresh booking appended to the list adds its entry at the end of the listing |
| BookingController.FreeSlotKeepsSlotsUnique | controllers/booking.controller.js:66-85 | inserting into a free slot keeps at most one booking per (hotel, instant) |
| BookingController.RecordBooking | controllers/booking.controller.js:85-89 | inserts one booking under a fresh id and appends that id to the booker's list; hotels unchanged, a free slot keeps slots single, references keep resolving, and the listing gains the new entry at its end |
| BookingController.BookHotel | controllers/booking.controller.js:11-114 | date 400, hotel 404, user 500, slot taken 400 in that order, none changing the store; else exactly one booking under the next id and one list append, a 201 echoing the date text, the slot invariant kept and the entry listed |
| BookingController.GetBookingsByUser | controllers/booking.controller.js:116-167 | unknown user 404; else 200 with the listing, or 500 when a listed booking's hotel is gone; reads only |
| HotelController.Create | controllers/hotel.controller.js:10-72 | unknown caller 404, non-admin 403, empty required field 500, none changing the catalog; else one hotel inserted as supplied and returned with 201 |
| HotelController.CreateHotelRoute | routes/hotel.routes.js:18 | token 401, then the middleware's refusal, then unknown caller 404 and non-admin 403, none changing the catalog; an admitted request from an admin always inserts the hotel with 201; catalog uniqueness is kept |
| AuthController.SignupType | controllers/auth.controller.js:20 | a falsy type becomes "user", a string is checked against the enum, and any other value is refused |
| AuthController.Signup | controllers/auth.controller.js:13-49 | inserts the user with the defaulted type unless a required field is empty or email/userId is taken (500) |
| AuthController.SelfDeclaredAdmin | controllers/auth.controller.js:20 | a sign-up body with `type: "admin"` gets the admin type, and an account stored with it passes `create`'s admin check |
| AuthController.AdmittedSignupMeetsSchema | middlewares/auth.middleware.js:32-37 | a body that passes the sign-up presence checks, as every admitted body does, cast with `String(...)` and stored with a non-empty hash, meets the user schema's `required` rules; an object name or userId instead fails Mongoose's cast (500) |

## Behaviour worth knowing

The model follows the code in each of these cases:

- **Booking dates.** `bookHotel` compares the parsed date with the current instant as
  millisecond timestamps (controllers/booking.controller.js:32). It does not compare
  calendar days, so a date-only text for the current day, which parses to midnight UTC,
  is refused.
- **Unknown booker.** An unknown caller does not get a "not found" answer. `user._id`
  throws (controllers/booking.controller.js:73), so the answer is 500. This happens after
  the hotel and slot lookups, and no booking is created.
- **Booking whose hotel is gone.** `getBookingsByUser` skips a listed id with no booking
  (controllers/booking.controller.js:139-142), but reads `hotel.name` unguarded when the
  booking's hotel is missing (controllers/booking.controller.js:144-146). The whole call
  then answers 500.
- **Price.** The middleware accepts any non-zero number, negative ones included, and
  refuses 0 (middlewares/hotel.middleware.js:30).
- **Self-declared admins.** `signup` stores `req.body.type || "user"`
  (controllers/auth.controller.js:20) without checking who asks. Any caller can
  register with `type: "admin"`, and that account then passes `create`'s admin check
  (`AuthController.SelfDeclaredAdmin`).
- **Order of hotel checks.** The middleware's field and uniqueness checks run before
  `create` checks the caller (routes/hotel.routes.js:18), so a caller who is not an
  admin still learns from the 400 answer that a hotelId or a name is taken.

Two fields are used by the controllers but missing from the schemas. The model gives the
records both fields, as the controllers use them:

- **User `bookings`.** The user schema declares a `hotels` list, not the `bookings` list
  that the booking controller uses (models/user.model.js:27-31). Under the schema as
  declared, `user.bookings` is undefined. `user.bookings.push` then throws
  (controllers/booking.controller.js:88) after `Booking.create` has stored the booking
  (controllers/booking.controller.js:85). So every booking that passes the checks answers
  500, and it leaves a booking that no user lists but that still holds its slot.
  `getBookingsByUser` likewise throws at `userBookingIds.length`
  (controllers/booking.controller.js:135) and answers 500 for every known user. The model
  describes the behaviour the two handlers are written for, with the list present.
- **Hotel `price`.** The hotel schema declares no `price` (models/hotel.model.js:18-44).
  A strict schema drops the value that `create` passes, so the `price` that `bookHotel`
  and `getBookingsByUser` read back is undefined and is left out of the JSON answer. The
  model stores and returns the price.

## Left out

- **Express and Mongoose wiring.** Routing, body parsing, the response envelope and the
  message strings are not modelled. Only the status code and the kind of failure remain.
- **Password hashing and tokens.** bcrypt hashing and JWT signing and verification are
  not modelled. `Signup` takes the hash as a parameter. `CreateHotelRoute` takes the
  caller's userId as the token's signature check would yield it.
- **Sign-in.** The `signin` controller is not modelled: it is a bcrypt comparison and a
  token signature.
- **Dates.** `new Date(text)` and `Date.now()` are not modelled. `BookHotel` takes the
  parsed date (`None` when it does not parse) and the current instant as parameters.
- **A non-string booking date.** `req.body.date.split` throws outside the handler's
  `try` when the date is not a string, and the request then gets no answer. The model
  takes the date text as a string.
- **Casting query values.** Mongoose casts a string, number or boolean to a string on a
  `String` path before it queries or stores it. The controllers take these values as
  strings. The sign-up email lookup is the one place where the model applies the cast
  itself (`AuthMiddleware.Registered`).
- ValidateSignupRequest: an object-valued email is looked up as the text
  `[object Object]`, which is not what Mongoose does. An object without `$` keys makes
  the cast fail. The middleware has no `try` (middlewares/auth.middleware.js:39), so
  the request gets no answer. An object such as `{"$ne": null}` is run as an operator
  query that finds any registered user, and the answer is 400. The model keeps a body
  field's object value opaque, so it cannot tell these cases apart.
- **Strings.** A Dafny string is a sequence of Unicode code points. JavaScript strings
  are UTF-16. The difference is modelled where it decides an outcome: the password
  length and the single `.` before a quoted local part. Lone surrogates are not
  modelled.
- **Concurrency.** Each call is atomic in the model. Three gaps between separate awaits
  are not modelled:
  - the find-then-create race on a booking slot;
  - the gap between creating the booking and saving the user;
  - the gap between the hotel middleware's `Hotel.findOne` lookups
    (middlewares/hotel.middleware.js:47-69) and `Hotel.create`. Two concurrent
    requests can both pass the lookups and then store duplicates, so catalog uniqueness
    holds only for requests handled one at a time.
- **`getAvailableHotels`.** The route names it, but no such handler exists, so there is
  nothing to model.
- NatToString, ToString: body numbers are unbounded integers, while JSON numbers are
  doubles. For integers of 10^21 and above, `String(n)` gives exponent notation
  (`1e+21`). Above 2^53 it gives the shortest digits that round-trip, which need not
  denote `n`. Both functions are faithful for safe integers below 2^53. Fractions,
  NaN and floating-point prices are not modelled. No verdict of the modelled routes
  depends on this: a number's text never passes the email or password patterns or
  the type enum.
- Lower, ValidateEmailMeaning, ShapedLowerCaseAccepted, LeadingCharQuotedLocalAccepted:
  `toLowerCase` is modelled on the ASCII letters only, and the four members describe
  that model. JavaScript lowers more, which flips two kinds of verdict:
  - the Kelvin sign U+212A lowers to `k`, so the source accepts `x@\u212Aa.io`, which
    the model refuses;
  - `İ` (U+0130) lowers to `i` followed by U+0307, so in `İ"ab"@x.io` the quote meets
    U+0307 and the source refuses the address, which the model accepts.
- **Object values.** An object body field is one opaque value whose `String(...)` is
  `[object Object]`. That is what `String(...)` gives, not what a Mongoose cast gives.
  Mongoose does not convert an object to text: it either fails the cast or, for an
  object with `$` keys, runs an operator query. Arrays are not modelled.
- BookHotel: `hotelKey` is a string, but `validateBookingRequest` lets any truthy
  `hotelId` through (middlewares/booking.middleware.js:9). With `hotelId: {}`,
  `Hotel.findOne` (controllers/booking.controller.js:46-48) fails the cast inside the
  `try`, and the answer is 500. With `hotelId: {"$ne": null}` the lookup runs as an
  operator query and books the first hotel. The model does not express either case.
- AdmittedSignupMeetsSchema: it casts the body fields with `String(...)`. An object
  `name` or `userId` passes `validateSignupRequest`, but `User.create` fails to cast
  it, and the answer is 500. So behind the middleware a sign-up fails on the enum, on
  a taken email or userId, or on such a cast failure.
- **Diagnostics.** The `console.error` call for a missing booking is left out.
- **Database growth.** Nothing is ever deleted, so the model has no path that creates a
  dangling reference. The lemmas about dangling references quantify over any store.
