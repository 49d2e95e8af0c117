/**
  The three record types of the models/ directory and the constraints their schemas declare.
  An `Id` stands for a MongoDB ObjectId; references between records are ids.
 */
module Models {
  import opened Util

  type Id = nat

  /** A user (models/user.model.js). `bookings` is the list the booking controller appends
      to; the schema itself declares `hotels` instead. */
  datatype Account = Account(
    name: string,
    email: string,
    password: string,
    userType: UserType,
    userId: string,
    hotels: seq<Id>,
    bookings: seq<Id>,
    createdAt: int,
    updatedAt: int)

  /** A hotel (models/hotel.model.js), with the `price` the controllers store and read. */
  datatype Hotel = Hotel(
    hotelId: string,
    name: string,
    location: string,
    price: int,
    bookings: seq<Id>,
    createdAt: int,
    updatedAt: int)

  /** A booking (models/booking.model.js): references to one hotel and one user, and a date
      as a millisecond timestamp. */
  datatype Booking = Booking(
    hotel: Id,
    user: Id,
    date: int,
    createdAt: int,
    updatedAt: int)

  /** `required: true` on a string path rejects a missing and an empty string. */
  predicate AccountRequired(a: Account) {
    a.name != "" && a.email != "" && a.password != "" && a.userId != ""
  }

  predicate HotelRequired(h: Hotel) {
    h.hotelId != "" && h.name != "" && h.location != ""
  }

  /** The unique indexes on `email` and `userId`. */
  predicate UniqueAccounts(users: map<Id, Account>) {
    forall u, v :: u in users && v in users && u != v ==>
      users[u].email != users[v].email && users[u].userId != users[v].userId
  }

  /** No two hotels share a `hotelId` or a `name`; the schema does not declare this. */
  predicate UniqueCatalog(hotels: map<Id, Hotel>) {
    forall g, h :: g in hotels && h in hotels && g != h ==>
      hotels[g].hotelId != hotels[h].hotelId && hotels[g].name != hotels[h].name
  }

  /** At most one booking per hotel and instant (the exact timestamp); no index declares
      this either. */
  predicate SlotsUnique(bookings: map<Id, Booking>) {
    forall a, b :: a in bookings && b in bookings && a != b ==>
      bookings[a].hotel != bookings[b].hotel || bookings[a].date != bookings[b].date
  }

  /** Every booking's hotel and user references resolve. */
  predicate BookingRefsResolve(bookings: map<Id, Booking>, hotels: map<Id, Hotel>, users: map<Id, Account>) {
    forall b :: b in bookings ==> bookings[b].hotel in hotels && bookings[b].user in users
  }

  /** `Hotel.findOne({ hotelId: key })` finds a hotel. */
  predicate HotelIdTaken(hotels: map<Id, Hotel>, key: string) {
    exists h :: h in hotels && hotels[h].hotelId == key
  }

  /** `Hotel.findOne({ name: name })` finds a hotel. */
  predicate HotelNameTaken(hotels: map<Id, Hotel>, name: string) {
    exists h :: h in hotels && hotels[h].name == name
  }

  /** `User.findOne({ email: email })` finds a user. */
  predicate EmailTaken(users: map<Id, Account>, email: string) {
    exists u :: u in users && users[u].email == email
  }

  /** A hotel whose hotelId and name are both free, stored under a fresh id, keeps the
      catalog free of duplicates. */
  lemma FreshHotelKeepsCatalogUnique(hotels: map<Id, Hotel>, id: Id, h: Hotel)
    requires UniqueCatalog(hotels) && id !in hotels
    requires !HotelIdTaken(hotels, h.hotelId) && !HotelNameTaken(hotels, h.name)
    ensures UniqueCatalog(hotels[id := h])
  {
    var m := hotels[id := h];
    forall g, k | g in m && k in m && g != k
      ensures m[g].hotelId != m[k].hotelId && m[g].name != m[k].name
    {
      if g == id {
        assert k in hotels && hotels[k] == m[k];
      } else if k == id {
        assert g in hotels && hotels[g] == m[g];
      }
    }
  }

  /** A new user document: the lists start empty and both timestamps are the creation
      time; the fields given are kept. */
  function NewAccount(name: string, email: string, password: string, userType: UserType, userId: string, now: int): Account
  {
    Account(name, email, password, userType, userId, [], [], now, now)
  }

  /** A new hotel document: no bookings yet, both timestamps the creation time. */
  function NewHotel(hotelId: string, name: string, location: string, price: int, now: int): Hotel
  {
    Hotel(hotelId, name, location, price, [], now, now)
  }

  /** A new booking document for one hotel, one user and one date. */
  function NewBooking(hotel: Id, user: Id, date: int, now: int): Booking
  {
    Booking(hotel, user, date, now, now)
  }
}
