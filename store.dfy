/**
  The database behind the Mongoose models: one table per model, keyed by ObjectId. Ids
  come from one counter, so a table's id order is its insertion order, and `findOne`
  returns the earliest-inserted match.
 */
module Store {
  import opened Wrappers
  import opened Models

  /** The first id in `[lo, hi)` present in `m` whose record satisfies `p`. */
  function FindFirst<T>(m: map<Id, T>, p: T -> bool, lo: nat, hi: nat): (r: Option<Id>)
    ensures r.Some? ==> lo <= r.value < hi && r.value in m && p(m[r.value])
    ensures r.Some? ==> forall j :: lo <= j < r.value && j in m ==> !p(m[j])
    ensures r.None? <==> forall j :: lo <= j < hi && j in m ==> !p(m[j])
    decreases hi - lo
  {
    if lo >= hi then None
    else if lo in m && p(m[lo]) then Some(lo)
    else FindFirst(m, p, lo + 1, hi)
  }

  /** Some stored user already has `a`'s email or userId. */
  predicate Taken(users: map<Id, Account>, a: Account) {
    exists u :: u in users && (users[u].email == a.email || users[u].userId == a.userId)
  }

  /** Changing a user's record in anything but its email and userId keeps both unique. */
  lemma SameKeysKeepAccountsUnique(users: map<Id, Account>, u: Id, a: Account)
    requires UniqueAccounts(users) && u in users
    requires a.email == users[u].email && a.userId == users[u].userId
    ensures UniqueAccounts(users[u := a])
  {
  }

  class Database {
    var hotels: map<Id, Hotel>
    var users: map<Id, Account>
    var bookings: map<Id, Booking>
    /** The next ObjectId to hand out. */
    var nextId: nat

    /** Every id in use was handed out before `nextId`; the schemas' required fields are
        non-empty; `email` and `userId` are unique. */
    ghost predicate Valid()
      reads this
    {
      && (forall id :: id in hotels ==> id < nextId)
      && (forall id :: id in users ==> id < nextId)
      && (forall id :: id in bookings ==> id < nextId)
      && (forall u, k :: u in users && 0 <= k < |users[u].bookings| ==> users[u].bookings[k] < nextId)
      && (forall h :: h in hotels ==> HotelRequired(hotels[h]))
      && (forall u :: u in users ==> AccountRequired(users[u]))
      && UniqueAccounts(users)
    }

    constructor ()
      ensures Valid()
      ensures hotels == map[] && users == map[] && bookings == map[]
    {
      hotels, users, bookings, nextId := map[], map[], map[], 0;
    }

    /** `Hotel.findOne({ hotelId: key })` */
    function FindHotelByHotelId(key: string): (r: Option<Id>)
      reads this
      requires Valid()
      ensures r.Some? ==> r.value in hotels && hotels[r.value].hotelId == key
      ensures r.None? <==> forall h :: h in hotels ==> hotels[h].hotelId != key
    {
      FindFirst(hotels, (x: Hotel) => x.hotelId == key, 0, nextId)
    }

    /** `User.findOne({ userId: key })`: the one user with that userId, if any. */
    function FindUserByUserId(key: string): (r: Option<Id>)
      reads this
      requires Valid()
      ensures r.Some? ==> r.value in users && users[r.value].userId == key
      ensures r.None? <==> forall u :: u in users ==> users[u].userId != key
    {
      FindFirst(users, (a: Account) => a.userId == key, 0, nextId)
    }

    /** `Booking.findOne({ hotelId: hotel, date: date })` */
    function FindBookingBySlot(hotel: Id, date: int): (r: Option<Id>)
      reads this
      requires Valid()
      ensures r.Some? ==> r.value in bookings && bookings[r.value].hotel == hotel && bookings[r.value].date == date
      ensures r.None? <==> forall b :: b in bookings ==> bookings[b].hotel != hotel || bookings[b].date != date
    {
      FindFirst(bookings, (x: Booking) => x.hotel == hotel && x.date == date, 0, nextId)
    }

    /** `Booking.create(b)`: inserts under a fresh id and touches nothing else. */
    method CreateBooking(b: Booking) returns (id: Id)
      requires Valid()
      modifies this
      ensures Valid()
      ensures id == old(nextId) && id !in old(bookings) && nextId == old(nextId) + 1
      ensures bookings == old(bookings)[id := b]
      ensures hotels == old(hotels) && users == old(users)
    {
      id := nextId;
      bookings := bookings[id := b];
      nextId := nextId + 1;
    }

    /** `Hotel.create(h)`: schema validation rejects an empty required field; otherwise
        the hotel is inserted under a fresh id. */
    method CreateHotel(h: Hotel) returns (id: Option<Id>)
      requires Valid()
      modifies this
      ensures Valid()
      ensures id.None? <==> !HotelRequired(h)
      ensures id.None? ==> hotels == old(hotels) && nextId == old(nextId)
      ensures id.Some? ==> id.value == old(nextId) && id.value !in old(hotels) && nextId == old(nextId) + 1
      ensures id.Some? ==> hotels == old(hotels)[id.value := h]
      ensures users == old(users) && bookings == old(bookings)
    {
      if !HotelRequired(h) {
        return None;
      }
      id := Some(nextId);
      hotels := hotels[nextId := h];
      nextId := nextId + 1;
    }

    /** `User.create(a)`: schema validation rejects an empty required field and the unique
        indexes reject a taken email or userId; otherwise the user is inserted. */
    method CreateUser(a: Account) returns (id: Option<Id>)
      requires Valid()
      requires forall k :: 0 <= k < |a.bookings| ==> a.bookings[k] < nextId
      modifies this
      ensures Valid()
      ensures id.None? <==> (!AccountRequired(a) || Taken(old(users), a))
      ensures id.None? ==> users == old(users) && nextId == old(nextId)
      ensures id.Some? ==> id.value == old(nextId) && id.value !in old(users) && nextId == old(nextId) + 1
      ensures id.Some? ==> users == old(users)[id.value := a]
      ensures hotels == old(hotels) && bookings == old(bookings)
    {
      if !AccountRequired(a) || Taken(users, a) {
        return None;
      }
      id := Some(nextId);
      users := users[nextId := a];
      nextId := nextId + 1;
    }

    /** `user.bookings.push(b); user.save()` */
    method PushUserBooking(u: Id, b: Id)
      requires Valid() && u in users && b < nextId
      modifies this
      ensures Valid()
      ensures users == old(users)[u := old(users[u]).(bookings := old(users[u].bookings) + [b])]
      ensures hotels == old(hotels) && bookings == old(bookings) && nextId == old(nextId)
    {
      var a := users[u].(bookings := users[u].bookings + [b]);
      SameKeysKeepAccountsUnique(users, u, a);
      assert forall k :: 0 <= k < |a.bookings| ==> a.bookings[k] < nextId;
      users := users[u := a];
    }
  }
}
