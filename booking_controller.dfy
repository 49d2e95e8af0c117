/**
  The reservation ledger (controllers/booking.controller.js): booking a hotel for a date,
  and listing a user's bookings.
 */
module BookingController {
  import opened Wrappers
  import opened Http
  import opened Models
  import opened Store

  /** The data `bookHotel` answers with. */
  datatype Confirmation = Confirmation(hotelName: string, price: int, location: string, checkIn: string)

  /** One entry of the list `getBookingsByUser` answers with. */
  datatype Stay = Stay(hotelName: string, price: int, location: string, checkIn: int)

  function StayOf(h: Hotel, b: Booking): Stay {
    Stay(h.name, h.price, h.location, b.date)
  }

  /** The entries for a list of booking ids, in list order: an id with no booking is
      skipped; a booking whose hotel is gone makes the whole listing fail. */
  function Stays(bookings: map<Id, Booking>, hotels: map<Id, Hotel>, ids: seq<Id>): (r: Option<seq<Stay>>)
    ensures r.Some? ==> |r.value| <= |ids|
  {
    if ids == [] then Some([])
    else
      var last := ids[|ids| - 1];
      match Stays(bookings, hotels, ids[..|ids| - 1])
      case None => None
      case Some(es) =>
        if last !in bookings then Some(es)
        else if bookings[last].hotel !in hotels then None
        else Some(es + [StayOf(hotels[bookings[last].hotel], bookings[last])])
  }

  /** The ids that name a booking, in list order. */
  function Resolved(bookings: map<Id, Booking>, ids: seq<Id>): (rs: seq<Id>)
    ensures |rs| <= |ids|
    ensures forall k :: 0 <= k < |rs| ==> rs[k] in bookings
  {
    if ids == [] then []
    else if ids[0] in bookings then [ids[0]] + Resolved(bookings, ids[1..])
    else Resolved(bookings, ids[1..])
  }

  /** Some id in the list names a booking whose hotel is gone. */
  predicate Dangling(bookings: map<Id, Booking>, hotels: map<Id, Hotel>, ids: seq<Id>) {
    exists k :: 0 <= k < |ids| && ids[k] in bookings && bookings[ids[k]].hotel !in hotels
  }

  lemma {:induction false} ResolvedAppend(bookings: map<Id, Booking>, ids: seq<Id>, x: Id)
    ensures Resolved(bookings, ids + [x]) == Resolved(bookings, ids) + (if x in bookings then [x] else [])
  {
    if ids != [] {
      assert (ids + [x])[1..] == ids[1..] + [x];
      ResolvedAppend(bookings, ids[1..], x);
    } else {
      assert ids + [x] == [x];
    }
  }

  /** The listing fails exactly when some resolved booking has lost its hotel; otherwise it
      holds one entry per resolved id, in order, built from that booking and its hotel. */
  lemma StaysMeaning(bookings: map<Id, Booking>, hotels: map<Id, Hotel>, ids: seq<Id>)
    ensures Stays(bookings, hotels, ids).None? <==> Dangling(bookings, hotels, ids)
    ensures Stays(bookings, hotels, ids).Some? ==>
      var es := Stays(bookings, hotels, ids).value;
      var rs := Resolved(bookings, ids);
      && |es| == |rs|
      && forall k :: 0 <= k < |es| ==>
           bookings[rs[k]].hotel in hotels && es[k] == StayOf(hotels[bookings[rs[k]].hotel], bookings[rs[k]])
  {
    StaysFailIffDangling(bookings, hotels, ids);
    if Stays(bookings, hotels, ids).Some? {
      StaysEntries(bookings, hotels, ids);
    }
  }

  lemma {:induction false} StaysFailIffDangling(bookings: map<Id, Booking>, hotels: map<Id, Hotel>, ids: seq<Id>)
    ensures Stays(bookings, hotels, ids).None? <==> Dangling(bookings, hotels, ids)
  {
    if ids != [] {
      var init, last := ids[..|ids| - 1], ids[|ids| - 1];
      StaysFailIffDangling(bookings, hotels, init);
      if Dangling(bookings, hotels, ids) {
        var k :| 0 <= k < |ids| && ids[k] in bookings && bookings[ids[k]].hotel !in hotels;
        if k < |init| {
          assert init[k] == ids[k];
        }
      }
      if Dangling(bookings, hotels, init) {
        var k :| 0 <= k < |init| && init[k] in bookings && bookings[init[k]].hotel !in hotels;
        assert ids[k] == init[k];
      }
    }
  }

  lemma {:induction false} StaysEntries(bookings: map<Id, Booking>, hotels: map<Id, Hotel>, ids: seq<Id>)
    requires Stays(bookings, hotels, ids).Some?
    ensures
      var es := Stays(bookings, hotels, ids).value;
      var rs := Resolved(bookings, ids);
      && |es| == |rs|
      && forall k :: 0 <= k < |es| ==>
           bookings[rs[k]].hotel in hotels && es[k] == StayOf(hotels[bookings[rs[k]].hotel], bookings[rs[k]])
  {
    if ids != [] {
      var init, last := ids[..|ids| - 1], ids[|ids| - 1];
      assert ids == init + [last];
      StaysEntries(bookings, hotels, init);
      ResolvedAppend(bookings, init, last);
    }
  }

  /** While every booking's hotel resolves, no listing fails. */
  lemma ListingSucceedsWhenHotelsResolve(bookings: map<Id, Booking>, hotels: map<Id, Hotel>, ids: seq<Id>)
    requires forall b :: b in bookings ==> bookings[b].hotel in hotels
    ensures Stays(bookings, hotels, ids).Some?
    ensures |Stays(bookings, hotels, ids).value| == |Resolved(bookings, ids)|
  {
    StaysMeaning(bookings, hotels, ids);
  }

  /** Adding a booking under an id the list does not mention leaves the listing as it was. */
  lemma {:induction false} StaysIgnoreOtherIds(bookings: map<Id, Booking>, hotels: map<Id, Hotel>, ids: seq<Id>, id: Id, b: Booking)
    requires forall k :: 0 <= k < |ids| ==> ids[k] != id
    ensures Stays(bookings[id := b], hotels, ids) == Stays(bookings, hotels, ids)
  {
    if ids != [] {
      StaysIgnoreOtherIds(bookings, hotels, ids[..|ids| - 1], id, b);
    }
  }

  /** A failed listing stays failed however many ids follow. */
  lemma {:induction false} StaysFailureSticks(bookings: map<Id, Booking>, hotels: map<Id, Hotel>, ids: seq<Id>, more: seq<Id>)
    requires Stays(bookings, hotels, ids).None?
    ensures Stays(bookings, hotels, ids + more).None?
    decreases |more|
  {
    if more != [] {
      var init := more[..|more| - 1];
      StaysFailureSticks(bookings, hotels, ids, init);
      assert (ids + more)[..|ids + more| - 1] == ids + init;
    } else {
      assert ids + more == ids;
    }
  }

  /** Booking a fresh id for an existing hotel and appending it to the list appends its
      entry to the listing. */
  lemma NewBookingListed(bookings: map<Id, Booking>, hotels: map<Id, Hotel>, ids: seq<Id>, id: Id, b: Booking)
    requires forall k :: 0 <= k < |ids| ==> ids[k] != id
    requires b.hotel in hotels
    ensures Stays(bookings[id := b], hotels, ids + [id]) ==
      match Stays(bookings, hotels, ids)
      case None => None
      case Some(es) => Some(es + [StayOf(hotels[b.hotel], b)])
  {
    assert (ids + [id])[..|ids|] == ids;
    StaysIgnoreOtherIds(bookings, hotels, ids, id, b);
  }

  /** A booking for a slot no booking holds keeps every slot single. */
  lemma FreeSlotKeepsSlotsUnique(bookings: map<Id, Booking>, id: Id, b: Booking)
    requires SlotsUnique(bookings) && id !in bookings
    requires forall x :: x in bookings ==> bookings[x].hotel != b.hotel || bookings[x].date != b.date
    ensures SlotsUnique(bookings[id := b])
  {
  }

  /** The writes of a successful `bookHotel`: `Booking.create`, then the push of the new
      id onto the user's list and `user.save()`. The slot must be free. */
  method RecordBooking(db: Database, h: Id, u: Id, date: int, now: int) returns (id: Id)
    requires db.Valid() && h in db.hotels && u in db.users
    requires forall b :: b in db.bookings ==> db.bookings[b].hotel != h || db.bookings[b].date != date
    modifies db
    ensures db.Valid()
    ensures id == old(db.nextId) && id !in old(db.bookings) && db.nextId == old(db.nextId) + 1
    ensures db.bookings == old(db.bookings)[id := NewBooking(h, u, date, now)]
    ensures db.users == old(db.users)[u := old(db.users[u]).(bookings := old(db.users[u].bookings) + [id])]
    ensures db.hotels == old(db.hotels)
    ensures old(SlotsUnique(db.bookings)) ==> SlotsUnique(db.bookings)
    ensures old(BookingRefsResolve(db.bookings, db.hotels, db.users)) ==> BookingRefsResolve(db.bookings, db.hotels, db.users)
    ensures Stays(db.bookings, db.hotels, db.users[u].bookings) ==
      match old(Stays(db.bookings, db.hotels, db.users[u].bookings))
      case None => None
      case Some(es) => Some(es + [StayOf(db.hotels[h], NewBooking(h, u, date, now))])
  {
    ghost var before := db.bookings;
    var b := NewBooking(h, u, date, now);
    id := db.CreateBooking(b);
    if SlotsUnique(before) {
      FreeSlotKeepsSlotsUnique(before, id, b);
    }
    NewBookingListed(before, db.hotels, db.users[u].bookings, id, b);
    db.PushUserBooking(u, id);
  }

  /** `bookHotel`. `date` is the parsed request date (None when it does not parse),
      `dateText` the date string as sent, `now` the current instant and `caller` the userId
      taken from the token. */
  method BookHotel(db: Database, hotelKey: string, dateText: string, date: Option<int>, now: int, caller: string)
    returns (r: Reply<Confirmation>)
    requires db.Valid()
    modifies db
    ensures db.Valid()
    ensures db.hotels == old(db.hotels)
    ensures old(SlotsUnique(db.bookings)) ==> SlotsUnique(db.bookings)
    ensures old(BookingRefsResolve(db.bookings, db.hotels, db.users)) ==> BookingRefsResolve(db.bookings, db.hotels, db.users)
    // error exits, in the order the handler takes them; none of them changes the store
    ensures date.None? || date.value < now ==> r == Err(400, InvalidDate)
    ensures date.Some? && date.value >= now && old(db.FindHotelByHotelId(hotelKey)).None? ==>
      r == Err(404, HotelNotFound)
    ensures (date.Some? && date.value >= now && old(db.FindHotelByHotelId(hotelKey)).Some?
             && old(db.FindUserByUserId(caller)).None?) ==>
      r == Err(500, ServerError)
    ensures (date.Some? && date.value >= now && old(db.FindHotelByHotelId(hotelKey)).Some?
             && old(db.FindUserByUserId(caller)).Some?
             && old(db.FindBookingBySlot(db.FindHotelByHotelId(hotelKey).value, date.value)).Some?) ==>
      r == Err(400, SlotUnavailable)
    ensures r.Err? ==> db.bookings == old(db.bookings) && db.users == old(db.users) && db.nextId == old(db.nextId)
    // success: one booking for the slot, its id at the end of the caller's list
    ensures r.Ok? <==>
      (date.Some? && date.value >= now && old(db.FindHotelByHotelId(hotelKey)).Some?
       && old(db.FindUserByUserId(caller)).Some?
       && old(db.FindBookingBySlot(db.FindHotelByHotelId(hotelKey).value, date.value)).None?)
    ensures r.Ok? ==>
      var h := old(db.FindHotelByHotelId(hotelKey)).value;
      var u := old(db.FindUserByUserId(caller)).value;
      var id := old(db.nextId);
      var hotel := old(db.hotels[h]);
      && id !in old(db.bookings) && db.nextId == id + 1
      && db.bookings == old(db.bookings)[id := NewBooking(h, u, date.value, now)]
      && db.users == old(db.users)[u := old(db.users[u]).(bookings := old(db.users[u].bookings) + [id])]
      && r == Ok(201, Confirmation(hotel.name, hotel.price, hotel.location, dateText))
    // the caller's listing gains the new booking's entry at its end
    ensures r.Ok? ==>
      var u := old(db.FindUserByUserId(caller)).value;
      Stays(db.bookings, db.hotels, db.users[u].bookings) ==
        match old(Stays(db.bookings, db.hotels, db.users[u].bookings))
        case None => None
        case Some(es) => Some(es + [StayOf(db.hotels[db.bookings[old(db.nextId)].hotel], db.bookings[old(db.nextId)])])
  {
    if date.None? || date.value < now {
      return Err(400, InvalidDate);
    }
    var hotel := db.FindHotelByHotelId(hotelKey);
    if hotel.None? {
      return Err(404, HotelNotFound);
    }
    var user := db.FindUserByUserId(caller);
    var existing := db.FindBookingBySlot(hotel.value, date.value);
    if user.None? {
      // `user._id` on a null user throws; the catch answers 500
      return Err(500, ServerError);
    }
    if existing.Some? {
      return Err(400, SlotUnavailable);
    }
    var id := RecordBooking(db, hotel.value, user.value, date.value, now);
    var h := db.hotels[hotel.value];
    r := Ok(201, Confirmation(h.name, h.price, h.location, dateText));
  }

  /** `getBookingsByUser`: reads the store and changes nothing. */
  method GetBookingsByUser(db: Database, caller: string) returns (r: Reply<seq<Stay>>)
    requires db.Valid()
    ensures db.FindUserByUserId(caller).None? ==> r == Err(404, UserNotFound)
    ensures db.FindUserByUserId(caller).Some? ==>
      var ids := db.users[db.FindUserByUserId(caller).value].bookings;
      match Stays(db.bookings, db.hotels, ids)
      case Some(es) => r == Ok(200, es)
      case None => r == Err(500, ServerError)
  {
    var user := db.FindUserByUserId(caller);
    if user.None? {
      return Err(404, UserNotFound);
    }
    var ids := db.users[user.value].bookings;
    var data: seq<Stay> := [];
    for i := 0 to |ids|
      invariant Stays(db.bookings, db.hotels, ids[..i]) == Some(data)
    {
      assert ids[..i + 1][..i] == ids[..i];
      var id := ids[i];
      if id !in db.bookings {
        continue;
      }
      var booking := db.bookings[id];
      if booking.hotel !in db.hotels {
        // `hotel.name` on a null hotel throws; the catch answers 500
        StaysFailureSticks(db.bookings, db.hotels, ids[..i + 1], ids[i + 1..]);
        assert ids[..i + 1] + ids[i + 1..] == ids;
        return Err(500, ServerError);
      }
      var hotel := db.hotels[booking.hotel];
      data := data + [Stay(hotel.name, hotel.price, hotel.location, booking.date)];
    }
    assert ids[..|ids|] == ids;
    r := Ok(200, data);
  }
}
