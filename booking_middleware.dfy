/** The presence check in front of booking (middlewares/booking.middleware.js). */
module BookingMiddleware {
  import opened Js
  import opened Http

  /** `validateBookingRequest`: both `hotelId` and `date` must be truthy; the date's format
      is left to the controller. No store is read. */
  function ValidateBookingRequest(hotelId: Value, date: Value): (r: Verdict)
    ensures r == Next <==> hotelId !in Falsy && date !in Falsy
    ensures r != Next ==> r == Reject(400, MissingFields)
  {
    if !Truthy(hotelId) || !Truthy(date) then Reject(400, MissingFields) else Next
  }
}
