/**
 * The bookings ledger: an append-only sequence of records, queried by
 * session (movie id and showtime) and by user.
 */
module Ledger {
  import opened Text
  import opened SeatGrid

  /** One ledger row; `seats` is the ';'-joined list of seat labels. */
  datatype Booking = Booking(
    username: string,
    movieId: string,
    movieName: string,
    showtime: string,
    seats: string,
    total: int)

  /** The seats of a record: its stored seat field cut at every `;`. */
  function SeatsOf(b: Booking): seq<string> {
    Split(b.seats, ';')
  }

  predicate InSession(b: Booking, movieId: string, showtime: string) {
    b.movieId == movieId && b.showtime == showtime
  }

  /** `get_booked_seats`: the seats of every record of the session, record
      after record in ledger order. A seat is booked iff some record of the
      session lists it. */
  function BookedSeats(bookings: seq<Booking>, movieId: string, showtime: string): (booked: seq<string>)
    ensures forall s :: s in booked <==>
              exists i :: 0 <= i < |bookings| && InSession(bookings[i], movieId, showtime) && s in SeatsOf(bookings[i])
    decreases |bookings|
  {
    if bookings == [] then []
    else
      var init := bookings[..|bookings| - 1];
      var last := bookings[|bookings| - 1];
      var booked := BookedSeats(init, movieId, showtime) + (if InSession(last, movieId, showtime) then SeatsOf(last) else []);
      assert forall i :: 0 <= i < |init| ==> init[i] == bookings[i];
      booked
  }

  /** The booked list of a ledger is the booked list of its first part
      followed by that of the rest. */
  lemma {:induction false} BookedSeatsAppend(front: seq<Booking>, back: seq<Booking>, movieId: string, showtime: string)
    ensures BookedSeats(front + back, movieId, showtime)
         == BookedSeats(front, movieId, showtime) + BookedSeats(back, movieId, showtime)
    decreases |back|
  {
    if back == [] {
      assert front + back == front;
    } else {
      var init := back[..|back| - 1];
      assert (front + back)[..|front + back| - 1] == front + init;
      BookedSeatsAppend(front, init, movieId, showtime);
    }
  }

  /** The records whose username is `username`, in ledger order. */
  function UserBookings(bookings: seq<Booking>, username: string): (mine: seq<Booking>)
    ensures |mine| <= |bookings|
    ensures forall b :: b in mine <==> b in bookings && b.username == username
    decreases |bookings|
  {
    if bookings == [] then []
    else
      var init := bookings[..|bookings| - 1];
      var last := bookings[|bookings| - 1];
      assert bookings == init + [last];
      UserBookings(init, username) + (if last.username == username then [last] else [])
  }

  /** Filtering by user commutes with concatenating ledgers, so the user's
      records keep their ledger order. */
  lemma {:induction false} UserBookingsAppend(front: seq<Booking>, back: seq<Booking>, username: string)
    ensures UserBookings(front + back, username) == UserBookings(front, username) + UserBookings(back, username)
    decreases |back|
  {
    if back == [] {
      assert front + back == front;
    } else {
      var init := back[..|back| - 1];
      assert (front + back)[..|front + back| - 1] == front + init;
      UserBookingsAppend(front, init, username);
    }
  }

  /** Appending one record adds its seats to the booked list of its own
      session and to no other. */
  lemma BookedSeatsAppendOne(bookings: seq<Booking>, record: Booking, movieId: string, showtime: string)
    ensures BookedSeats(bookings + [record], movieId, showtime)
         == BookedSeats(bookings, movieId, showtime) + (if InSession(record, movieId, showtime) then SeatsOf(record) else [])
  {
    var after := bookings + [record];
    assert after[..|after| - 1] == bookings;
  }

  /** Appending one record adds it to its owner's bookings and to no one
      else's. */
  lemma UserBookingsAppendOne(bookings: seq<Booking>, record: Booking, username: string)
    ensures UserBookings(bookings + [record], username)
         == UserBookings(bookings, username) + (if record.username == username then [record] else [])
  {
    var after := bookings + [record];
    assert after[..|after| - 1] == bookings;
  }

  /** No two records of the same session share a seat. */
  ghost predicate SessionsDisjoint(bookings: seq<Booking>) {
    forall i, j :: 0 <= i < j < |bookings| && InSession(bookings[j], bookings[i].movieId, bookings[i].showtime) ==>
      forall s :: s in SeatsOf(bookings[i]) ==> s !in SeatsOf(bookings[j])
  }

  /** Every stored seat is a label of the grid. */
  ghost predicate SeatsOnGrid(bookings: seq<Booking>) {
    forall i :: 0 <= i < |bookings| ==> forall s :: s in SeatsOf(bookings[i]) ==> IsValidLabel(s)
  }

  ghost predicate Consistent(bookings: seq<Booking>) {
    SessionsDisjoint(bookings) && SeatsOnGrid(bookings)
  }

  /** Appending a record whose seats are grid labels that its session has
      not booked yet keeps the ledger consistent. */
  lemma AppendKeepsConsistent(bookings: seq<Booking>, record: Booking)
    requires Consistent(bookings)
    requires forall s :: s in SeatsOf(record) ==> IsValidLabel(s)
    requires forall s :: s in SeatsOf(record) ==> s !in BookedSeats(bookings, record.movieId, record.showtime)
    ensures Consistent(bookings + [record])
  {
    var after := bookings + [record];
    forall i, j | 0 <= i < j < |after| && InSession(after[j], after[i].movieId, after[i].showtime)
      ensures forall s :: s in SeatsOf(after[i]) ==> s !in SeatsOf(after[j])
    {
      if j == |bookings| {
        forall s | s in SeatsOf(after[i])
          ensures s !in SeatsOf(after[j])
        {
          assert InSession(bookings[i], record.movieId, record.showtime);
          assert s in BookedSeats(bookings, record.movieId, record.showtime);
        }
      } else {
        assert after[i] == bookings[i] && after[j] == bookings[j];
      }
    }
    assert forall i :: 0 <= i < |bookings| ==> after[i] == bookings[i];
  }
}
