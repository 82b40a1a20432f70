/**
 * The reservation flow of `book_seats` and the user store of
 * `register_user` / `login_user`, over three in-memory stores: the movie
 * catalogue (never changed), the bookings ledger and the user list (both
 * only ever appended to).
 */
module Reservation {
  import opened Wrappers
  import opened Text
  import opened SeatGrid
  import opened Catalog
  import opened Ledger

  /** The entries of `seats` that are not in `booked`, in order. */
  function Remaining(seats: seq<string>, booked: seq<string>): (left: seq<string>)
    ensures forall s :: s in left <==> s in seats && s !in booked
    decreases |seats|
  {
    if seats == [] then []
    else
      var init := seats[..|seats| - 1];
      var last := seats[|seats| - 1];
      assert seats == init + [last];
      Remaining(init, booked) + (if last !in booked then [last] else [])
  }

  /** The seats of the grid still available for a session: the grid labels
      that are not booked. */
  function Available(booked: seq<string>): (available: seq<string>)
    ensures forall s :: s in available <==> IsValidLabel(s) && s !in booked
  {
    AllSeatsAreValidLabels();
    Remaining(AllSeats(), booked)
  }

  /** Every token with its surrounding whitespace removed. */
  function StripEach(tokens: seq<string>): (stripped: seq<string>)
    ensures |stripped| == |tokens|
    ensures forall i :: 0 <= i < |tokens| ==> stripped[i] == Strip(tokens[i])
  {
    seq(|tokens|, i requires 0 <= i < |tokens| => Strip(tokens[i]))
  }

  /** The entries of `entries` that are in `available`, in order and with
      repetitions. */
  function KeepAvailable(entries: seq<string>, available: seq<string>): (kept: seq<string>)
    ensures |kept| <= |entries|
    ensures forall s :: s in kept <==> s in available && s in entries
    decreases |entries|
  {
    if entries == [] then []
    else
      var init := entries[..|entries| - 1];
      var last := entries[|entries| - 1];
      assert entries == init + [last];
      KeepAvailable(init, available) + (if last in available then [last] else [])
  }

  lemma StripEachAppend(front: seq<string>, back: seq<string>)
    ensures StripEach(front + back) == StripEach(front) + StripEach(back)
  {
    var whole := StripEach(front + back);
    var parts := StripEach(front) + StripEach(back);
    assert |whole| == |parts|;
    forall i | 0 <= i < |whole|
      ensures whole[i] == parts[i]
    {
      assert whole[i] == Strip((front + back)[i]);
      if i < |front| {
        assert (front + back)[i] == front[i];
        assert parts[i] == StripEach(front)[i] == Strip(front[i]);
      } else {
        assert (front + back)[i] == back[i - |front|];
        assert parts[i] == StripEach(back)[i - |front|] == Strip(back[i - |front|]);
      }
    }
  }

  /** Keeping entries one by one: what is kept of a concatenation is what is
      kept of each part, one after the other. */
  lemma {:induction false} KeepAvailableAppend(front: seq<string>, back: seq<string>, available: seq<string>)
    ensures KeepAvailable(front + back, available)
         == KeepAvailable(front, available) + KeepAvailable(back, available)
    decreases |back|
  {
    if back == [] {
      assert front + back == front;
    } else {
      var init := back[..|back| - 1];
      assert (front + back)[..|front + back| - 1] == front + init;
      KeepAvailableAppend(front, init, available);
    }
  }

  /** The request filter: each token is stripped and kept, in order and with
      repetitions, iff it is available. */
  function FilterRequest(tokens: seq<string>, available: seq<string>): (kept: seq<string>)
    ensures |kept| <= |tokens|
    ensures forall s :: s in kept <==> s in available && s in StripEach(tokens)
  {
    KeepAvailable(StripEach(tokens), available)
  }

  /** Filtering a request token by token: the kept seats of a concatenation
      are the kept seats of each part, one after the other. */
  lemma FilterRequestAppend(front: seq<string>, back: seq<string>, available: seq<string>)
    ensures FilterRequest(front + back, available)
         == FilterRequest(front, available) + FilterRequest(back, available)
  {
    StripEachAppend(front, back);
    KeepAvailableAppend(StripEach(front), StripEach(back), available);
  }

  /** A single token is kept, stripped, iff it is available. */
  lemma FilterRequestOne(token: string, available: seq<string>)
    ensures FilterRequest([token], available) == if Strip(token) in available then [Strip(token)] else []
  {
    assert StripEach([token]) == [Strip(token)];
    assert KeepAvailable([Strip(token)], available) == KeepAvailable([], available) + (if Strip(token) in available then [Strip(token)] else []);
  }

  /** The parts of a request line: the line is stripped, upper-cased and cut
      at every comma; joining the parts with commas gives that line back. */
  function RequestTokens(seatLine: string): (tokens: seq<string>)
    ensures |tokens| >= 1
    ensures forall k :: 0 <= k < |tokens| ==> ',' !in tokens[k]
    ensures Join(tokens, ',') == Upper(Strip(seatLine))
  {
    JoinSplit(Upper(Strip(seatLine)), ',');
    Split(Upper(Strip(seatLine)), ',')
  }

  /** The seats a request line names that are still free for the session:
      valid grid labels, not booked, in the order typed. */
  function RequestedSeats(seatLine: string, booked: seq<string>): (seats: seq<string>)
    ensures forall s :: s in seats ==> IsValidLabel(s) && s !in booked
    ensures forall s :: s in seats <==>
              IsValidLabel(s) && s !in booked && s in StripEach(RequestTokens(seatLine))
  {
    FilterRequest(RequestTokens(seatLine), Available(booked))
  }

  /** The confirmation answer counts as yes iff it is "y" after
      `strip().lower()`. */
  predicate IsYes(confirmLine: string) {
    Lower(Strip(confirmLine)) == "y"
  }

  lemma IsYesCases(confirmLine: string)
    ensures IsYes(confirmLine) <==> Strip(confirmLine) == "y" || Strip(confirmLine) == "Y"
  {
    var a := Strip(confirmLine);
    if |a| == 1 {
      assert Lower(a) == [LowerChar(a[0])];
    }
  }

  datatype Failure = MovieNotFound | InvalidShowtime | NoValidSeats

  /** How one call of `book_seats` ends. */
  datatype Outcome =
    | Failed(reason: Failure)
    | Cancelled(summary: Booking)
    | Confirmed(record: Booking)

  /** `select_movie`: the first movie with the stripped id, then the showtime
      with the chosen number; or the reason the selection fails. */
  function SelectMovie(movies: seq<Movie>, movieIdLine: string, choiceLine: string): (session: Result<(Movie, string), Failure>)
    ensures session == Err(MovieNotFound) <==> FindMovie(movies, Strip(movieIdLine)).None?
    ensures session == Err(InvalidShowtime) <==>
              FindMovie(movies, Strip(movieIdLine)).Some? &&
              SelectShowtime(Showtimes(FindMovie(movies, Strip(movieIdLine)).value), choiceLine).None?
    ensures session.Err? ==> session.error != NoValidSeats
    ensures session.Ok? ==>
              && session.value.0 in movies
              && session.value.0.movieId == Strip(movieIdLine)
              && session.value.1 in Showtimes(session.value.0)
              && FindMovie(movies, Strip(movieIdLine)) == Some(session.value.0)
              && SelectShowtime(Showtimes(session.value.0), choiceLine) == Some(session.value.1)
  {
    match FindMovie(movies, Strip(movieIdLine))
    case None => Err(MovieNotFound)
    case Some(m) =>
      match SelectShowtime(Showtimes(m), choiceLine)
      case None => Err(InvalidShowtime)
      case Some(showtime) => Ok((m, showtime))
  }

  /** The record `book_seats` appends for a session once the seats are known:
      the seats joined by ';' and the total `len(seats) * price`. */
  function NewBooking(user: string, m: Movie, showtime: string, seats: seq<string>): (record: Booking)
    requires seats != [] && forall s :: s in seats ==> IsValidLabel(s)
    ensures SeatsOf(record) == seats
    ensures record.total == |SeatsOf(record)| * m.price
    ensures InSession(record, m.movieId, showtime)
    ensures record.username == user && record.movieName == m.name && record.seats == Join(seats, ';')
  {
    forall k | 0 <= k < |seats| ensures ';' !in seats[k] { ValidLabelIsPlain(seats[k]); }
    SplitJoin(seats, ';');
    Booking(user, m.movieId, m.name, showtime, Join(seats, ';'), |seats| * m.price)
  }

  /** Everything `book_seats` decides before it asks for confirmation: the
      record it would append, or the reason it stops. */
  function Plan(movies: seq<Movie>, bookings: seq<Booking>, user: string,
                movieIdLine: string, choiceLine: string, seatLine: string): Result<Booking, Failure>
  {
    match SelectMovie(movies, movieIdLine, choiceLine)
    case Err(reason) => Err(reason)
    case Ok((m, showtime)) =>
      var seats := RequestedSeats(seatLine, BookedSeats(bookings, m.movieId, showtime));
      if seats == [] then Err(NoValidSeats)
      else Ok(NewBooking(user, m, showtime, seats))
  }

  /** Why a reservation stops: a failed selection keeps its reason, and after
      a successful one the only failure is that no requested seat is free. */
  lemma PlanFailures(movies: seq<Movie>, bookings: seq<Booking>, user: string,
                     movieIdLine: string, choiceLine: string, seatLine: string)
    ensures var plan := Plan(movies, bookings, user, movieIdLine, choiceLine, seatLine);
            var session := SelectMovie(movies, movieIdLine, choiceLine);
            && (session.Err? ==> plan == Err(session.error))
            && (session.Ok? ==>
                  var seats := RequestedSeats(seatLine, BookedSeats(bookings, session.value.0.movieId, session.value.1));
                  (plan.Err? <==> seats == []) && (plan.Err? ==> plan.error == NoValidSeats))
  {
  }

  /** A planned record belongs to the user, is for the selected movie and
      showtime at that movie's price, and holds exactly the free requested
      seats: a non-empty list of grid labels that the session has not booked. */
  lemma PlanRecord(movies: seq<Movie>, bookings: seq<Booking>, user: string,
                   movieIdLine: string, choiceLine: string, seatLine: string)
    ensures var plan := Plan(movies, bookings, user, movieIdLine, choiceLine, seatLine);
            plan.Ok? ==>
              var record := plan.value;
              && SelectMovie(movies, movieIdLine, choiceLine).Ok?
              && var (m, showtime) := SelectMovie(movies, movieIdLine, choiceLine).value;
              && record.username == user
              && record.movieId == m.movieId && record.movieName == m.name && record.showtime == showtime
              && SeatsOf(record) == RequestedSeats(seatLine, BookedSeats(bookings, m.movieId, showtime))
              && SeatsOf(record) != []
              && record.seats == Join(SeatsOf(record), ';')
              && record.total == |SeatsOf(record)| * m.price
              && (forall s :: s in SeatsOf(record) ==> IsValidLabel(s) && s !in BookedSeats(bookings, m.movieId, showtime))
  {
  }

  /** A planned record holds exactly the free requested seats of its own
      session. */
  lemma PlanSeats(movies: seq<Movie>, bookings: seq<Booking>, user: string,
                  movieIdLine: string, choiceLine: string, seatLine: string)
    ensures var plan := Plan(movies, bookings, user, movieIdLine, choiceLine, seatLine);
            plan.Ok? ==>
              SeatsOf(plan.value) == RequestedSeats(seatLine, BookedSeats(bookings, plan.value.movieId, plan.value.showtime))
  {
  }

  /** A planned record belongs to the user who asked for it. */
  lemma PlanUser(movies: seq<Movie>, bookings: seq<Booking>, user: string,
                 movieIdLine: string, choiceLine: string, seatLine: string)
    ensures var plan := Plan(movies, bookings, user, movieIdLine, choiceLine, seatLine);
            plan.Ok? ==> plan.value.username == user
  {
  }

  /** A confirmed reservation keeps the ledger consistent: its seats are grid
      labels that no earlier record of the same session holds. */
  lemma ReserveKeepsConsistent(movies: seq<Movie>, bookings: seq<Booking>, user: string,
                               movieIdLine: string, choiceLine: string, seatLine: string)
    requires Consistent(bookings)
    ensures var plan := Plan(movies, bookings, user, movieIdLine, choiceLine, seatLine);
            plan.Ok? ==> Consistent(bookings + [plan.value])
  {
    var plan := Plan(movies, bookings, user, movieIdLine, choiceLine, seatLine);
    if plan.Ok? {
      PlanRecord(movies, bookings, user, movieIdLine, choiceLine, seatLine);
      AppendKeepsConsistent(bookings, plan.value);
    }
  }

  /** After a confirmed reservation the session's booked list is the old one
      followed by the newly requested seats, and every other session's booked
      list is unchanged. */
  lemma ReserveBooksRequestedSeats(movies: seq<Movie>, bookings: seq<Booking>, user: string,
                                   movieIdLine: string, choiceLine: string, seatLine: string,
                                   movieId: string, showtime: string)
    ensures var plan := Plan(movies, bookings, user, movieIdLine, choiceLine, seatLine);
            var before := BookedSeats(bookings, movieId, showtime);
            plan.Ok? ==>
              BookedSeats(bookings + [plan.value], movieId, showtime)
                == if InSession(plan.value, movieId, showtime) then before + RequestedSeats(seatLine, before) else before
  {
    var plan := Plan(movies, bookings, user, movieIdLine, choiceLine, seatLine);
    if plan.Ok? {
      PlanSeats(movies, bookings, user, movieIdLine, choiceLine, seatLine);
      BookedSeatsAppendOne(bookings, plan.value, movieId, showtime);
    }
  }

  /** A confirmed reservation adds its record to the end of the user's
      bookings and leaves every other user's bookings unchanged. */
  lemma ReserveAddsUserBooking(movies: seq<Movie>, bookings: seq<Booking>, user: string,
                               movieIdLine: string, choiceLine: string, seatLine: string,
                               someone: string)
    ensures var plan := Plan(movies, bookings, user, movieIdLine, choiceLine, seatLine);
            plan.Ok? ==>
              UserBookings(bookings + [plan.value], someone)
                == if someone == user then UserBookings(bookings, someone) + [plan.value] else UserBookings(bookings, someone)
  {
    var plan := Plan(movies, bookings, user, movieIdLine, choiceLine, seatLine);
    if plan.Ok? {
      PlanUser(movies, bookings, user, movieIdLine, choiceLine, seatLine);
      UserBookingsAppendOne(bookings, plan.value, someone);
    }
  }

  /** No two names in the user list are equal. */
  ghost predicate NoDuplicates(names: seq<string>) {
    forall i, j :: 0 <= i < j < |names| ==> names[i] != names[j]
  }

  /**
   * The three stores of the booking program. The catalogue is fixed when the
   * stores are loaded; bookings and users only grow.
   */
  class BookingSystem {
    const movies: seq<Movie>
    var bookings: seq<Booking>
    var users: seq<string>

    /** The stores as loaded at start-up. */
    constructor (movies: seq<Movie>, bookings: seq<Booking>, users: seq<string>)
      ensures this.movies == movies && this.bookings == bookings && this.users == users
    {
      this.movies := movies;
      this.bookings := bookings;
      this.users := users;
    }

    /** `register_user`: the stripped name is appended to the user list unless
        it is already there. */
    method Register(usernameLine: string) returns (registered: Option<string>)
      modifies this`users
      ensures var name := Strip(usernameLine);
              if name in old(users) then registered == None && users == old(users)
              else registered == Some(name) && users == old(users) + [name]
      ensures NoDuplicates(old(users)) ==> NoDuplicates(users)
    {
      var name := Strip(usernameLine);
      if name in users {
        registered := None;
      } else {
        users := users + [name];
        registered := Some(name);
      }
    }

    /** `login_user`: the stripped name is accepted iff it is a registered
        user. */
    method Login(usernameLine: string) returns (user: Option<string>)
      ensures user.Some? <==> exists i :: 0 <= i < |users| && users[i] == Strip(usernameLine)
      ensures user.Some? ==> user.value == Strip(usernameLine)
    {
      var name := Strip(usernameLine);
      if name in users {
        user := Some(name);
      } else {
        user := None;
      }
    }

    /** `book_seats`: resolve the movie and the showtime, compute the seats
        still free, keep the requested ones that are, and append exactly one
        record when the answer is yes. Nothing is appended on any failure or
        on any other answer. */
    method Reserve(user: string, movieIdLine: string, choiceLine: string, seatLine: string, confirmLine: string)
      returns (outcome: Outcome)
      modifies this`bookings
      ensures match Plan(movies, old(bookings), user, movieIdLine, choiceLine, seatLine)
              case Err(reason) => outcome == Failed(reason) && bookings == old(bookings)
              case Ok(record) =>
                if IsYes(confirmLine) then outcome == Confirmed(record) && bookings == old(bookings) + [record]
                else outcome == Cancelled(record) && bookings == old(bookings)
      ensures Consistent(old(bookings)) ==> Consistent(bookings)
    {
      var plan := Plan(movies, bookings, user, movieIdLine, choiceLine, seatLine);
      match plan
      case Err(reason) =>
        outcome := Failed(reason);
      case Ok(record) =>
        if IsYes(confirmLine) {
          if Consistent(bookings) {
            ReserveKeepsConsistent(movies, bookings, user, movieIdLine, choiceLine, seatLine);
          }
          bookings := bookings + [record];
          outcome := Confirmed(record);
        } else {
          outcome := Cancelled(record);
        }
    }
  }
}
