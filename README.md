# Movie ticket booking: seat inventory and reservation core

This project is a Dafny model of the reservation logic in `MTB/movie_ticket_booking.py`,
a console program for booking cinema seats. The model works over three stores:

- a movie catalogue that never changes;
- a bookings ledger that is only appended to;
- a user list that is only appended to.

Every screen has the same grid of 5 rows of 10 seats. A seat is labelled by a row letter
from `A` followed by its 1-based number (`A1` .. `E10`). A session is one (movie id,
showtime) pair. Its booked seats are recomputed from the whole ledger on every booking.

One call of `book_seats` does the following:
1. Select the movie by its stripped id, then a showtime by its number.
2. Compute the seats already booked for that session.
3. Turn the request line into seats: upper-case it, split it on commas and strip each part.
   Keep each part that is an available seat.
4. Price the booking at `len(seats) * price`.
5. On a `y` answer, append exactly one record, with the seats joined by `;`.

The central property is proved, not assumed: a confirmed booking never reuses a seat that
an earlier record of the same session holds. Every stored seat is also a grid label. The
ledger invariant `Ledger.Consistent` states both, and `Reserve` preserves it.

Layout, one module per file:
- `wrappers.dfy`: `Option` and `Result`.
- `text.dfy`: the string operations the program uses: `strip`, `upper`, `lower`,
  `split`, `join`, `isdigit`, `int` and `str`.
- `seat_grid.dfy`: the constants, seat labels, `generate_seat_list` and the seat map.
- `catalog.dfy`: movies, the lookup by id and the choice of a showtime.
- `ledger.dfy`: booking records, `get_booked_seats`, the per-user query and the invariant.
- `reservation.dfy`: availability, request filtering, the pure decision `Plan` with its lemmas, and the
  class `BookingSystem`. The class holds the stores and has the methods `Register`,
  `Login` and `Reserve`.
- `scenarios.dfy`: concrete cases on a one-movie catalogue.

The program reports no error for a single seat:
- A requested seat that is malformed, off the grid or already booked is dropped, and the
  booking goes ahead with the rest. It stops only when nothing is left.
  `Scenarios.BobLosesA2` shows a booked seat being dropped and the rest still sold.
- A seat named twice in one request is kept twice and charged twice
  (`Scenarios.DuplicateSeatChargedTwice`). Records of the same session are still
  disjoint from each other.
- Nothing is checked again when the record is appended.

User input is passed in as the raw lines typed: movie id, showtime number, seat list,
confirmation and user name. The model applies the program's own normalisation to them.

## Model

| member | source | states |
|---|---|---|
| Text.Strip | MTB/movie_ticket_booking.py:103-104 | the result is no longer than the input and neither starts nor ends with whitespace |
| Text.StripCutsWhitespace | MTB/movie_ticket_booking.py:103-104 | the strip is an infix of the input, and everything cut off on either side is whitespace |
| Text.StripUnchanged | MTB/movie_ticket_booking.py:104 | a string with no whitespace at either end is its own strip |
| Text.StripIdempotent | MTB/movie_ticket_booking.py:103-104 | stripping twice is the same as stripping once |
| Text.Upper | MTB/movie_ticket_booking.py:103 | same length, each ASCII lower-case letter is upper-cased, and every other character is kept |
| Text.Lower | MTB/movie_ticket_booking.py:114 | same length, each ASCII upper-case letter is lower-cased, and every other character is kept |
| Text.Split | MTB/movie_ticket_booking.py:91 | `split(sep)` yields at least one piece, and no piece contains the separator |
| Text.Join | MTB/movie_ticket_booking.py:121 | `sep.join(parts)`: the pieces with the separator between each two; it has no ensures of its own, and `Text.SplitJoin` and `Text.JoinSplit` tie it to `split` in both directions |
| Text.SplitJoin | MTB/movie_ticket_booking.py:91 | splitting what `sep.join` produced gives the pieces back, when there is at least one piece and none contains `sep` |
| Text.JoinSplit | MTB/movie_ticket_booking.py:121 | joining the pieces of a split gives the original string |
| Text.IsDigits | MTB/movie_ticket_booking.py:84 | `isdigit()`: a non-empty string of ASCII digits; a predicate with no ensures, used by `Catalog.SelectShowtime`'s contract |
| Text.DigitsValue | MTB/movie_ticket_booking.py:87 | `int(s)` of a digit string, most significant digit first; no ensures of its own, and `Text.DecimalString` and `Text.DecimalOfDigits` make it the inverse of `str` |
| Text.DecimalString | MTB/movie_ticket_booking.py:59 | `str(n)` is a non-empty digit string without leading zeros whose value is `n` |
| Text.DecimalOfDigits | MTB/movie_ticket_booking.py:84 | a digit string without leading zeros is `str` of its `int` value (the other round trip) |
| SeatGrid.SeatLabel | MTB/movie_ticket_booking.py:54 | `chr(65+row) + str(col+1)` is a valid grid label whose letter encodes the row and whose number is `col+1` |
| SeatGrid.SeatPosition | MTB/movie_ticket_booking.py:58-59 | every valid label is the label of an in-grid (row, col) |
| SeatGrid.ValidLabelIsPlain | MTB/movie_ticket_booking.py:103-104 | a label holds no `;`, no `,` and no whitespace at its ends, and upper-casing leaves it unchanged |
| SeatGrid.AllSeats | MTB/movie_ticket_booking.py:58-59 | `generate_seat_list` holds `ROWS * SEATS_PER_ROW` = 50 entries, each a valid grid label |
| SeatGrid.AllSeatsRowMajor | MTB/movie_ticket_booking.py:58-59 | the label of (row, col) is at position `row*10+col`: the list is in row-major order |
| SeatGrid.AllSeatsAreValidLabels | MTB/movie_ticket_booking.py:58-59 | a string is in the seat list iff it is a valid grid label |
| SeatGrid.AllSeatsDistinct | MTB/movie_ticket_booking.py:58-59 | the 50 labels are pairwise distinct |
| SeatGrid.SeatMap | MTB/movie_ticket_booking.py:50-56 | the nested row/column loops give a 5 x 10 grid whose cell (row, col) is booked iff that seat's label is in the booked list |
| Catalog.Showtimes | MTB/movie_ticket_booking.py:80 | the showtimes are the comma-separated fields, each stripped, and there is at least one |
| Catalog.ShowtimesAreClean | MTB/movie_ticket_booking.py:80 | a listed showtime contains no comma and is already stripped |
| Catalog.FindMovie | MTB/movie_ticket_booking.py:76-79 | there is no result iff no movie has the id; otherwise the result is the first movie with that id |
| Catalog.SelectShowtime | MTB/movie_ticket_booking.py:83-87 | succeeds iff the stripped choice is a non-empty digit string with value in 1..len(showtimes), and then gives `showtimes[int(choice)-1]` |
| Catalog.SelectListedShowtime | MTB/movie_ticket_booking.py:81-87 | typing the number the menu prints beside a showtime (`i+1`) selects exactly that showtime |
| Catalog.SelectShowtimeRejects | MTB/movie_ticket_booking.py:84-86 | a non-digit choice, 0, or a number past the last showtime selects nothing |
| Ledger.BookedSeats | MTB/movie_ticket_booking.py:89-92 | a seat is booked for a session iff some record of that session lists it; records of other sessions contribute nothing |
| Ledger.SeatsOf | MTB/movie_ticket_booking.py:91 | a record's seats are its seat field split at `;`; no ensures of its own, and `Reservation.NewBooking` proves that a stored record's split gives back exactly the seats booked |
| Ledger.BookedSeatsAppend | MTB/movie_ticket_booking.py:91 | the booked list is the in-order concatenation of the records' seat lists: for a concatenated ledger it is the first part's list followed by the second's |
| Ledger.UserBookings | MTB/movie_ticket_booking.py:128-130 | a record is in a user's bookings iff it is in the ledger under that username |
| Ledger.BookedSeatsAppendOne | MTB/movie_ticket_booking.py:89-92 | appending one record adds its seats to the end of its own session's booked list and changes no other session's list |
| Ledger.UserBookingsAppend | MTB/movie_ticket_booking.py:130 | the user's records keep ledger order: the filter commutes with concatenation |
| Ledger.UserBookingsAppendOne | MTB/movie_ticket_booking.py:128-130 | appending one record adds it to the end of its owner's bookings and changes no other user's |
| Ledger.AppendKeepsConsistent | MTB/movie_ticket_booking.py:98-104 | appending a record whose seats are grid labels not booked for its session keeps every session's records pairwise disjoint and every seat on the grid |
| Ledger.Consistent | MTB/movie_ticket_booking.py:98-104 | the ledger invariant: no two records of the same session share a seat, and every stored seat is a grid label; a ghost predicate with no ensures, preserved by `Ledger.AppendKeepsConsistent` and `Reservation.BookingSystem.Reserve` |
| Reservation.Available | MTB/movie_ticket_booking.py:100-101 | a seat is available iff it is a valid grid label that is not booked |
| Reservation.Remaining | MTB/movie_ticket_booking.py:101 | an entry is kept iff it is in the given list and not booked |
| Reservation.KeepAvailable | MTB/movie_ticket_booking.py:104 | an entry is kept iff it is available |
| Reservation.KeepAvailableAppend | MTB/movie_ticket_booking.py:104 | filtering commutes with concatenation, so order and repetitions are preserved |
| Reservation.StripEach | MTB/movie_ticket_booking.py:104 | one stripped token per token, in the same order |
| Reservation.FilterRequest | MTB/movie_ticket_booking.py:104 | a seat is kept iff it is available and is the strip of some token |
| Reservation.FilterRequestAppend | MTB/movie_ticket_booking.py:104 | the request is filtered token by token, in order; duplicates are not removed |
| Reservation.FilterRequestOne | MTB/movie_ticket_booking.py:104 | a single token is kept, stripped, iff its strip is available |
| Reservation.RequestTokens | MTB/movie_ticket_booking.py:103 | the stripped, upper-cased line cut at commas: at least one part, none containing a comma, and joining the parts with commas gives that line back |
| Reservation.RequestedSeats | MTB/movie_ticket_booking.py:100-104 | every kept seat is a valid grid label and not booked; a seat is kept iff it is such a label and one of the request's stripped, upper-cased comma-separated parts |
| Reservation.IsYes | MTB/movie_ticket_booking.py:114-115 | the answer is yes iff `strip().lower()` gives `y`; a predicate with no ensures, characterised by `Reservation.IsYesCases` |
| Reservation.IsYesCases | MTB/movie_ticket_booking.py:114-115 | the answer confirms iff, stripped, it is `y` or `Y` |
| Reservation.SelectMovie | MTB/movie_ticket_booking.py:73-87 | fails with MovieNotFound iff no movie has the stripped id, and with InvalidShowtime iff the movie exists but the choice is rejected; on success the movie is in the catalogue with that id and the showtime is one of its showtimes |
| Reservation.NewBooking | MTB/movie_ticket_booking.py:111-123 | the record carries the user, the movie's id and name and the showtime; its `;`-joined seats split back to the seat list; its total is `len(seats) * price` |
| Reservation.Plan | MTB/movie_ticket_booking.py:94-111 | the decision `book_seats` makes before asking for confirmation: the record it would append, or why it stops; it has no ensures of its own, and its properties are stated by `Reservation.PlanFailures`, `Reservation.PlanRecord`, `Reservation.PlanSeats` and `Reservation.PlanUser` |
| Reservation.PlanFailures | MTB/movie_ticket_booking.py:94-108 | a failed selection stops the reservation with its own reason; after a successful selection the reservation stops iff no requested seat is free, and the reason is then NoValidSeats |
| Reservation.PlanRecord | MTB/movie_ticket_booking.py:98-111 | a planned record is the user's, for the selected movie and showtime; its seats are exactly the free requested seats, non-empty, grid labels and none booked for its session; it stores them `;`-joined; its total is `len(seats) * price` |
| Reservation.PlanSeats | MTB/movie_ticket_booking.py:98-104 | a planned record's seats are the free requested seats of the record's own session |
| Reservation.PlanUser | MTB/movie_ticket_booking.py:116-117 | a planned record belongs to the user who asked for it |
| Reservation.ReserveKeepsConsistent | MTB/movie_ticket_booking.py:98-123 | a confirmed reservation keeps the ledger consistent: no seat of the new record appears in an earlier record of the same session |
| Reservation.ReserveBooksRequestedSeats | MTB/movie_ticket_booking.py:89-92 | after a commit the session's booked list is the old list followed by the new seats, and every other session's list is unchanged |
| Reservation.ReserveAddsUserBooking | MTB/movie_ticket_booking.py:128-130 | after a commit the booking user's list gains the record at its end, and every other user's list is unchanged |
| Reservation.BookingSystem.constructor | MTB/movie_ticket_booking.py:12-16 | the stores start as loaded |
| Reservation.BookingSystem.Register | MTB/movie_ticket_booking.py:32-40 | an existing name is rejected and nothing changes; a new stripped name is appended; the user list stays free of duplicates; only the user list may change |
| Reservation.BookingSystem.Login | MTB/movie_ticket_booking.py:42-48 | succeeds iff the stripped name is in the user list, and returns that name |
| Reservation.BookingSystem.Reserve | MTB/movie_ticket_booking.py:94-126 | on any failure, or an answer other than `y`, the ledger is unchanged; on `y` exactly the planned record is appended after the old records; only the ledger may change; the ledger stays consistent |
| Scenarios.ShowtimeOutOfRange | MTB/movie_ticket_booking.py:84-86 | choosing showtime 99 of a movie with two showtimes fails with InvalidShowtime |
| Scenarios.UnknownMovie | MTB/movie_ticket_booking.py:76-79 | an id that no movie has fails with MovieNotFound |
| Scenarios.AliceBooksTwoSeats | MTB/movie_ticket_booking.py:98-123 | on an empty ledger, "A1,A2" for showtime 1 at price 200 gives the record `A1;A2` with total 400 |
| Scenarios.BobLosesA2 | MTB/movie_ticket_booking.py:101-104 | after that booking, "A2,A3" keeps only A3 and is priced 200: the booked seat is dropped without an error |
| Scenarios.DuplicateSeatChargedTwice | MTB/movie_ticket_booking.py:104-111 | "A1,A1" books `A1;A1` and charges 400 |
| Scenarios.OffGridSeat | MTB/movie_ticket_booking.py:104-107 | "Z9" names no grid seat, so the booking stops with NoValidSeats |

## Left out

- File and CSV I/O is left out: `load_csv`, `write_csv`, file handling in `append_csv`, `os.path.exists` and header rows. The stores are in-memory sequences given to the constructor, and an append is a sequence append. `write_csv` is never called. CSV quoting of fields is not modelled.
- Console I/O is left out: `input`, `print`, the `main` menu loop, and the text of every message. Each outcome of `book_seats` is an `Outcome` value instead.
- Display formatting is left out: `list_movies`, the seat map's X/O text and the listing in `view_user_bookings`. The seat map is a grid of booleans; the listing is `Ledger.UserBookings`.
- The genre grouping in `list_movies` is left out. It iterates a Python set, so its order is not deterministic, and it decides nothing.
- The bare `except` of `book_seats` is left out. Nothing in the modelled computation raises; only the console read could.
- Concurrency is left out. Across processes, the program can read the booked seats and then append after another process has appended. There is no locking and no commit-time conflict check, so the model has neither.
- The price is an `int` field of `Movie`. Python's `int(movie['price'])` on a malformed price raises outside the `try`; that error is not modelled. The stored `total` is the integer itself, not `str(total)`.
- Text.Strip: removes ASCII whitespace only (tab to carriage return, 0x1c to 0x1f, and space). Python's `strip()` also removes non-ASCII whitespace.
- Text.Upper: upper-cases ASCII letters only. Python's `upper()` also maps non-ASCII letters, some to several characters.
- Text.Lower: lower-cases ASCII letters only, unlike Python's `lower()`.
- Text.IsDigits: accepts ASCII digits only. Python's `isdigit()` also accepts other Unicode digits, for which `int()` may then raise.
