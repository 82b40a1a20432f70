/**
 * Concrete cases of the reservation flow on a one-movie catalogue with two
 * showtimes and price 200. They show the flow as written: seats that are
 * malformed, off the grid or already booked are dropped from the request
 * without an error, and a seat named twice is booked and charged twice.
 */
module Scenarios {
  import opened Wrappers
  import opened Text
  import opened SeatGrid
  import opened Catalog
  import opened Ledger
  import opened Reservation

  const Feature := Movie("M1", "Feature", "Drama", "1", "10:00, 18:30", 200)

  lemma FeatureFields()
    ensures Split("10:00, 18:30", ',') == ["10:00", " 18:30"]
  {
    var parts := ["10:00", " 18:30"];
    assert ',' !in parts[0] && ',' !in parts[1];
    assert Join(parts, ',') == "10:00" + [','] + Join([" 18:30"], ',');
    assert Join(parts, ',') == "10:00, 18:30";
    SplitJoin(parts, ',');
  }

  lemma StripSecondField()
    ensures Strip(" 18:30") == "18:30"
  {
    var s := " 18:30";
    assert SkipLeading(s, 1) == 1;
    assert SkipLeading(s, 0) == 1;
    assert SkipTrailing(s, 1, 6) == 6;
    assert s[1..6] == "18:30";
  }

  lemma FeatureShowtimes()
    ensures Showtimes(Feature) == ["10:00", "18:30"]
  {
    FeatureFields();
    StripSecondField();
    StripUnchanged("10:00");
  }

  lemma DigitsOneTwoNine()
    ensures IsDigits("1") && DigitsValue("1") == 1
    ensures IsDigits("2") && DigitsValue("2") == 2
    ensures IsDigits("3") && DigitsValue("3") == 3
    ensures IsDigits("99") && DigitsValue("99") == 99
  {
    assert "1"[..0] == [] && "2"[..0] == [] && "3"[..0] == [];
    assert "99"[..1] == "9" && "9"[..0] == [];
  }

  /** Movie "M1", showtime number 1, selects the first showtime. */
  lemma SelectFirstShowtime()
    ensures SelectMovie([Feature], "M1", "1") == Ok((Feature, "10:00"))
  {
    FeatureShowtimes();
    StripUnchanged("M1");
    StripUnchanged("1");
    DigitsOneTwoNine();
  }

  /** Showtime number 99 on a movie with two showtimes is rejected. */
  lemma ShowtimeOutOfRange()
    ensures SelectMovie([Feature], "M1", "99") == Err(InvalidShowtime)
  {
    FeatureShowtimes();
    StripUnchanged("M1");
    StripUnchanged("99");
    DigitsOneTwoNine();
  }

  /** An unknown movie id. */
  lemma UnknownMovie()
    ensures SelectMovie([Feature], " M7 ", "1") == Err(MovieNotFound)
  {
    var s := " M7 ";
    assert SkipLeading(s, 1) == 1 && SkipLeading(s, 0) == 1;
    assert SkipTrailing(s, 1, 3) == 3 && SkipTrailing(s, 1, 4) == 3;
    assert Strip(s) == "M7";
  }

  lemma ValidA1A2A3()
    ensures IsValidLabel("A1") && IsValidLabel("A2") && IsValidLabel("A3")
  {
    DigitsOneTwoNine();
    assert "A1"[1..] == "1" && "A2"[1..] == "2" && "A3"[1..] == "3";
  }

  /** A request line of two plain seat labels splits into those labels. */
  lemma TwoTokens(a: string, b: string)
    requires IsValidLabel(a) && IsValidLabel(b)
    ensures RequestTokens(a + "," + b) == [a, b]
    ensures StripEach([a, b]) == [a, b]
  {
    ValidLabelIsPlain(a);
    ValidLabelIsPlain(b);
    var line := a + "," + b;
    assert Join([a, b], ',') == line;
    assert !IsSpace(line[0]) && line[|line| - 1] == b[|b| - 1];
    StripUnchanged(line);
    UpperAppend(a, ",");
    UpperAppend(a + ",", b);
    assert Upper(",") == ",";
    SplitJoin([a, b], ',');
    StripUnchanged(a);
    StripUnchanged(b);
  }

  /** Filtering two stripped tokens keeps each one that is available. */
  lemma KeepTwo(a: string, b: string, available: seq<string>)
    ensures KeepAvailable([a, b], available)
         == (if a in available then [a] else []) + (if b in available then [b] else [])
  {
    assert [a, b][..1] == [a];
    assert [a][..0] == [];
    var first := if a in available then [a] else [];
    assert KeepAvailable([a], available) == KeepAvailable([], available) + first;
    assert KeepAvailable([a, b], available) == KeepAvailable([a], available) + (if b in available then [b] else []);
  }

  /** What a two-label request line keeps of those labels, given what is booked. */
  lemma RequestTwo(a: string, b: string, booked: seq<string>)
    requires IsValidLabel(a) && IsValidLabel(b)
    ensures RequestedSeats(a + "," + b, booked)
         == (if a !in booked then [a] else []) + (if b !in booked then [b] else [])
  {
    TwoTokens(a, b);
    KeepTwo(a, b, Available(booked));
  }

  /** A request for the first showtime of the feature, in terms of the seats
      it keeps. */
  lemma PlanFirstShowtime(bookings: seq<Booking>, user: string, seatLine: string)
    requires RequestedSeats(seatLine, BookedSeats(bookings, "M1", "10:00")) != []
    ensures Plan([Feature], bookings, user, "M1", "1", seatLine)
         == Ok(NewBooking(user, Feature, "10:00", RequestedSeats(seatLine, BookedSeats(bookings, "M1", "10:00"))))
  {
    SelectFirstShowtime();
  }

  const AliceBooking := Booking("alice", "M1", "Feature", "10:00", "A1;A2", 400)

  lemma EmptyRequest(a: string, b: string)
    requires IsValidLabel(a) && IsValidLabel(b)
    ensures RequestedSeats(a + "," + b, BookedSeats([], "M1", "10:00")) == [a, b]
  {
    var booked := BookedSeats([], "M1", "10:00");
    assert booked == [];
    RequestTwo(a, b, booked);
    assert a !in booked && b !in booked;
  }

  /** A request of two free seats for the first showtime on an empty ledger. */
  lemma EmptyLedgerPlan(user: string, a: string, b: string)
    requires IsValidLabel(a) && IsValidLabel(b)
    ensures Plan([Feature], [], user, "M1", "1", a + "," + b) == Ok(NewBooking(user, Feature, "10:00", [a, b]))
  {
    EmptyRequest(a, b);
    PlanFirstShowtime([], user, a + "," + b);
  }

  lemma AliceRecord()
    ensures NewBooking("alice", Feature, "10:00", ["A1", "A2"]) == AliceBooking
  {
    ValidA1A2A3();
    assert Join(["A1", "A2"], ';') == "A1;A2";
  }

  /** On an empty ledger, alice's request "A1,A2" for the first showtime is
      kept whole and priced 2 * 200. */
  lemma AliceBooksTwoSeats()
    ensures Plan([Feature], [], "alice", "M1", "1", "A1,A2") == Ok(AliceBooking)
  {
    ValidA1A2A3();
    assert "A1" + "," + "A2" == "A1,A2";
    EmptyLedgerPlan("alice", "A1", "A2");
    AliceRecord();
  }

  /** Alice's record books A1 then A2 for the first showtime. */
  lemma AliceSeats()
    ensures BookedSeats([AliceBooking], "M1", "10:00") == ["A1", "A2"]
  {
    assert [AliceBooking][..0] == [];
    assert Join(["A1", "A2"], ';') == "A1;A2";
    SplitJoin(["A1", "A2"], ';');
  }

  /** After alice's booking, bob's request "A2,A3" keeps only A3 (A2 is
      dropped without an error) and is priced 1 * 200. */
  lemma BobLosesA2()
    ensures Plan([Feature], [AliceBooking], "bob", "M1", "1", "A2,A3")
         == Ok(Booking("bob", "M1", "Feature", "10:00", "A3", 200))
  {
    ValidA1A2A3();
    var booked := BookedSeats([AliceBooking], "M1", "10:00");
    AliceSeats();
    assert "A2" + "," + "A3" == "A2,A3";
    RequestTwo("A2", "A3", booked);
    assert "A2" in booked && "A3" !in booked;
    PlanFirstShowtime([AliceBooking], "bob", "A2,A3");
    assert Join(["A3"], ';') == "A3";
  }

  lemma DuplicateRecord()
    ensures NewBooking("alice", Feature, "10:00", ["A1", "A1"]) == Booking("alice", "M1", "Feature", "10:00", "A1;A1", 400)
  {
    ValidA1A2A3();
    assert Join(["A1", "A1"], ';') == "A1;A1";
  }

  /** A seat named twice is kept twice: the record lists it twice and the
      price is charged for both. */
  lemma DuplicateSeatChargedTwice()
    ensures Plan([Feature], [], "alice", "M1", "1", "A1,A1")
         == Ok(Booking("alice", "M1", "Feature", "10:00", "A1;A1", 400))
  {
    ValidA1A2A3();
    assert "A1" + "," + "A1" == "A1,A1";
    EmptyLedgerPlan("alice", "A1", "A1");
    DuplicateRecord();
  }

  lemma OffGridRequest()
    ensures RequestedSeats("Z9", []) == []
  {
    StripUnchanged("Z9");
    assert Upper("Z9") == "Z9";
    SplitPlain("Z9", ',');
    assert StripEach(["Z9"]) == ["Z9"];
    assert !IsValidLabel("Z9");
    assert KeepAvailable(["Z9"], Available([])) == [] by {
      assert ["Z9"][..0] == [];
    }
  }

  /** A row letter past the grid names no seat, so nothing is booked. */
  lemma OffGridSeat()
    ensures Plan([Feature], [], "alice", "M1", "1", "Z9") == Err(NoValidSeats)
  {
    SelectFirstShowtime();
    OffGridRequest();
    assert BookedSeats([], "M1", "10:00") == [];
  }
}
