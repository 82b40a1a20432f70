/**
 * The fixed seat topology of every screen: `Rows` rows of `SeatsPerRow`
 * seats, labelled by a row letter from 'A' followed by the 1-based seat
 * number in decimal ("A1" .. "E10").
 */
module SeatGrid {
  import opened Text

  const SeatsPerRow: nat := 10
  const Rows: nat := 5
  const SeatLimit: nat := SeatsPerRow * Rows

  /** The label of a seat: the row letter counted from 'A', then the 1-based
      seat number in decimal. */
  function SeatLabel(row: nat, col: nat): (name: string)
    requires row < Rows && col < SeatsPerRow
    ensures IsValidLabel(name)
    ensures name[0] as int == 'A' as int + row
    ensures DigitsValue(name[1..]) == col + 1
  {
    var name := [(65 + row) as char] + DecimalString(col + 1);
    assert name[1..] == DecimalString(col + 1);
    name
  }

  /** A string is a seat label of the grid: a row letter 'A'.. followed by a
      decimal seat number 1..SeatsPerRow written without leading zeros. */
  predicate IsValidLabel(s: string) {
    && |s| >= 2
    && 'A' as int <= s[0] as int < 'A' as int + Rows
    && IsDigits(s[1..])
    && s[1] != '0'
    && 1 <= DigitsValue(s[1..]) <= SeatsPerRow
  }

  /** Reading a valid label back: its row and column. */
  function SeatPosition(s: string): (pos: (nat, nat))
    requires IsValidLabel(s)
    ensures pos.0 < Rows && pos.1 < SeatsPerRow
    ensures SeatLabel(pos.0, pos.1) == s
  {
    var pos := (s[0] as int - 'A' as int, DigitsValue(s[1..]) - 1);
    DecimalOfDigits(s[1..]);
    assert s == [s[0]] + s[1..];
    pos
  }

  /** position -> label -> position is the identity on the grid, so distinct
      positions have distinct labels. */
  lemma LabelRoundTrip(row: nat, col: nat)
    requires row < Rows && col < SeatsPerRow
    ensures SeatPosition(SeatLabel(row, col)) == (row, col)
  {
  }

  /** A seat label is made of one upper-case letter and decimal digits, so it
      holds no separator, no whitespace and nothing `upper()` changes. */
  lemma ValidLabelIsPlain(s: string)
    requires IsValidLabel(s)
    ensures ';' !in s && ',' !in s
    ensures !IsSpace(s[0]) && !IsSpace(s[|s| - 1])
    ensures Upper(s) == s
  {
    forall i | 1 <= i < |s|
      ensures IsDigit(s[i])
    {
      assert s[i] == s[1..][i - 1];
    }
    assert Upper(s) == s;
  }

  /** `generate_seat_list()`: the labels of the whole grid in row-major
      order, every one of them a valid label. */
  function AllSeats(): (seats: seq<string>)
    ensures |seats| == SeatLimit
    ensures forall k :: 0 <= k < |seats| ==> IsValidLabel(seats[k])
  {
    seq(SeatLimit, k requires 0 <= k < SeatLimit => SeatLabel(k / SeatsPerRow, k % SeatsPerRow))
  }

  /** Row-major order: seat `col` of row `row` is entry
      `row * SeatsPerRow + col` of the grid. */
  lemma AllSeatsRowMajor(row: nat, col: nat)
    requires row < Rows && col < SeatsPerRow
    ensures row * SeatsPerRow + col < SeatLimit
    ensures AllSeats()[row * SeatsPerRow + col] == SeatLabel(row, col)
  {
    var k := row * SeatsPerRow + col;
    assert k / SeatsPerRow == row && k % SeatsPerRow == col;
  }

  /** The grid holds exactly the valid labels. */
  lemma AllSeatsAreValidLabels()
    ensures forall s :: s in AllSeats() <==> IsValidLabel(s)
  {
    var seats := AllSeats();
    forall s | s in seats
      ensures IsValidLabel(s)
    {
      var k :| 0 <= k < |seats| && seats[k] == s;
      assert seats[k] == SeatLabel(k / SeatsPerRow, k % SeatsPerRow);
    }
    forall s | IsValidLabel(s)
      ensures s in seats
    {
      var pos := SeatPosition(s);
      AllSeatsRowMajor(pos.0, pos.1);
    }
  }

  /** No label appears twice in the grid. */
  lemma AllSeatsDistinct(i: nat, j: nat)
    requires i < j < SeatLimit
    ensures AllSeats()[i] != AllSeats()[j]
  {
    var seats := AllSeats();
    assert seats[i] == SeatLabel(i / SeatsPerRow, i % SeatsPerRow);
    assert seats[j] == SeatLabel(j / SeatsPerRow, j % SeatsPerRow);
    LabelRoundTrip(i / SeatsPerRow, i % SeatsPerRow);
    LabelRoundTrip(j / SeatsPerRow, j % SeatsPerRow);
    assert (i / SeatsPerRow, i % SeatsPerRow) != (j / SeatsPerRow, j % SeatsPerRow);
  }

  /** `show_seat_map`: the grid of markers, row by row; `true` is a booked
      seat ("X"), `false` an available one ("O"). */
  method SeatMap(booked: seq<string>) returns (grid: seq<seq<bool>>)
    ensures |grid| == Rows
    ensures forall row :: 0 <= row < Rows ==> |grid[row]| == SeatsPerRow
    ensures forall row, col :: 0 <= row < Rows && 0 <= col < SeatsPerRow ==>
              (grid[row][col] <==> SeatLabel(row, col) in booked)
  {
    grid := [];
    var row := 0;
    while row < Rows
      invariant 0 <= row <= Rows && |grid| == row
      invariant forall r :: 0 <= r < row ==> |grid[r]| == SeatsPerRow
      invariant forall r, c :: 0 <= r < row && 0 <= c < SeatsPerRow ==>
                  (grid[r][c] <==> SeatLabel(r, c) in booked)
    {
      var line: seq<bool> := [];
      var col := 0;
      while col < SeatsPerRow
        invariant 0 <= col <= SeatsPerRow && |line| == col
        invariant forall c :: 0 <= c < col ==> (line[c] <==> SeatLabel(row, c) in booked)
      {
        line := line + [SeatLabel(row, col) in booked];
        col := col + 1;
      }
      grid := grid + [line];
      row := row + 1;
    }
  }
}
