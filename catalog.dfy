/**
 * The movie catalogue: read-only records, the lookup by movie id and the
 * choice of a showtime by its number on the menu.
 */
module Catalog {
  import opened Wrappers
  import opened Text

  /** One catalogue row; `showtimes` is the raw comma-separated field. */
  datatype Movie = Movie(
    movieId: string,
    name: string,
    genre: string,
    screen: string,
    showtimes: string,
    price: int)

  /** The movie's showtimes: its comma-separated showtimes field, each part
      stripped. */
  function Showtimes(m: Movie): (times: seq<string>)
    ensures |times| == |Split(m.showtimes, ',')| >= 1
    ensures forall k :: 0 <= k < |times| ==> times[k] == Strip(Split(m.showtimes, ',')[k])
  {
    var fields := Split(m.showtimes, ',');
    seq(|fields|, k requires 0 <= k < |fields| => Strip(fields[k]))
  }

  /** A listed showtime contains no comma and no surrounding whitespace. */
  lemma ShowtimesAreClean(m: Movie, k: nat)
    requires k < |Showtimes(m)|
    ensures ',' !in Showtimes(m)[k]
    ensures Strip(Showtimes(m)[k]) == Showtimes(m)[k]
  {
    var field := Split(m.showtimes, ',')[k];
    var t := Strip(field);
    var lo, hi :| 0 <= lo <= hi <= |field| && t == field[lo..hi];
    assert ',' !in field;
    forall i | 0 <= i < |t|
      ensures t[i] != ','
    {
      assert t[i] == field[lo + i];
    }
    StripIdempotent(field);
  }

  /** The lookup of a movie by id: the first movie with that id, or nothing
      when no movie has it. */
  function FindMovie(movies: seq<Movie>, movieId: string): (found: Option<Movie>)
    ensures found.None? <==> forall i :: 0 <= i < |movies| ==> movies[i].movieId != movieId
    ensures found.Some? ==> exists i :: 0 <= i < |movies| && movies[i] == found.value
                              && found.value.movieId == movieId
                              && forall j :: 0 <= j < i ==> movies[j].movieId != movieId
  {
    if movies == [] then None
    else if movies[0].movieId == movieId then Some(movies[0])
    else
      var found := FindMovie(movies[1..], movieId);
      assert found.Some? ==> exists i :: 0 <= i < |movies| && movies[i] == found.value
                              && forall j :: 0 <= j < i ==> movies[j].movieId != movieId by {
        if found.Some? {
          var i :| 0 <= i < |movies[1..]| && movies[1..][i] == found.value
                   && forall j :: 0 <= j < i ==> movies[1..][j].movieId != movieId;
          assert movies[i + 1] == found.value;
          forall j | 0 <= j < i + 1
            ensures movies[j].movieId != movieId
          {
            if j > 0 { assert movies[j] == movies[1..][j - 1]; }
          }
        }
      }
      found
  }

  /** The showtime-number check of `select_movie`: the stripped choice must be
      a digit string whose value n lies in 1..|showtimes|; then the n-th
      showtime is chosen. */
  function SelectShowtime(showtimes: seq<string>, choiceLine: string): (selected: Option<string>)
    ensures selected.Some? <==>
              var c := Strip(choiceLine); IsDigits(c) && 1 <= DigitsValue(c) <= |showtimes|
    ensures selected.Some? ==> selected.value == showtimes[DigitsValue(Strip(choiceLine)) - 1]
  {
    var choice := Strip(choiceLine);
    if IsDigits(choice) && 1 <= DigitsValue(choice) <= |showtimes| then
      Some(showtimes[DigitsValue(choice) - 1])
    else None
  }

  /** Typing the number the menu prints next to a showtime (`i + 1`, line by
      line) selects exactly that showtime. */
  lemma SelectListedShowtime(showtimes: seq<string>, i: nat)
    requires i < |showtimes|
    ensures SelectShowtime(showtimes, DecimalString(i + 1)) == Some(showtimes[i])
  {
    var c := DecimalString(i + 1);
    assert !IsSpace(c[0]) && !IsSpace(c[|c| - 1]);
    StripUnchanged(c);
  }

  /** Choices the menu rejects: anything that is not a digit string after
      stripping, zero, and numbers past the last showtime. */
  lemma SelectShowtimeRejects(showtimes: seq<string>, choiceLine: string)
    requires var c := Strip(choiceLine);
             !IsDigits(c) || DigitsValue(c) == 0 || DigitsValue(c) > |showtimes|
    ensures SelectShowtime(showtimes, choiceLine) == None
  {
  }
}
