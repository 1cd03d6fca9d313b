/**
 * Reading a movie's title, row count and seats per row from one line of
 * user text (`Movie.from_user_input`).
 */
module Input {
  import opened Wrappers
  import opened Text

  const MinRows: nat := 1
  const MaxRows: nat := 26
  const MinCols: nat := 1
  const MaxCols: nat := 50

  /** The four `ValueError`s the parser raises, one per check, in check order. */
  datatype InputError = BadFormat | EmptyTitle | BadRowCount | BadSeatCount
  {
    function Message(): string {
      match this
      case BadFormat => "Invalid input format. Expected: [Title] [Row] [SeatsPerRow]."
      case EmptyTitle => "Movie title cannot be empty."
      case BadRowCount => "Row number must be between 1 and 26."
      case BadSeatCount => "Seats per row must be between 1 and 50."
    }
  }

  /** What a successful parse hands to the `Movie` constructor. */
  datatype MovieSpec = MovieSpec(title: string, rows: nat, cols: nat)

  /** `t.isdecimal() and lo <= int(t) <= hi`. */
  predicate InRange(t: string, lo: nat, hi: nat) {
    IsDecimal(t) && lo <= DecimalValue(t) <= hi
  }

  /** The dimensions a movie may have. */
  predicate Admissible(m: MovieSpec) {
    IsToken(m.title) && MinRows <= m.rows <= MaxRows && MinCols <= m.cols <= MaxCols
  }

  /** The checks of `from_user_input`, in the source's order. */
  function ParseInput(s: string): (r: Result<MovieSpec, InputError>)
    ensures r.Success? ==> Admissible(r.value)
    ensures r.Success? <==>
      |Split(s)| == 3 && InRange(Split(s)[1], MinRows, MaxRows) && InRange(Split(s)[2], MinCols, MaxCols)
    ensures r.Success? ==> r.value.title == Split(s)[0]
    ensures r.Success? ==> r.value.rows == DecimalValue(Split(s)[1]) && r.value.cols == DecimalValue(Split(s)[2])
    ensures r == Failure(BadFormat) <==> |Split(s)| != 3
    ensures r != Failure(EmptyTitle)
    ensures r == Failure(BadRowCount) <==> |Split(s)| == 3 && !InRange(Split(s)[1], MinRows, MaxRows)
  {
    var ts := Split(s);
    if |ts| != 3 then Failure(BadFormat)
    else
      var title, rows, cols := ts[0], ts[1], ts[2];
      if |title| == 0 then Failure(EmptyTitle)
      else if !InRange(rows, MinRows, MaxRows) then Failure(BadRowCount)
      else if !InRange(cols, MinCols, MaxCols) then Failure(BadSeatCount)
      else Success(MovieSpec(title, DecimalValue(rows), DecimalValue(cols)))
  }

  /** The canonical way to type a movie: title, rows and seats per row, one space apart. */
  function FormatInput(m: MovieSpec): string {
    Join(" ", [m.title, NatToString(m.rows), NatToString(m.cols)])
  }

  /** Every admissible movie can be typed in, and parsing its text gives it back. */
  lemma ParseFormat(m: MovieSpec)
    requires Admissible(m)
    ensures ParseInput(FormatInput(m)) == Success(m)
  {
    var ts := [m.title, NatToString(m.rows), NatToString(m.cols)];
    forall i | 0 <= i < 3 ensures IsToken(ts[i]) {
      if i > 0 {
        assert IsDecimal(ts[i]);
      }
    }
    SplitJoin(ts);
    DecimalOfNatToString(m.rows);
    DecimalOfNatToString(m.cols);
  }

  /** Leading zeros are accepted: `int` ignores them. */
  lemma ParseLeadingZeros(m: MovieSpec, zr: nat, zc: nat)
    requires Admissible(m)
    ensures ParseInput(Join(" ", [m.title, Repeat('0', zr) + NatToString(m.rows), Repeat('0', zc) + NatToString(m.cols)]))
            == Success(m)
  {
    var rs, cs := Repeat('0', zr) + NatToString(m.rows), Repeat('0', zc) + NatToString(m.cols);
    DecimalIgnoresLeadingZeros(zr, NatToString(m.rows));
    DecimalIgnoresLeadingZeros(zc, NatToString(m.cols));
    DecimalOfNatToString(m.rows);
    DecimalOfNatToString(m.cols);
    var ts := [m.title, rs, cs];
    forall i | 0 <= i < 3 ensures IsToken(ts[i]) {
      if i > 0 {
        assert IsDecimal(ts[i]);
      }
    }
    SplitJoin(ts);
  }
}
