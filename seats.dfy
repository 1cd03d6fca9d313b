/**
 * A seat and the rectangular grid of seats a screening holds, with the
 * counts and the release operation defined over the grid.
 */
module Seats {
  import opened Wrappers

  /** One seat: whether it is booked and the id of the booking holding it. */
  datatype Seat = Seat(isBooked: bool, bookingId: Option<string>) {

    /** The invariant every operation keeps: a seat carries an id exactly when it is booked. */
    predicate Valid() {
      isBooked <==> bookingId.Some?
    }

    /** `Seat.book`: the seat booked under `id`; it shows `o` for that id and `#` for any other. */
    function Book(id: string): (s: Seat)
      ensures s.Valid() && s.isBooked
      ensures s.GetChr(id) == 'o'
      ensures forall other :: other != id ==> s.GetChr(other) == '#'
    {
      Seat(true, Some(id))
    }

    /** `Seat.unbook`: the seat released; it shows `.` whatever id the chart is drawn for. */
    function Unbook(): (s: Seat)
      ensures s.Valid() && !s.isBooked
      ensures forall target :: s.GetChr(target) == '.'
    {
      Seat(false, None)
    }

    /** `Seat.get_chr`: the glyph of this seat on a chart drawn for booking `target`. */
    function GetChr(target: string): char
    {
      if isBooked && bookingId == Some(target) then 'o'
      else if isBooked then '#'
      else '.'
    }
  }

  /** A seat as `Seat()` creates it. */
  const FreeSeat: Seat := Seat(false, None)

  /** On a valid seat the glyph tells exactly who holds it: `o` for the target
      id, `#` for another id, `.` for nobody. */
  lemma GlyphOwnership(s: Seat, target: string)
    requires s.Valid()
    ensures s.GetChr(target) == 'o' <==> s.bookingId == Some(target)
    ensures s.GetChr(target) == '#' <==> s.bookingId.Some? && s.bookingId != Some(target)
    ensures s.GetChr(target) == '.' <==> s.bookingId == None
  {
  }

  /** Rows of seats; row 0 is the front row, labelled `A`. */
  type Grid = seq<seq<Seat>>

  predicate IsRect(g: Grid, rows: nat, cols: nat) {
    |g| == rows && forall i :: 0 <= i < |g| ==> |g[i]| == cols
  }

  /** Two grids with the same shape and the same seats are equal. */
  lemma GridEq(a: Grid, b: Grid)
    requires |a| == |b| && forall i :: 0 <= i < |a| ==> |a[i]| == |b[i]|
    requires forall i, j :: 0 <= i < |a| && 0 <= j < |a[i]| ==> a[i][j] == b[i][j]
    ensures a == b
  {
    forall i | 0 <= i < |a| ensures a[i] == b[i] {
      assert forall j :: 0 <= j < |a[i]| ==> a[i][j] == b[i][j];
    }
  }

  predicate AllValid(g: Grid) {
    forall i, j :: 0 <= i < |g| && 0 <= j < |g[i]| ==> g[i][j].Valid()
  }

  /** The grid `Movie.__init__` builds: `rows` rows of `cols` fresh seats. */
  function NewGrid(rows: nat, cols: nat): (g: Grid)
    ensures IsRect(g, rows, cols) && AllValid(g)
    ensures forall i, j :: 0 <= i < rows && 0 <= j < cols ==> g[i][j] == FreeSeat
  {
    seq(rows, _ => seq(cols, _ => FreeSeat))
  }

  predicate IsFree(s: Seat) {
    !s.isBooked
  }

  /** The seats a booking `id` holds. */
  function Holds(id: string): Seat -> bool {
    (s: Seat) => s.bookingId == Some(id)
  }

  function Indicator(b: bool): nat {
    if b then 1 else 0
  }

  /** The number of seats of a row satisfying `p`. */
  function CountInRow(row: seq<Seat>, p: Seat -> bool): (k: nat)
    ensures k <= |row|
    ensures k == 0 <==> forall j :: 0 <= j < |row| ==> !p(row[j])
    ensures k == |row| <==> forall j :: 0 <= j < |row| ==> p(row[j])
  {
    if row == [] then 0 else Indicator(p(row[0])) + CountInRow(row[1..], p)
  }

  /** The number of seats of a grid satisfying `p`. */
  function Count(g: Grid, p: Seat -> bool): (k: nat)
    ensures k == 0 <==> forall i, j :: 0 <= i < |g| && 0 <= j < |g[i]| ==> !p(g[i][j])
  {
    if g == [] then 0
    else
      var k := CountInRow(g[0], p) + Count(g[1..], p);
      assert forall i, j :: 1 <= i < |g| && 0 <= j < |g[i]| ==> g[i][j] == g[1..][i - 1][j];
      k
  }

  lemma MulStep(rows: nat, cols: nat)
    requires rows > 0
    ensures rows * cols == cols + (rows - 1) * cols
  {
  }

  /** On a `rows` x `cols` grid, at most `rows * cols` seats satisfy `p`, and
      exactly that many when every seat does. */
  lemma {:induction false} CountBound(g: Grid, rows: nat, cols: nat, p: Seat -> bool)
    requires IsRect(g, rows, cols)
    ensures Count(g, p) <= rows * cols
    ensures (forall i, j :: 0 <= i < rows && 0 <= j < cols ==> p(g[i][j])) ==> Count(g, p) == rows * cols
    decreases rows
  {
    if rows > 0 {
      var rest := g[1..];
      assert IsRect(rest, rows - 1, cols);
      CountBound(rest, rows - 1, cols, p);
      assert Count(g, p) == CountInRow(g[0], p) + Count(rest, p);
      MulStep(rows, cols);
      if forall i, j :: 0 <= i < rows && 0 <= j < cols ==> p(g[i][j]) {
        assert forall j :: 0 <= j < cols ==> p(g[0][j]);
        forall i, j | 0 <= i < rows - 1 && 0 <= j < cols ensures p(rest[i][j]) {
          assert rest[i][j] == g[i + 1][j];
        }
      }
    }
  }

  lemma {:induction false} CountInRowAfterSet(row: seq<Seat>, j: nat, s: Seat, p: Seat -> bool)
    requires j < |row|
    ensures CountInRow(row[j := s], p) + Indicator(p(row[j])) == CountInRow(row, p) + Indicator(p(s))
    decreases j
  {
    if j > 0 {
      assert row[j := s][1..] == row[1..][j - 1 := s];
      CountInRowAfterSet(row[1..], j - 1, s, p);
    }
  }

  /** Replacing one seat changes a count by that seat's contribution only. */
  lemma {:induction false} CountAfterSet(g: Grid, i: nat, j: nat, s: Seat, p: Seat -> bool)
    requires i < |g| && j < |g[i]|
    ensures Count(g[i := g[i][j := s]], p) + Indicator(p(g[i][j])) == Count(g, p) + Indicator(p(s))
    decreases i
  {
    if i == 0 {
      assert g[i := g[i][j := s]][1..] == g[1..];
      CountInRowAfterSet(g[0], j, s, p);
    } else {
      assert g[i := g[i][j := s]][1..] == g[1..][i - 1 := g[i][j := s]];
      CountAfterSet(g[1..], i - 1, j, s, p);
    }
  }

  /** What `Movie.unbook` does to one seat. */
  function ReleaseSeat(s: Seat, id: string): Seat {
    if s.bookingId == Some(id) then s.Unbook() else s
  }

  function ReleaseRow(row: seq<Seat>, id: string): (r: seq<Seat>)
    ensures |r| == |row|
  {
    seq(|row|, j requires 0 <= j < |row| => ReleaseSeat(row[j], id))
  }

  /** `Movie.unbook(id)` on a grid: every seat carrying `id` is released. */
  function Release(g: Grid, id: string): (r: Grid)
    ensures |r| == |g| && forall i :: 0 <= i < |g| ==> |r[i]| == |g[i]|
  {
    seq(|g|, i requires 0 <= i < |g| => ReleaseRow(g[i], id))
  }

  lemma {:induction false} ReleaseRowCounts(row: seq<Seat>, id: string)
    requires forall j :: 0 <= j < |row| ==> row[j].Valid()
    ensures CountInRow(ReleaseRow(row, id), IsFree) == CountInRow(row, IsFree) + CountInRow(row, Holds(id))
    ensures CountInRow(ReleaseRow(row, id), Holds(id)) == 0
    decreases |row|
  {
    if row != [] {
      assert ReleaseRow(row, id)[1..] == ReleaseRow(row[1..], id);
      ReleaseRowCounts(row[1..], id);
    }
  }

  /** Releasing `id` frees exactly the seats it held, and afterwards no seat holds it. */
  lemma {:induction false} ReleaseCounts(g: Grid, id: string)
    requires AllValid(g)
    ensures Count(Release(g, id), IsFree) == Count(g, IsFree) + Count(g, Holds(id))
    ensures Count(Release(g, id), Holds(id)) == 0
    decreases |g|
  {
    if g != [] {
      assert Release(g, id)[1..] == Release(g[1..], id);
      ReleaseRowCounts(g[0], id);
      ReleaseCounts(g[1..], id);
    }
  }

  /** Releasing an id that no seat carries leaves the grid as it was. */
  lemma ReleaseAbsent(g: Grid, id: string)
    requires Count(g, Holds(id)) == 0
    ensures Release(g, id) == g
  {
    assert forall i, j :: 0 <= i < |g| && 0 <= j < |g[i]| ==> !Holds(id)(g[i][j]);
    forall i | 0 <= i < |g|
      ensures Release(g, id)[i] == g[i]
    {
    }
  }

  /** Releasing keeps every seat valid. */
  lemma ReleaseValid(g: Grid, id: string)
    requires AllValid(g)
    ensures AllValid(Release(g, id))
  {
  }
}
