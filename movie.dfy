/**
 * The `Movie` object: a fixed grid of seats plus the booking counter, with
 * the operations that book, release and draw seats in place.
 */
module Cinema {
  import opened Wrappers
  import opened Text
  import opened Seats
  import opened BookingIds
  import opened Allocation
  import opened Input
  import Chart

  /** Every id on the grid is a booking id numbered at most `counter`. */
  predicate IdsUpTo(g: Grid, counter: nat) {
    forall i, j :: 0 <= i < |g| && 0 <= j < |g[i]| && g[i][j].bookingId.Some? ==>
      IdNumber(g[i][j].bookingId.value).Some? && IdNumber(g[i][j].bookingId.value).value <= counter
  }

  /** The id a fresh booking mints has never been handed out: no seat carries it. */
  lemma NextIdUnused(g: Grid, counter: nat)
    requires IdsUpTo(g, counter)
    ensures Count(g, Holds(BookingId(counter + 1))) == 0
  {
    BookingIdNumber(counter + 1);
  }

  /** Booking under an id already issued keeps every id on the grid issued. */
  lemma FillKeepsIds(g: Grid, probes: seq<Pos>, k: nat, counter: nat, n: int)
    requires IdsUpTo(g, counter) && k <= counter
    ensures IdsUpTo(FillAlong(g, probes, BookingId(k), n).grid, counter)
  {
    var f: Grid := FillAlong(g, probes, BookingId(k), n).grid;
    FillChanges(g, probes, BookingId(k), n);
    BookingIdNumber(k);
    forall i, j | 0 <= i < |f| && 0 <= j < |f[i]| && f[i][j].bookingId.Some?
      ensures IdNumber(f[i][j].bookingId.value).Some? && IdNumber(f[i][j].bookingId.value).value <= counter
    {
      if f[i][j] != g[i][j] {
        assert f[i][j].bookingId.value == BookingId(k);
      }
    }
  }

  lemma IdsUpToGrow(g: Grid, a: nat, b: nat)
    requires IdsUpTo(g, a) && a <= b
    ensures IdsUpTo(g, b)
  {
  }

  /** Releasing seats keeps every id on the grid issued. */
  lemma ReleaseKeepsIds(g: Grid, id: string, counter: nat)
    requires IdsUpTo(g, counter)
    ensures IdsUpTo(Release(g, id), counter)
  {
  }

  /** Walking an anchored booking takes at most what a fresh one would, and
      every seat it takes now carries its id. */
  lemma AnchoredBookingCounts(g: Grid, rows: nat, cols: nat, r: nat, c: int, id: string, n: int)
    requires IsRect(g, rows, cols) && AllValid(g)
    ensures var f := FillAlong(g, AnchoredProbes(r, c, rows, cols), id, n);
            Count(f.grid, IsFree) <= Count(g, IsFree) &&
            Count(g, IsFree) - Count(f.grid, IsFree) <= Taken(n, Count(g, IsFree)) &&
            Count(f.grid, Holds(id)) == Count(g, Holds(id)) + (Count(g, IsFree) - Count(f.grid, IsFree))
  {
    var probes := AnchoredProbes(r, c, rows, cols);
    FillRemaining(g, probes, id, n);
    FillCountsFree(g, probes, id, n);
    FillCountsHolds(g, probes, id, n);
    if n <= 0 {
      FillIdle(g, probes, id, n);
    }
  }

  class Movie {
    const title: string
    const rows: nat
    const cols: nat
    const seats: array2<Seat>
    /** The number of the last booking id minted. */
    var counter: nat

    /** The seats as a grid value, front row first. */
    function Seating(): (g: Grid)
      reads seats
      ensures |g| == seats.Length0
      ensures forall i :: 0 <= i < |g| ==> |g[i]| == seats.Length1
      ensures forall i, j :: 0 <= i < seats.Length0 && 0 <= j < seats.Length1 ==> g[i][j] == seats[i, j]
    {
      seq(seats.Length0, i requires 0 <= i < seats.Length0 reads seats =>
        seq(seats.Length1, j requires 0 <= j < seats.Length1 reads seats => seats[i, j]))
    }

    predicate Valid()
      reads this, seats
    {
      && seats.Length0 == rows && seats.Length1 == cols
      && MinRows <= rows <= MaxRows && MinCols <= cols <= MaxCols
      && AllValid(Seating()) && IdsUpTo(Seating(), counter)
    }

    /** A movie with every seat free and no booking made. */
    constructor (title: string, rows: nat, cols: nat)
      requires MinRows <= rows <= MaxRows && MinCols <= cols <= MaxCols
      ensures Valid() && fresh(seats)
      ensures this.title == title && this.rows == rows && this.cols == cols && counter == 0
      ensures Seating() == NewGrid(rows, cols)
      ensures SeatsUnbooked() == rows * cols
    {
      this.title := title;
      this.rows := rows;
      this.cols := cols;
      seats := new Seat[rows, cols]((i, j) => FreeSeat);
      counter := 0;
      new;
      GridEq(Seating(), NewGrid(rows, cols));
      CountBound(Seating(), rows, cols, IsFree);
    }

    /** Parse a line of user text and build the movie it describes. */
    static method FromUserInput(input: string) returns (r: Result<Movie, InputError>)
      ensures r.Failure? <==> ParseInput(input).Failure?
      ensures r.Failure? ==> r.error == ParseInput(input).error
      ensures r.Success? ==>
                var m := ParseInput(input).value;
                && fresh(r.value) && r.value.Valid() && r.value.counter == 0
                && r.value.title == m.title && r.value.rows == m.rows && r.value.cols == m.cols
                && r.value.SeatsUnbooked() == m.rows * m.cols
    {
      var parsed := ParseInput(input);
      if parsed.Failure? {
        return Failure(parsed.error);
      }
      var m := new Movie(parsed.value.title, parsed.value.rows, parsed.value.cols);
      return Success(m);
    }

    /** The number of free seats. */
    function SeatsUnbooked(): (k: nat)
      reads this, seats
      requires Valid()
      ensures k <= rows * cols
      ensures k == 0 <==> forall i, j :: 0 <= i < rows && 0 <= j < cols ==> seats[i, j].isBooked
    {
      CountBound(Seating(), rows, cols, IsFree);
      Count(Seating(), IsFree)
    }

    /** `seat.book(id)` on the seat at (i, j). */
    method BookSeat(i: nat, j: nat, id: string)
      requires i < seats.Length0 && j < seats.Length1
      modifies seats
      ensures Seating() == old(Seating())[i := old(Seating())[i][j := old(seats[i, j]).Book(id)]]
    {
      ghost var g0 := Seating();
      seats[i, j] := seats[i, j].Book(id);
      GridEq(Seating(), g0[i := g0[i][j := old(seats[i, j]).Book(id)]]);
    }

    /** `seat.unbook()` on the seat at (i, j). */
    method UnbookSeat(i: nat, j: nat)
      requires i < seats.Length0 && j < seats.Length1
      modifies seats
      ensures Seating() == old(Seating())[i := old(Seating())[i][j := old(seats[i, j]).Unbook()]]
    {
      ghost var g0 := Seating();
      seats[i, j] := seats[i, j].Unbook();
      GridEq(Seating(), g0[i := g0[i][j := old(seats[i, j]).Unbook()]]);
    }

    /** One probe of a booking with seats still to book: a free seat is
        booked and counted, a booked one is skipped. */
    method Probe(i: nat, j: nat, id: string, remaining0: int) returns (remaining: int)
      requires i < seats.Length0 && j < seats.Length1 && remaining0 > 0
      modifies seats
      ensures Fill(Seating(), remaining) == Step(Fill(old(Seating()), remaining0), Pos(i, j), id)
    {
      remaining := remaining0;
      if !seats[i, j].isBooked {
        BookSeat(i, j, id);
        remaining := remaining - 1;
      }
    }

    /** A probe taken as the next step `t` of a walk along `probes` from `g0`. */
    method ProbeNext(i: nat, j: nat, id: string, remaining0: int, ghost g0: Grid, ghost probes: seq<Pos>, ghost t: nat, ghost n: int)
      returns (remaining: int)
      requires i < seats.Length0 && j < seats.Length1 && remaining0 > 0
      requires t < |probes| && probes[t] == Pos(i, j)
      requires Fill(Seating(), remaining0) == FillAlong(g0, probes[..t], id, n)
      modifies seats
      ensures Fill(Seating(), remaining) == FillAlong(g0, probes[..t + 1], id, n)
    {
      ghost var before := Fill(Seating(), remaining0);
      remaining := Probe(i, j, id, remaining0);
      SnocStep(g0, probes, t, id, n, before, Pos(i, j));
    }

    /** The two-pointer loop over row `r`: left pointer, then right pointer,
        then both step outward, until a pointer leaves the row; it stops as
        soon as nothing remains to book. */
    method FillRow(r: nat, id: string, n: int) returns (remaining: int)
      requires seats.Length0 == rows && seats.Length1 == cols && r < rows
      modifies seats
      ensures Fill(Seating(), remaining) == FillAlong(old(Seating()), RowProbes(r, cols), id, n)
    {
      ghost var g0 := Seating();
      ghost var probes := RowProbes(r, cols);
      var left: int := cols / 2;
      var right: int := cols / 2;
      if cols % 2 == 0 {
        left := left - 1;
      }
      assert left == LeftStart(cols) && right == RightStart(cols);
      remaining := n;
      ghost var k: nat := 0;
      ghost var t: nat := 0;
      while left >= 0 && right < cols
        invariant k <= Rounds(cols) && t == 2 * k
        invariant left == LeftStart(cols) - k && right == RightStart(cols) + k
        invariant Fill(Seating(), remaining) == FillAlong(g0, probes[..t], id, n)
        decreases cols - right
      {
        if remaining <= 0 {
          break;
        }
        RoundProbes(r, cols, k);
        remaining := ProbeNext(r, left, id, remaining, g0, probes, t, n);
        t := t + 1;
        if remaining <= 0 {
          break;
        }
        remaining := ProbeNext(r, right, id, remaining, g0, probes, t, n);
        t := t + 1;
        left := left - 1;
        right := right + 1;
        k := k + 1;
      }
      if remaining <= 0 {
        WalkStops(g0, probes, t, id, n);
      } else {
        PointersInside(cols, k);
        assert probes[..t] == probes;
      }
    }

    /** The loop over `row[c:]` of the anchor row: skip booked seats, book
        free ones, stop as soon as nothing remains to book. */
    method FillRightward(r: nat, c: int, id: string, n: int) returns (remaining: int)
      requires seats.Length0 == rows && seats.Length1 == cols && r < rows
      modifies seats
      ensures Fill(Seating(), remaining) == FillAlong(old(Seating()), Rightward(r, SliceStart(c, cols), cols), id, n)
    {
      ghost var g0 := Seating();
      var s := SliceStart(c, cols);
      ghost var probes := Rightward(r, s, cols);
      remaining := n;
      var j := s;
      while j < cols
        invariant s <= j <= cols
        invariant Fill(Seating(), remaining) == FillAlong(g0, probes[..j - s], id, n)
      {
        if remaining <= 0 {
          WalkStops(g0, probes, j - s, id, n);
          return;
        }
        assert probes[j - s] == Pos(r, j);
        remaining := ProbeNext(r, j, id, remaining, g0, probes, j - s, n);
        j := j + 1;
      }
      assert probes[..cols - s] == probes;
    }

    /** The loop over `self._seats[lo:]`: every row from `lo` on, each centre-out. */
    method FillRowsFrom(lo: nat, id: string, n: int) returns (remaining: int)
      requires seats.Length0 == rows && seats.Length1 == cols && lo <= rows
      modifies seats
      ensures Fill(Seating(), remaining) == FillRows(old(Seating()), lo, rows, cols, id, n)
    {
      ghost var g0 := Seating();
      remaining := n;
      var r := lo;
      while r < rows
        invariant lo <= r <= rows
        invariant Fill(Seating(), remaining) == FillRows(g0, lo, r, cols, id, n)
      {
        remaining := FillRow(r, id, remaining);
        r := r + 1;
      }
    }

    /** The two loops of an anchored booking: row `r` rightward from column
        `c`, then every later row centre-out. */
    method FillAnchored(r: nat, c: int, id: string, n: int) returns (remaining: int)
      requires seats.Length0 == rows && seats.Length1 == cols && r < rows
      modifies seats
      ensures Fill(Seating(), remaining) == FillAlong(old(Seating()), AnchoredProbes(r, c, rows, cols), id, n)
    {
      ghost var g0 := Seating();
      remaining := FillRightward(r, c, id, n);
      ghost var f1 := Fill(Seating(), remaining);
      remaining := FillRowsFrom(r + 1, id, remaining);
      AnchoredChain(g0, r, c, rows, cols, id, n, f1, Fill(Seating(), remaining));
    }

    /** The anchored branch of `book`: reuse the current id, fill row `r`
        rightward from column `c`, then every later row centre-out. */
    method BookAnchored(n: int, r: nat, c: int) returns (id: string)
      requires Valid() && r < rows
      modifies seats
      ensures Valid()
      ensures id == BookingId(counter)
      ensures Seating() == FillAlong(old(Seating()), AnchoredProbes(r, c, rows, cols), id, n).grid
    {
      ghost var g0 := Seating();
      id := BookingId(counter);
      FillValid(g0, AnchoredProbes(r, c, rows, cols), id, n);
      FillKeepsIds(g0, AnchoredProbes(r, c, rows, cols), counter, counter, n);
      var remaining := FillAnchored(r, c, id, n);
    }

    /** The fresh branch of `book`: mint the next id and fill every row from
        the front, centre-out. */
    method BookFresh(n: int) returns (id: string)
      requires Valid()
      modifies this, seats
      ensures Valid()
      ensures counter == old(counter) + 1 && id == BookingId(counter)
      ensures Count(old(Seating()), Holds(id)) == 0
      ensures Seating() == FillAlong(old(Seating()), FreshProbes(rows, cols), id, n).grid
    {
      ghost var g0 := Seating();
      NextIdUnused(g0, counter);
      IdsUpToGrow(g0, counter, counter + 1);
      counter := counter + 1;
      id := BookingId(counter);
      FillRowsAlong(g0, 0, rows, cols, id, n);
      var remaining := FillRowsFrom(0, id, n);
      FillValid(g0, FreshProbes(rows, cols), id, n);
      FillKeepsIds(g0, FreshProbes(rows, cols), counter, counter, n);
    }

    /** `book(n)` without an anchor mints the next id and fills every row from
        the front, centre-out; with an anchor (row, col) it reuses the current
        id, fills the anchor row rightward from the column and then every
        later row centre-out. Fewer than `n` seats are taken when fewer are
        free. */
    method Book(n: int, rowIndex: Option<int>, colIndex: Option<int>) returns (id: string)
      requires Valid()
      requires rowIndex.Some? && colIndex.Some? ==> 0 <= rowIndex.value < rows
      modifies this, seats
      ensures Valid()
      ensures rowIndex.Some? && colIndex.Some? ==>
                && counter == old(counter) && id == BookingId(counter)
                && Seating() == FillAlong(old(Seating()), AnchoredProbes(rowIndex.value, colIndex.value, rows, cols), id, n).grid
                && old(SeatsUnbooked()) - SeatsUnbooked() <= Taken(n, old(SeatsUnbooked()))
                && Count(Seating(), Holds(id)) == Count(old(Seating()), Holds(id)) + (old(SeatsUnbooked()) - SeatsUnbooked())
      ensures !(rowIndex.Some? && colIndex.Some?) ==>
                && counter == old(counter) + 1 && id == BookingId(counter)
                && Count(old(Seating()), Holds(id)) == 0
                && Seating() == FillAlong(old(Seating()), FreshProbes(rows, cols), id, n).grid
                && SeatsUnbooked() == old(SeatsUnbooked()) - Taken(n, old(SeatsUnbooked()))
                && Count(Seating(), Holds(id)) == Taken(n, old(SeatsUnbooked()))
    {
      ghost var g0 := Seating();
      if rowIndex.Some? && colIndex.Some? {
        id := BookAnchored(n, rowIndex.value, colIndex.value);
        AnchoredBookingCounts(g0, rows, cols, rowIndex.value, colIndex.value, id, n);
      } else {
        id := BookFresh(n);
        FreshBookingCounts(g0, rows, cols, id, n);
      }
    }

    /** `unbook(id)`: every seat carrying `id` is released, every other seat is left as it was. */
    method Unbook(id: string)
      requires Valid()
      modifies seats
      ensures Valid()
      ensures Seating() == Release(old(Seating()), id)
      ensures SeatsUnbooked() == old(SeatsUnbooked()) + Count(old(Seating()), Holds(id))
      ensures Count(Seating(), Holds(id)) == 0
    {
      ghost var g0 := Seating();
      var i := 0;
      while i < rows
        invariant i <= rows
        invariant forall i', j' :: 0 <= i' < rows && 0 <= j' < cols ==>
                    seats[i', j'] == if i' < i then ReleaseSeat(g0[i'][j'], id) else g0[i'][j']
      {
        var j := 0;
        while j < cols
          invariant j <= cols
          invariant forall i', j' :: 0 <= i' < rows && 0 <= j' < cols ==>
                      seats[i', j'] == if i' < i || (i' == i && j' < j) then ReleaseSeat(g0[i'][j'], id) else g0[i'][j']
        {
          if seats[i, j].bookingId == Some(id) {
            UnbookSeat(i, j);
          }
          j := j + 1;
        }
        i := i + 1;
      }
      GridEq(Seating(), Release(g0, id));
      ReleaseValid(g0, id);
      ReleaseKeepsIds(g0, id, counter);
      ReleaseCounts(g0, id);
    }

    /** One seat line of `get_map`: the row letter, then each seat's glyph. */
    method DrawRow(r: nat, id: string, ghost row: seq<Seat>) returns (line: string)
      requires seats.Length0 == rows && seats.Length1 == cols && r < rows && rows <= MaxRows
      requires |row| == cols && forall j :: 0 <= j < cols ==> row[j] == seats[r, j]
      ensures line == Chart.RowLine(row, r, id)
    {
      var cells: seq<string> := [[Chart.RowLabel(r)]];
      var j := 0;
      while j < cols
        invariant j <= cols
        invariant cells == Chart.RowCells(row, r, id)[..j + 1]
      {
        ghost var all := Chart.RowCells(row, r, id);
        Chart.RowCellAt(row, r, id, j);
        assert all[..j + 2] == all[..j + 1] + [all[j + 1]];
        cells := cells + [[seats[r, j].GetChr(id)]];
        j := j + 1;
      }
      assert cells == Chart.RowCells(row, r, id);
      line := Join(Chart.Gap, cells);
    }

    /** The footer of `get_map`: a blank, then the column numbers from 1. */
    method DrawFooter() returns (line: string)
      ensures line == Chart.Footer(cols)
    {
      var footer: seq<string> := [" "];
      var k := 0;
      while k < cols
        invariant k <= cols
        invariant footer == [" "] + Chart.Labels(1, k + 1)
      {
        assert Chart.Labels(1, k + 2) == Chart.Labels(1, k + 1) + [NatToString(k + 1)];
        footer := footer + [NatToString(k + 1)];
        k := k + 1;
      }
      line := Join(Chart.Gap, footer);
    }

    /** `get_map(id)`: the chart of the seats as seen by the holder of `id`. */
    method GetMap(id: string) returns (chart: string)
      requires Valid()
      ensures chart == Chart.Render(Seating(), id)
    {
      ghost var g := Seating();
      var width := Chart.Width(cols);
      var parts: seq<string> := [];
      parts := parts + ["Booking id: " + id];
      parts := parts + ["Selected seats:\n"];
      parts := parts + [Centre(Chart.Banner, width)];
      parts := parts + [Repeat('-', width)];
      ghost var head := parts;
      var index := 0;
      while index < rows
        invariant index <= rows
        invariant parts == head + Chart.RowLines(g, id)[..index]
      {
        var line := DrawRow(rows - 1 - index, id, g[rows - 1 - index]);
        parts := parts + [line];
        assert Chart.RowLines(g, id)[..index + 1] == Chart.RowLines(g, id)[..index] + [Chart.RowLines(g, id)[index]];
        index := index + 1;
      }
      var footer := DrawFooter();
      parts := parts + [footer];
      assert Chart.RowLines(g, id)[..rows] == Chart.RowLines(g, id);
      assert parts == Chart.MapParts(g, id);
      chart := Join("\n", parts);
    }
  }
}
