# Cinema seat booking, modelled in Dafny

This project models the seat-allocation engine of a cinema booking system
(`src/_types.py`). A screening (`Movie`) has a title, a rectangular grid
of seats and a booking counter. Each `Seat` is either free or booked under
a booking id of the form `GIC0001`. The engine:

- parses a movie from a line of user text;
- counts free seats;
- books seats under a new or current id;
- releases every seat held by an id;
- draws the text seating chart shown to the user.

Modules, one per concern:

- `Wrappers`: `Option` and `Result`.
- `Text`: the Python string operations the engine relies on (`split`,
  `join`, `isdecimal`, `int`, `str`, `zfill`, `center`), restricted to
  ASCII.
- `BookingIds`: the `GIC` + zero-padded counter ids, and reading the
  number back out of them.
- `Seats`: the `Seat` value, `get_chr`, grids of seats, seat counts, and
  releasing an id across a grid.
- `Allocation`: the booking policy, stated on grid values. A booking is a
  walk `FillAlong` over a sequence of probe positions. The walk books each
  free seat it meets until the requested number has been taken. A fresh
  booking walks every row from the front, each row from its centre
  outward with the two-pointer order. An anchored booking walks the
  anchor row rightward from the anchor column, then every later row
  centre-out.
- `Input`: `from_user_input`'s checks and error messages.
- `Chart`: the exact text of `get_map`. This covers the header, the
  banner centred in `max(27, 4 * cols)`, the rule, the seat lines from
  the back row to the front, and the footer of column numbers.
- `Cinema`: the `Movie` class.
  - Its seats are an `array2<Seat>`, updated in place.
  - The booking loops are methods with loop invariants. Each is proved
    equal to the `Allocation` walk it implements.
  - `Seating()` is the grid value of the array.
  - `Valid()` holds the class invariant: dimensions in range, every seat
    carrying an id exactly when booked, and every id on the grid issued
    by the counter.

Constants come from two places:

- rows 1..26 and seats per row 1..50, from the parser's error messages
  (`src/_types.py:82` and `:84`);
- ids padded to four digits, from the expected `GIC0001` in
  `tests/test_types.py:89`;
- a chart at least 27 characters wide, with four characters per seat
  column, from the expected charts in `tests/test_types.py:105-112` and
  `:142-170`.

## Model

| member | source | states |
|---|---|---|
| Seats.Seat.Book | src/_types.py:32-34 | The booked seat is valid and booked; it shows `o` to its own id and `#` to every other id |
| Seats.Seat.Unbook | src/_types.py:36-38 | The released seat is valid and free; it shows `.` whatever id the chart is drawn for |
| Seats.GlyphOwnership | src/_types.py:50-54 | On a valid seat (id present exactly when booked), `get_chr` is `o` iff the seat holds the target id, `#` iff it holds another id, `.` iff it holds none |
| Seats.NewGrid | src/_types.py:60 | A new grid is `rows` by `cols`, valid, and every seat is free with no id |
| Seats.CountBound | src/_types.py:91-92 | A count over a `rows` by `cols` grid is at most `rows * cols`, and equals it when every seat qualifies |
| Seats.Count | src/_types.py:91-92 | The count is zero exactly when no seat qualifies |
| Seats.ReleaseCounts | src/_types.py:194-197 | Releasing an id frees exactly the seats that held it; afterwards no seat holds it |
| Seats.ReleaseAbsent | src/_types.py:194-197 | Releasing an id no seat holds leaves the grid unchanged |
| Seats.ReleaseValid | src/_types.py:194-197 | Releasing keeps every seat valid |
| Text.Split | src/_types.py:74 | Every token of `split()` is non-empty and holds none of the ASCII characters Python treats as whitespace (space, tab, line feed, vertical tab, form feed, carriage return, 0x1C to 0x1F) |
| Text.SplitJoin | src/_types.py:74 | Splitting tokens joined by single spaces gives the same tokens back |
| Text.NatToString | src/_types.py:158 | `str(n)` is a digit string, starting with `0` only for zero and one character long exactly when `n < 10` |
| Text.DecimalOfNatToString | src/_types.py:81-85 | `int(str(n)) == n` |
| Text.DecimalIgnoresLeadingZeros | src/_types.py:81-85 | Leading zeros keep a string decimal and do not change the value `int` reads |
| Text.ZFill | src/_types.py:158 | `zfill(width)` pads with zeros on the left up to `width` and never truncates |
| BookingIds.BookingId | src/_types.py:121 | Every id starts with `GIC` and has at least four characters after it |
| BookingIds.BookingIdNumber | src/_types.py:157-158 | Reading the number back out of the id minted for counter `k` gives `k` |
| BookingIds.BookingIdInjective | src/_types.py:157-158 | Two counter values give the same id iff they are equal |
| BookingIds.FirstBookingId | src/_types.py:157-158 | Counter value 1, the one the first fresh booking mints from, gives `GIC0001` |
| Input.ParseInput | src/_types.py:74-85 | Success iff there are exactly three tokens, the rows are decimal in 1..26 and the seats are decimal in 1..50; the title is the first token, and the rows and seats are `int` of the second and third tokens. The format error comes iff the token count is not three, and the row error iff the count is three but the rows are out of range. The empty-title error cannot arise, since a token is never empty |
| Input.ParseFormat | src/_types.py:74-85 | Every admissible movie typed as title, rows and seats one space apart parses back to itself |
| Input.ParseLeadingZeros | src/_types.py:81-85 | Zero-padded row and seat numbers parse to the same movie |
| Allocation.PointersInside | src/_types.py:162-166 | Both pointers are inside the row exactly while fewer than `(cols + 1) / 2` rounds have run |
| Allocation.RoundProbes | src/_types.py:162-180 | Round `k` of the pointer loop probes `cols//2 - (cols even) - k`, then `cols//2 + k` |
| Allocation.DistOfProbe | src/_types.py:162-180 | The column probed at step `i` lies in the row, at a distance from the middle fixed by the round number |
| Allocation.CentreOrderOutward | src/_types.py:162-180 | Every probe lies in the row, and no probe is nearer the middle than an earlier one |
| Allocation.CentreRank | src/_types.py:162-180 | Every column of a row is probed by the pointer loop |
| Allocation.CentreOrderRepeats | src/_types.py:136-151 | Left is probed before right in each round; the only seat probed twice is the middle seat of an odd row, in the first round |
| Allocation.SliceStart | src/_types.py:124 | Where `row[c:]` starts lies within the row, for any integer `c` |
| Allocation.CentreProbesSplit | src/_types.py:161 | Walking rows `a..c` is walking rows `a..b`, then rows `b..c` |
| Allocation.CentreProbesCells | src/_types.py:161-180 | The rows `lo..hi` walk visits only cells of those rows, and visits every one of them |
| Allocation.FillConcat | src/_types.py:124-154 | Walking `p + q` is walking `p`, then walking `q` from where `p` stopped |
| Allocation.FillRowsAlong | src/_types.py:161-180 | Filling rows one at a time, each centre-out, is the single walk over all their probes |
| Allocation.AnchoredChain | src/_types.py:124-154 | Filling the anchor row rightward and then each later row centre-out is the anchored walk |
| Allocation.FillAfterStop | src/_types.py:125-126 | Once nothing remains to book, further probes change nothing: the early `return` loses nothing |
| Allocation.FillIdle | src/_types.py:167-168 | A walk asked for no seats changes nothing |
| Allocation.FillChanges | src/_types.py:128-132 | A walk changes only free seats it visits, and each one it changes is booked under its id |
| Allocation.FillRemaining | src/_types.py:132 | The count still to book never rises, and stays non-negative when it starts positive |
| Allocation.FillValid | src/_types.py:131 | A walk keeps every seat valid |
| Allocation.FillCountsFree | src/_types.py:131-132 | A walk books exactly `n - remaining` seats, so the free count drops by that much |
| Allocation.FillCountsHolds | src/_types.py:131-132 | On valid seats, the number of seats holding the walk's id rises by exactly the number of seats it books |
| Allocation.FillSaturates | src/_types.py:128-132 | A walk that ends with seats still to book has booked every seat it visited |
| Allocation.EarlierProbesBooked | src/_types.py:161-180 | A walk takes a seat only after every seat probed before it is full |
| Allocation.ProbesInGrid | src/_types.py:124-180 | Every fresh or anchored probe lies inside the grid |
| Allocation.FreshBookingCounts | src/_types.py:156-182 | A fresh booking takes `n` seats when `n` are free and all the free seats otherwise. The free count drops by exactly that, and exactly that many more seats hold the id |
| Allocation.FreshFrontRowsFirst | src/_types.py:161-180 | If a fresh booking books a seat of row `r`, every row before `r` is full afterwards |
| Allocation.FreshCentreOut | src/_types.py:162-180 | If a fresh booking books seat `c` of a row, every seat the pointer loop probes before `c` in that row is booked afterwards |
| Allocation.AnchoredProbeCells | src/_types.py:124-154 | Anchored probes lie in the anchor row from the slice start rightward, or in a later row |
| Allocation.AnchoredBookingRegion | src/_types.py:124-154 | An anchored booking changes only free seats, each booked under its id. They lie in the anchor row at or right of the slice start, or in later rows: no earlier row and no wrap-around |
| Allocation.AnchoredRightward | src/_types.py:124-132 | In the anchor row, seats fill left to right: a newly booked seat has every seat from the slice start up to it booked |
| Allocation.AnchorRowFirst | src/_types.py:124-135 | A later row is reached only once the anchor row is full from the slice start |
| Allocation.AnchoredLaterRows | src/_types.py:135-154 | Later rows fill front to back: if row `i` gains a seat, every row between the anchor and `i` is full |
| Allocation.AnchoredCentreOut | src/_types.py:136-154 | Later rows fill centre-out: a newly booked seat has every seat the pointer loop probes before it booked |
| Allocation.FillThenRelease | src/_types.py:184-197 | Releasing the id of a booking that started when no seat held it restores the grid exactly |
| Cinema.NextIdUnused | src/_types.py:157-158 | The id a fresh booking mints is held by no seat |
| Cinema.FillKeepsIds | src/_types.py:121 | Booking under an already issued id keeps every id on the grid issued |
| Cinema.ReleaseKeepsIds | src/_types.py:194-197 | Releasing keeps every id on the grid issued |
| Cinema.AnchoredBookingCounts | src/_types.py:120-154 | An anchored booking takes at most `min(n, free)` seats, and every seat it takes holds its id |
| Cinema.Movie.constructor | src/_types.py:58-61 | A new movie is valid: every seat is free, the counter is 0, and `rows * cols` seats are unbooked |
| Cinema.Movie.FromUserInput | src/_types.py:63-85 | It fails with the parser's error exactly when parsing fails. Otherwise the movie is new and valid, has the parsed title and dimensions, and has every seat free |
| Cinema.Movie.SeatsUnbooked | src/_types.py:91-92 | The free count is at most `rows * cols`, and is zero exactly when every seat is booked |
| Cinema.Movie.BookSeat | src/_types.py:32-34 | Only the seat at (i, j) changes, and it becomes booked under the id |
| Cinema.Movie.UnbookSeat | src/_types.py:36-38 | Only the seat at (i, j) changes, and it becomes free with no id |
| Cinema.Movie.Probe | src/_types.py:169-171 | One probe books a free seat and counts it, and skips a booked one |
| Cinema.Movie.ProbeNext | src/_types.py:143-151 | A probe at step `t` of a walk extends that walk by one step |
| Cinema.Movie.FillRow | src/_types.py:162-180 | The two-pointer loop on row `r` has exactly the effect of the centre-out walk of that row, stopping early included |
| Cinema.Movie.FillRightward | src/_types.py:124-132 | The loop over `row[c:]` has exactly the effect of the rightward walk from the slice start |
| Cinema.Movie.FillRowsFrom | src/_types.py:135-154 | The loop over the rows from `lo` fills each row centre-out, in order |
| Cinema.Movie.FillAnchored | src/_types.py:124-154 | The two loops of an anchored booking together perform the anchored walk |
| Cinema.Movie.BookAnchored | src/_types.py:120-154 | An anchored booking returns the id of the current counter, keeps the movie valid and performs the anchored walk |
| Cinema.Movie.BookFresh | src/_types.py:156-182 | A fresh booking increments the counter and returns the id of the new counter, which no seat held before. It keeps the movie valid and performs the fresh walk |
| Cinema.Movie.Book | src/_types.py:94-182 | Anchored: the counter is unchanged, at most `min(n, free)` seats are taken, and all of them hold the returned id. Fresh: the counter rises by one, exactly `min(n, free)` seats (none when `n <= 0`) are taken under the new id, and the free count drops by exactly that |
| Cinema.Movie.Unbook | src/_types.py:184-197 | Every seat holding the id is released and nothing else changes. The free count rises by the number released, and no seat holds the id afterwards |
| Cinema.Movie.DrawRow | src/_types.py:216-221 | The loop builds the seat line of row `r`: its letter, then the glyphs, three spaces apart |
| Cinema.Movie.DrawFooter | src/_types.py:222-226 | The loop builds the footer: a blank, then `1..cols`, three spaces apart |
| Cinema.Movie.GetMap | src/_types.py:199-228 | Reading only the seats, the method returns exactly the rendered chart of the current grid |
| Chart.Width | src/_types.py:209 | The chart width is `max(27, 4 * cols)` |
| Chart.RowLabel | src/_types.py:218 | Row labels are capital letters |
| Chart.RowLineLayout | src/_types.py:216-221 | A seat line is `4 * cols + 1` characters long. The row letter is at column 0, seat `j`'s glyph at column `4 * (j + 1)`, and every other column is blank |
| Chart.FooterLayout | src/_types.py:222-226 | Column number `k` starts at column `4 * k + max(0, k - 10)` of the footer |
| Chart.FooterLength | src/_types.py:222-226 | The footer is `4 * cols + 1 + max(0, cols - 9)` characters long |
| Chart.FooterAligned | src/_types.py:222-226 | For column numbers up to 10, each number starts directly under its seat column |
| Chart.Rule | src/_types.py:215 | The rule is `Width` dashes |
| Chart.HeaderCentred | src/_types.py:214 | The banner line is `Width` long. The banner sits after `(Width - 21) / 2` spaces, with at most one extra space on the right |
| Chart.ChartSeatLine | src/_types.py:216-221 | Row `r` is display line `5 + (rows - 1 - r)`, so the back row comes first. That line is `4 * cols + 1` long, with the row letter at column 0, seat `j`'s glyph at column `4 * (j + 1)`, and blanks everywhere else |
| Chart.RenderLines | src/_types.py:213-228 | The newline inside the second piece turns the joined pieces into exactly those display lines |

## Left out

- `ScrollingScreen` and the whole of `main.py`: terminal drawing, reading keystrokes and menus are user-interface I/O. `main.py` is not part of this model. In particular, its refusal to book more seats than are free, and the anchor indices it computes from raw text, are not modelled.
- The constants module `src/_constants.py` is not part of this model. Only the ranges, rows 1..26 and seats per row 1..50, come from messages the code produces (`src/_types.py:82`, `:84`). The id pad of 4, the minimum chart width of 27 and the 4 characters per seat column are inferred from the expected values in `tests/test_types.py` (`:89`, `:105-112`, `:142-170`). Those same expected charts disagree with the code elsewhere (see Chart.FooterAligned below), so these three numbers are an inference, not a reading of the constants module.
- Cinema.Movie.constructor: `Movie.__init__` (`src/_types.py:58-61`) does not check the dimensions. The constructor requires rows in 1..26 and seats per row in 1..50. Every caller meets that: `from_user_input` checks the ranges first, and the tests build movies only with in-range sizes. A movie built directly with out-of-range or zero dimensions is not modelled.
- Seats are values, not shared objects. The model stores each seat in its own array cell and replaces the cell when the seat is booked or released. That is observably the same, because every `Seat` object belongs to exactly one grid position and is never aliased.
- Cinema.Movie.Book: an anchored booking requires `0 <= row < rows`. Python's negative row indices, and the `IndexError` for a row past the end, are not modelled. The anchor column may be any integer, with Python's slice semantics (`SliceStart`). Asking for more seats than are free is allowed, as in the source: the booking takes what is free.
- Text.Split: whitespace is the ASCII set Python's `str.isspace` accepts (space, 0x09 to 0x0D, 0x1C to 0x1F). Non-ASCII whitespace such as U+0085, U+00A0 or U+2000 to U+200A is not treated as a separator. `isdecimal` and `int` accept only the ASCII digits, not other Unicode decimal digits. `center` follows CPython's padding rule, which is all the chart needs.
- Integers are unbounded, as in Python; no wrap-around arises.
- Chart.FooterAligned: the footer is proved aligned only up to ten columns. Beyond that the code shifts column number `k` by `k - 10` characters, as `FooterLayout` states. The expected charts in `tests/test_types.py` (a right-aligned footer for 50 columns, and trailing spaces in the 1x1 footer) differ from what the code produces. The model follows the code.
- `Movie.title` and the `is_booked`/`booking_id` properties are plain field reads and get no separate members.
