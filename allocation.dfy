/**
 * The seat-allocation policy of `Movie.book`, stated on grid values.
 *
 * A booking visits a sequence of seat positions (probes) and books each
 * free seat it meets until the requested number is reached; `FillAlong`
 * is that walk. The two modes differ only in the probes they walk:
 * a fresh booking takes every row from the front, each from its centre
 * outward; an anchored booking takes the anchor row rightward from the
 * anchor column and then every later row from its centre outward.
 */
module Allocation {
  import opened Wrappers
  import opened Seats

  datatype Pos = Pos(row: nat, col: nat)

  /** Start of the right pointer in a row of width `w`: `len(row) // 2`. */
  function RightStart(w: nat): nat {
    w / 2
  }

  /** Start of the left pointer: one left of the right pointer when `w` is even,
      on the same (middle) seat when `w` is odd. */
  function LeftStart(w: nat): int {
    w / 2 - (if w % 2 == 0 then 1 else 0)
  }

  /** How many times the pointer loop runs before a pointer leaves the row. */
  function Rounds(w: nat): nat {
    (w + 1) / 2
  }

  /** Both pointers are still inside the row exactly while fewer than
      `Rounds(w)` rounds have run. */
  lemma PointersInside(w: nat, k: nat)
    requires k <= Rounds(w)
    ensures (LeftStart(w) - k >= 0 && RightStart(w) + k < w) <==> k < Rounds(w)
  {
  }

  /** The columns the two-pointer loop probes, in order: left pointer, right
      pointer, then both move one seat outward. */
  function CentreOrder(w: nat): (order: seq<nat>)
    ensures |order| == 2 * Rounds(w)
  {
    seq(2 * Rounds(w), i requires 0 <= i < 2 * Rounds(w) =>
      if i % 2 == 0 then LeftStart(w) - i / 2 else RightStart(w) + i / 2)
  }

  /** Twice the distance of column `c` from the middle of a row of width `w`. */
  function Dist(w: nat, c: nat): nat {
    if 2 * c >= w - 1 then 2 * c - (w - 1) else (w - 1) - 2 * c
  }

  lemma DistOfProbe(w: nat, i: nat)
    requires i < |CentreOrder(w)|
    ensures CentreOrder(w)[i] < w
    ensures Dist(w, CentreOrder(w)[i]) == 2 * (i / 2) + (if w % 2 == 0 then 1 else 0)
  {
  }

  /** Every probe lies in the row, and the probes move outward from the centre:
      no probe is nearer the middle than an earlier one. */
  lemma {:induction false} CentreOrderOutward(w: nat)
    ensures forall i :: 0 <= i < |CentreOrder(w)| ==> CentreOrder(w)[i] < w
    ensures forall i, i' :: 0 <= i <= i' < |CentreOrder(w)| ==>
              Dist(w, CentreOrder(w)[i]) <= Dist(w, CentreOrder(w)[i'])
  {
    forall i | 0 <= i < |CentreOrder(w)| ensures CentreOrder(w)[i] < w {
      DistOfProbe(w, i);
    }
    forall i, i' | 0 <= i <= i' < |CentreOrder(w)|
      ensures Dist(w, CentreOrder(w)[i]) <= Dist(w, CentreOrder(w)[i'])
    {
      DistOfProbe(w, i);
      DistOfProbe(w, i');
    }
  }

  /** The position in the centre-out order at which column `c` is first probed:
      every column of the row is probed. */
  function CentreRank(w: nat, c: nat): (i: nat)
    requires c < w
    ensures i < |CentreOrder(w)| && CentreOrder(w)[i] == c
  {
    if c <= LeftStart(w) then 2 * (LeftStart(w) - c) else 2 * (c - RightStart(w)) + 1
  }

  /** Each round probes left before right; the only column probed twice is the
      middle seat of an odd-width row, in the first round. */
  lemma {:induction false} CentreOrderRepeats(w: nat)
    ensures forall k :: 0 <= k < Rounds(w) ==> CentreOrder(w)[2 * k] <= CentreOrder(w)[2 * k + 1]
    ensures forall i, i' :: 0 <= i < i' < |CentreOrder(w)| ==>
              (CentreOrder(w)[i] == CentreOrder(w)[i'] <==> w % 2 == 1 && i == 0 && i' == 1)
  {
    forall i, i' | 0 <= i < i' < |CentreOrder(w)|
      ensures CentreOrder(w)[i] == CentreOrder(w)[i'] <==> w % 2 == 1 && i == 0 && i' == 1
    {
      DistOfProbe(w, i);
      DistOfProbe(w, i');
    }
  }

  /** The seats of row `r` in the centre-out order. */
  function RowProbes(r: nat, w: nat): (ps: seq<Pos>)
    ensures |ps| == |CentreOrder(w)|
  {
    seq(|CentreOrder(w)|, k requires 0 <= k < |CentreOrder(w)| => Pos(r, CentreOrder(w)[k]))
  }

  /** Round `k` of the pointer loop probes the left pointer, then the right one. */
  lemma RoundProbes(r: nat, w: nat, k: nat)
    requires k < Rounds(w)
    ensures 2 * k + 1 < |RowProbes(r, w)|
    ensures RowProbes(r, w)[2 * k] == Pos(r, LeftStart(w) - k)
    ensures RowProbes(r, w)[2 * k + 1] == Pos(r, RightStart(w) + k)
  {
    assert (2 * k) / 2 == k && (2 * k) % 2 == 0;
    assert (2 * k + 1) / 2 == k && (2 * k + 1) % 2 == 1;
  }

  /** Rows `lo` up to `hi` (exclusive), front to back, each centre-out. */
  function CentreProbes(lo: nat, hi: nat, w: nat): seq<Pos>
    decreases hi
  {
    if hi <= lo then [] else CentreProbes(lo, hi - 1, w) + RowProbes(hi - 1, w)
  }

  /** The probes of a booking without an anchor: every row from the front. */
  function FreshProbes(rows: nat, w: nat): seq<Pos> {
    CentreProbes(0, rows, w)
  }

  /** Where Python's slice `row[c:]` starts in a row of width `w`. */
  function SliceStart(c: int, w: nat): (s: nat)
    ensures s <= w
  {
    if c < 0 then (if w + c < 0 then 0 else w + c)
    else if c > w then w
    else c
  }

  /** Row `r` from column `s` to the end, left to right. */
  function Rightward(r: nat, s: nat, w: nat): (ps: seq<Pos>)
    requires s <= w
    ensures |ps| == w - s
  {
    seq(w - s, t requires 0 <= t < w - s => Pos(r, s + t))
  }

  /** The probes of a booking anchored at row `r`, column `c`: the rest of the
      anchor row rightward, then every later row centre-out. */
  function AnchoredProbes(r: nat, c: int, rows: nat, w: nat): seq<Pos> {
    Rightward(r, SliceStart(c, w), w) + CentreProbes(r + 1, rows, w)
  }

  lemma {:induction false} CentreProbesSplit(a: nat, b: nat, c: nat, w: nat)
    requires a <= b <= c
    ensures CentreProbes(a, c, w) == CentreProbes(a, b, w) + CentreProbes(b, c, w)
    decreases c
  {
    if b < c {
      CentreProbesSplit(a, b, c - 1, w);
    }
  }

  /** `ps` visits position `p`. */
  predicate Visits(ps: seq<Pos>, p: Pos) {
    p in ps
  }

  /** The centre-out probes of rows `lo..hi` lie in those rows. */
  lemma {:induction false} CentreProbesRowRange(lo: nat, hi: nat, w: nat)
    ensures forall k :: 0 <= k < |CentreProbes(lo, hi, w)| ==> lo <= CentreProbes(lo, hi, w)[k].row < hi
    decreases hi
  {
    if lo < hi {
      CentreProbesRowRange(lo, hi - 1, w);
      var prev := CentreProbes(lo, hi - 1, w);
      forall k | 0 <= k < |CentreProbes(lo, hi, w)| ensures lo <= CentreProbes(lo, hi, w)[k].row < hi {
        if k < |prev| {
          assert CentreProbes(lo, hi, w)[k] == prev[k];
        } else {
          assert CentreProbes(lo, hi, w)[k] == RowProbes(hi - 1, w)[k - |prev|];
        }
      }
    }
  }

  /** The centre-out probes of rows `lo..hi` are exactly the seats of those rows. */
  lemma {:induction false} CentreProbesCells(lo: nat, hi: nat, w: nat)
    ensures forall k :: 0 <= k < |CentreProbes(lo, hi, w)| ==>
              lo <= CentreProbes(lo, hi, w)[k].row < hi && CentreProbes(lo, hi, w)[k].col < w
    ensures forall i, j :: lo <= i < hi && 0 <= j < w ==> Visits(CentreProbes(lo, hi, w), Pos(i, j))
    decreases hi
  {
    if lo < hi {
      CentreProbesCells(lo, hi - 1, w);
      CentreOrderOutward(w);
      var r := hi - 1;
      var last := RowProbes(r, w);
      assert CentreProbes(lo, hi, w) == CentreProbes(lo, r, w) + last;
      forall j | 0 <= j < w ensures Visits(last, Pos(r, j)) {
        assert last[CentreRank(w, j)] == Pos(r, j);
      }
    }
  }

  /** Row i's centre-out probes sit, in order, right after those of rows `lo..i`. */
  lemma {:induction false} CentreProbesRow(lo: nat, hi: nat, w: nat, i: nat)
    requires lo <= i < hi
    ensures |CentreProbes(lo, i, w)| + |CentreOrder(w)| <= |CentreProbes(lo, hi, w)|
    ensures forall u :: 0 <= u < |CentreOrder(w)| ==>
              CentreProbes(lo, hi, w)[|CentreProbes(lo, i, w)| + u] == Pos(i, CentreOrder(w)[u])
    decreases hi
  {
    var a := CentreProbes(lo, i, w);
    if hi == i + 1 {
      assert CentreProbes(lo, hi, w) == a + RowProbes(i, w);
    } else {
      CentreProbesRow(lo, hi - 1, w, i);
      var prev := CentreProbes(lo, hi - 1, w);
      assert CentreProbes(lo, hi, w) == prev + RowProbes(hi - 1, w);
      forall u | 0 <= u < |CentreOrder(w)| ensures CentreProbes(lo, hi, w)[|a| + u] == Pos(i, CentreOrder(w)[u]) {
        assert CentreProbes(lo, hi, w)[|a| + u] == prev[|a| + u];
      }
    }
  }

  /** Probe `k` of row i within the probes of rows `lo..hi`. */
  lemma CentreProbesAt(lo: nat, hi: nat, w: nat, i: nat, k: nat)
    requires lo <= i < hi && k < |CentreOrder(w)|
    ensures |CentreProbes(lo, i, w)| + k < |CentreProbes(lo, hi, w)|
    ensures CentreProbes(lo, hi, w)[|CentreProbes(lo, i, w)| + k] == Pos(i, CentreOrder(w)[k])
  {
    CentreProbesRow(lo, hi, w, i);
  }

  /** The probes of rows `lo..b` begin the probes of rows `lo..c`. */
  lemma CentreProbesPrefix(lo: nat, b: nat, c: nat, w: nat, u: nat)
    requires lo <= b <= c && u < |CentreProbes(lo, b, w)|
    ensures u < |CentreProbes(lo, c, w)| && CentreProbes(lo, c, w)[u] == CentreProbes(lo, b, w)[u]
  {
    CentreProbesSplit(lo, b, c, w);
  }

  /** The state of a booking walk: the grid so far and the seats still to book. */
  datatype Fill = Fill(grid: Grid, remaining: int)

  predicate InGrid(g: Grid, p: Pos) {
    p.row < |g| && p.col < |g[p.row]|
  }

  /** One probe: stop when nothing remains to book (`seats_to_book <= 0`),
      skip a booked seat, otherwise book it and count it. */
  function Step(f: Fill, p: Pos, id: string): Fill
  {
    if f.remaining <= 0 || !InGrid(f.grid, p) || f.grid[p.row][p.col].isBooked then f
    else Fill(f.grid[p.row := f.grid[p.row][p.col := f.grid[p.row][p.col].Book(id)]], f.remaining - 1)
  }

  /** Walking `probes` in order from grid `g` with `n` seats to book. Positions
      outside the grid are skipped; every walk used below stays inside it. */
  function FillAlong(g: Grid, probes: seq<Pos>, id: string, n: int): (f: Fill)
    ensures |f.grid| == |g| && forall i :: 0 <= i < |g| ==> |f.grid[i]| == |g[i]|
    decreases |probes|
  {
    if probes == [] then Fill(g, n)
    else Step(FillAlong(g, probes[..|probes| - 1], id, n), probes[|probes| - 1], id)
  }

  lemma FillSnoc(g: Grid, probes: seq<Pos>, k: nat, id: string, n: int)
    requires k < |probes|
    ensures FillAlong(g, probes[..k + 1], id, n) == Step(FillAlong(g, probes[..k], id, n), probes[k], id)
  {
    assert probes[..k + 1][..k] == probes[..k];
  }

  /** Probe `t` takes the walk from its first `t` probes to its first `t + 1`. */
  lemma SnocStep(g: Grid, probes: seq<Pos>, t: nat, id: string, n: int, f: Fill, p: Pos)
    requires t < |probes| && f == FillAlong(g, probes[..t], id, n) && p == probes[t]
    ensures Step(f, p, id) == FillAlong(g, probes[..t + 1], id, n)
  {
    FillSnoc(g, probes, t, id, n);
  }

  /** Walking `p + q` is walking `p`, then `q` from where `p` left off. */
  lemma {:induction false} FillConcat(g: Grid, p: seq<Pos>, q: seq<Pos>, id: string, n: int)
    ensures var f := FillAlong(g, p, id, n);
            FillAlong(g, p + q, id, n) == FillAlong(f.grid, q, id, f.remaining)
    decreases |q|
  {
    if q == [] {
      assert p + q == p;
    } else {
      assert (p + q)[..|p + q| - 1] == p + q[..|q| - 1];
      FillConcat(g, p, q[..|q| - 1], id, n);
    }
  }

  /** With nothing to book, a walk changes nothing. */
  lemma {:induction false} FillIdle(g: Grid, q: seq<Pos>, id: string, n: int)
    requires n <= 0
    ensures FillAlong(g, q, id, n) == Fill(g, n)
    decreases |q|
  {
    if q != [] {
      FillIdle(g, q[..|q| - 1], id, n);
    }
  }

  /** Walking rows `lo..hi` one row at a time, each centre-out. */
  function FillRows(g: Grid, lo: nat, hi: nat, w: nat, id: string, n: int): Fill
    decreases hi
  {
    if hi <= lo then Fill(g, n)
    else
      var f := FillRows(g, lo, hi - 1, w, id, n);
      FillAlong(f.grid, RowProbes(hi - 1, w), id, f.remaining)
  }

  /** Walking the rows one at a time is walking all their probes in one go. */
  lemma {:induction false} FillRowsAlong(g: Grid, lo: nat, hi: nat, w: nat, id: string, n: int)
    ensures FillRows(g, lo, hi, w, id, n) == FillAlong(g, CentreProbes(lo, hi, w), id, n)
    decreases hi
  {
    if lo < hi {
      FillRowsAlong(g, lo, hi - 1, w, id, n);
      FillConcat(g, CentreProbes(lo, hi - 1, w), RowProbes(hi - 1, w), id, n);
    }
  }

  /** Once a walk has booked everything it was asked for, the rest of it does nothing. */
  lemma FillAfterStop(g: Grid, p: seq<Pos>, q: seq<Pos>, id: string, n: int)
    requires FillAlong(g, p, id, n).remaining <= 0
    ensures FillAlong(g, p + q, id, n) == FillAlong(g, p, id, n)
  {
    var f := FillAlong(g, p, id, n);
    FillConcat(g, p, q, id, n);
    FillIdle(f.grid, q, id, f.remaining);
  }

  /** A walk that has booked everything after its first `t` probes ends there. */
  lemma WalkStops(g: Grid, probes: seq<Pos>, t: nat, id: string, n: int)
    requires t <= |probes| && FillAlong(g, probes[..t], id, n).remaining <= 0
    ensures FillAlong(g, probes, id, n) == FillAlong(g, probes[..t], id, n)
  {
    FillAfterStop(g, probes[..t], probes[t..], id, n);
    assert probes[..t] + probes[t..] == probes;
  }

  /** Only free seats on the walk change, and each changed seat is booked under `id`. */
  lemma {:induction false} FillChanges(g: Grid, probes: seq<Pos>, id: string, n: int)
    ensures var f := FillAlong(g, probes, id, n);
            forall i, j :: 0 <= i < |g| && 0 <= j < |g[i]| ==>
              f.grid[i][j] == g[i][j] ||
              (IsFree(g[i][j]) && f.grid[i][j] == Seat(true, Some(id)) && Pos(i, j) in probes)
    decreases |probes|
  {
    if probes != [] {
      var init := probes[..|probes| - 1];
      FillChanges(g, init, id, n);
      forall p | p in init ensures p in probes {
        var k :| 0 <= k < |init| && init[k] == p;
        assert probes[k] == p;
      }
    }
  }

  /** A walk never books more than asked, and with something to book it never
      overshoots below zero. */
  lemma {:induction false} FillRemaining(g: Grid, probes: seq<Pos>, id: string, n: int)
    ensures FillAlong(g, probes, id, n).remaining <= n
    ensures n > 0 ==> FillAlong(g, probes, id, n).remaining >= 0
    decreases |probes|
  {
    if probes != [] {
      FillRemaining(g, probes[..|probes| - 1], id, n);
    }
  }

  /** A walk from a grid of valid seats leaves only valid seats. */
  lemma FillValid(g: Grid, probes: seq<Pos>, id: string, n: int)
    requires AllValid(g)
    ensures AllValid(FillAlong(g, probes, id, n).grid)
  {
    FillChanges(g, probes, id, n);
  }

  /** A walk books `n - remaining` seats: exactly that many fewer are free. */
  lemma {:induction false} FillCountsFree(g: Grid, probes: seq<Pos>, id: string, n: int)
    ensures var f := FillAlong(g, probes, id, n);
            Count(f.grid, IsFree) + (n - f.remaining) == Count(g, IsFree)
    decreases |probes|
  {
    if probes != [] {
      var init := probes[..|probes| - 1];
      var p := probes[|probes| - 1];
      var f := FillAlong(g, init, id, n);
      FillCountsFree(g, init, id, n);
      if f.remaining > 0 && InGrid(f.grid, p) && !f.grid[p.row][p.col].isBooked {
        CountAfterSet(f.grid, p.row, p.col, f.grid[p.row][p.col].Book(id), IsFree);
      }
    }
  }

  /** On valid seats, the seats booked by a walk are exactly the new holders of `id`. */
  lemma {:induction false} FillCountsHolds(g: Grid, probes: seq<Pos>, id: string, n: int)
    requires AllValid(g)
    ensures var f := FillAlong(g, probes, id, n);
            Count(f.grid, Holds(id)) == Count(g, Holds(id)) + (n - f.remaining)
    decreases |probes|
  {
    if probes != [] {
      var init := probes[..|probes| - 1];
      var p := probes[|probes| - 1];
      var f := FillAlong(g, init, id, n);
      FillCountsHolds(g, init, id, n);
      if f.remaining > 0 && InGrid(f.grid, p) && !f.grid[p.row][p.col].isBooked {
        var s := f.grid[p.row][p.col];
        FillValid(g, init, id, n);
        assert s.Valid();
        CountAfterSet(f.grid, p.row, p.col, s.Book(id), Holds(id));
      }
    }
  }

  /** If a walk ends with seats still to book, every seat it visited is booked. */
  lemma {:induction false} FillSaturates(g: Grid, probes: seq<Pos>, id: string, n: int)
    requires FillAlong(g, probes, id, n).remaining > 0
    ensures var f := FillAlong(g, probes, id, n);
            forall t :: 0 <= t < |probes| && InGrid(g, probes[t]) ==>
              f.grid[probes[t].row][probes[t].col].isBooked
    decreases |probes|
  {
    if probes != [] {
      var init := probes[..|probes| - 1];
      FillSaturates(g, init, id, n);
      assert forall t :: 0 <= t < |init| ==> init[t] == probes[t];
    }
  }

  /** Either seat (r, c) is untouched by the walk, or every seat the walk visits
      before its first `k` probes end is booked: a walk takes a seat only after
      everything earlier on it is full. */
  lemma EarlierProbesBooked(g: Grid, probes: seq<Pos>, id: string, n: int, k: nat, r: nat, c: nat)
    requires k <= |probes| && r < |g| && c < |g[r]|
    requires !Visits(probes[..k], Pos(r, c))
    ensures var f := FillAlong(g, probes, id, n);
            f.grid[r][c] == g[r][c] ||
            forall t :: 0 <= t < k && InGrid(g, probes[t]) ==> f.grid[probes[t].row][probes[t].col].isBooked
  {
    var pre := FillAlong(g, probes[..k], id, n);
    assert probes == probes[..k] + probes[k..];
    FillConcat(g, probes[..k], probes[k..], id, n);
    if pre.remaining <= 0 {
      FillIdle(pre.grid, probes[k..], id, pre.remaining);
      FillChanges(g, probes[..k], id, n);
    } else {
      FillSaturates(g, probes[..k], id, n);
      FillChanges(pre.grid, probes[k..], id, pre.remaining);
      assert forall t :: 0 <= t < k ==> probes[..k][t] == probes[t];
    }
  }

  /** The number of seats a booking of `n` takes when `free` seats are reachable. */
  function Taken(n: int, free: nat): nat {
    if n <= 0 then 0 else if n <= free then n else free
  }

  /** Every probe of a booking lies inside a `rows` x `cols` grid. */
  lemma ProbesInGrid(g: Grid, rows: nat, cols: nat, r: nat, c: int)
    requires IsRect(g, rows, cols) && r < rows
    ensures forall t :: 0 <= t < |FreshProbes(rows, cols)| ==> InGrid(g, FreshProbes(rows, cols)[t])
    ensures forall t :: 0 <= t < |AnchoredProbes(r, c, rows, cols)| ==> InGrid(g, AnchoredProbes(r, c, rows, cols)[t])
  {
    CentreProbesCells(0, rows, cols);
    CentreProbesCells(r + 1, rows, cols);
  }

  /** If a walk ends with seats still to book, the seat at any visited position is booked. */
  lemma VisitedBooked(g: Grid, probes: seq<Pos>, id: string, n: int, i: nat, j: nat)
    requires FillAlong(g, probes, id, n).remaining > 0
    requires i < |g| && j < |g[i]| && Visits(probes, Pos(i, j))
    ensures FillAlong(g, probes, id, n).grid[i][j].isBooked
  {
    FillSaturates(g, probes, id, n);
    var t :| 0 <= t < |probes| && probes[t] == Pos(i, j);
    assert InGrid(g, probes[t]);
  }

  /** A booking without an anchor takes `n` seats when `n` are free and all the
      free seats otherwise: the free count drops by exactly that and that many
      more seats carry `id`. */
  lemma FreshBookingCounts(g: Grid, rows: nat, cols: nat, id: string, n: int)
    requires IsRect(g, rows, cols) && AllValid(g)
    ensures var f := FillAlong(g, FreshProbes(rows, cols), id, n);
            var k := Taken(n, Count(g, IsFree));
            Count(f.grid, IsFree) == Count(g, IsFree) - k &&
            Count(f.grid, Holds(id)) == Count(g, Holds(id)) + k
  {
    var probes := FreshProbes(rows, cols);
    var f := FillAlong(g, probes, id, n);
    FillRemaining(g, probes, id, n);
    FillCountsFree(g, probes, id, n);
    FillCountsHolds(g, probes, id, n);
    if n <= 0 {
      FillIdle(g, probes, id, n);
    } else if f.remaining > 0 {
      CentreProbesCells(0, rows, cols);
      forall i, j | 0 <= i < |f.grid| && 0 <= j < |f.grid[i]| ensures !IsFree(f.grid[i][j]) {
        VisitedBooked(g, probes, id, n, i, j);
      }
      assert Count(f.grid, IsFree) == 0;
    }
  }

  lemma FreshLayout(rows: nat, cols: nat, r: nat)
    requires r < rows
    ensures FreshProbes(rows, cols) == CentreProbes(0, r, cols) + RowProbes(r, cols) + CentreProbes(r + 1, rows, cols)
  {
    CentreProbesSplit(0, r, rows, cols);
    CentreProbesSplit(r, r + 1, rows, cols);
    assert CentreProbes(r, r + 1, cols) == RowProbes(r, cols);
  }

  /** Without an anchor, rows fill front to back: if a seat of row r is newly
      booked, every seat of every row before r is booked afterwards. */
  lemma FreshFrontRowsFirst(g: Grid, rows: nat, cols: nat, id: string, n: int, r: nat, c: nat)
    requires IsRect(g, rows, cols) && r < rows && c < cols
    requires IsFree(g[r][c]) && FillAlong(g, FreshProbes(rows, cols), id, n).grid[r][c].isBooked
    ensures var f := FillAlong(g, FreshProbes(rows, cols), id, n);
            forall i, j :: 0 <= i < r && 0 <= j < cols ==> f.grid[i][j].isBooked
  {
    var probes := FreshProbes(rows, cols);
    var f := FillAlong(g, probes, id, n);
    var before := CentreProbes(0, r, cols);
    var m := |before|;
    FreshLayout(rows, cols, r);
    assert probes[..m] == before;
    CentreProbesCells(0, r, cols);
    EarlierProbesBooked(g, probes, id, n, m, r, c);
    forall i, j | 0 <= i < r && 0 <= j < cols ensures f.grid[i][j].isBooked {
      assert Visits(before, Pos(i, j));
      var u :| 0 <= u < |before| && before[u] == Pos(i, j);
      assert probes[u] == Pos(i, j);
    }
  }

  /** Without an anchor, a row fills centre-out: if seat (r, c) is newly booked,
      every seat of row r that the centre-out order probes before c is booked. */
  lemma FreshCentreOut(g: Grid, rows: nat, cols: nat, id: string, n: int, r: nat, c: nat)
    requires IsRect(g, rows, cols) && r < rows && c < cols
    requires IsFree(g[r][c]) && FillAlong(g, FreshProbes(rows, cols), id, n).grid[r][c].isBooked
    ensures var f := FillAlong(g, FreshProbes(rows, cols), id, n);
            forall u :: 0 <= u < CentreRank(cols, c) ==> f.grid[r][CentreOrder(cols)[u]].isBooked
  {
    var m := |CentreProbes(0, r, cols)|;
    FreshRowProbes(rows, cols, r, c, m);
    RowCentreOut(g, FreshProbes(rows, cols), id, n, m, r, c, cols);
  }

  /** Without an anchor, row r is probed centre-out right after the rows before it. */
  lemma FreshRowProbes(rows: nat, cols: nat, r: nat, c: nat, m: nat)
    requires r < rows && m == |CentreProbes(0, r, cols)|
    ensures RowProbedAt(FreshProbes(rows, cols), m, r, cols)
    ensures m <= |FreshProbes(rows, cols)| && !Visits(FreshProbes(rows, cols)[..m], Pos(r, c))
  {
    var probes := FreshProbes(rows, cols);
    var before := CentreProbes(0, r, cols);
    CentreProbesRow(0, rows, cols, r);
    CentreProbesSplit(0, r, rows, cols);
    CentreProbesRowRange(0, r, cols);
    forall q | 0 <= q < m ensures probes[..m][q] != Pos(r, c) {
      assert probes[..m][q] == before[q];
    }
  }

  /** The anchored probes lie in the anchor row from the slice start rightward
      or in a later row. */
  lemma AnchoredProbeCells(r: nat, c: int, rows: nat, cols: nat)
    ensures var probes := AnchoredProbes(r, c, rows, cols);
            forall t :: 0 <= t < |probes| ==>
              (probes[t].row == r && SliceStart(c, cols) <= probes[t].col < cols) ||
              (r < probes[t].row < rows && probes[t].col < cols)
  {
    var right := Rightward(r, SliceStart(c, cols), cols);
    var rest := CentreProbes(r + 1, rows, cols);
    CentreProbesCells(r + 1, rows, cols);
    assert forall t :: |right| <= t < |right| + |rest| ==> (right + rest)[t] == rest[t - |right|];
  }

  /** An anchored booking changes only free seats, each to a seat booked under
      `id`, and only in the anchor row from the slice start rightward or in a
      later row: earlier rows and the seats left of the anchor are untouched,
      with no wrap-around. */
  lemma AnchoredBookingRegion(g: Grid, rows: nat, cols: nat, r: nat, c: int, id: string, n: int)
    requires IsRect(g, rows, cols) && r < rows
    ensures var f := FillAlong(g, AnchoredProbes(r, c, rows, cols), id, n);
            forall i, j :: 0 <= i < rows && 0 <= j < cols && f.grid[i][j] != g[i][j] ==>
              IsFree(g[i][j]) && f.grid[i][j] == Seat(true, Some(id)) &&
              ((i == r && SliceStart(c, cols) <= j) || r < i)
  {
    var probes := AnchoredProbes(r, c, rows, cols);
    FillChanges(g, probes, id, n);
    AnchoredProbeCells(r, c, rows, cols);
  }

  /** In the anchor row an anchored booking goes left to right: if seat (r, j)
      is newly booked, every seat of row r from the slice start up to j is
      booked afterwards. */
  lemma AnchoredRightward(g: Grid, rows: nat, cols: nat, r: nat, c: int, id: string, n: int, j: nat)
    requires IsRect(g, rows, cols) && r < rows && j < cols
    requires IsFree(g[r][j]) && FillAlong(g, AnchoredProbes(r, c, rows, cols), id, n).grid[r][j].isBooked
    ensures var f := FillAlong(g, AnchoredProbes(r, c, rows, cols), id, n);
            forall j' :: SliceStart(c, cols) <= j' < j ==> f.grid[r][j'].isBooked
  {
    var probes := AnchoredProbes(r, c, rows, cols);
    var f := FillAlong(g, probes, id, n);
    var s := SliceStart(c, cols);
    var right := Rightward(r, s, cols);
    AnchoredBookingRegion(g, rows, cols, r, c, id, n);
    assert s <= j;
    var k := j - s;
    assert probes[..k] == right[..k];
    EarlierProbesBooked(g, probes, id, n, k, r, j);
    forall j' | s <= j' < j ensures f.grid[r][j'].isBooked {
      assert probes[j' - s] == Pos(r, j');
    }
  }

  /** If seat (i, j) of a row after the anchor is newly booked, every probe
      of the anchor row and of the rows between landed on a booked seat. */
  lemma AnchoredEarlierProbesBooked(g: Grid, rows: nat, cols: nat, r: nat, c: int, id: string, n: int, i: nat, j: nat)
    requires IsRect(g, rows, cols) && r < i < rows && j < cols
    requires IsFree(g[i][j]) && FillAlong(g, AnchoredProbes(r, c, rows, cols), id, n).grid[i][j].isBooked
    ensures var probes := AnchoredProbes(r, c, rows, cols);
            var f := FillAlong(g, probes, id, n);
            var k := (cols - SliceStart(c, cols)) + |CentreProbes(r + 1, i, cols)|;
            forall t :: 0 <= t < k && t < |probes| && InGrid(g, probes[t]) ==>
              f.grid[probes[t].row][probes[t].col].isBooked
  {
    var probes := AnchoredProbes(r, c, rows, cols);
    var k := (cols - SliceStart(c, cols)) + |CentreProbes(r + 1, i, cols)|;
    AnchoredLaterPrefix(r, c, rows, cols, i, j, k);
    EarlierProbesBooked(g, probes, id, n, k, i, j);
  }

  /** An anchored walk is the rightward part of the anchor row, then the later rows. */
  lemma AnchoredSplit(g: Grid, r: nat, c: int, rows: nat, cols: nat, id: string, n: int)
    ensures var f := FillAlong(g, Rightward(r, SliceStart(c, cols), cols), id, n);
            FillAlong(g, AnchoredProbes(r, c, rows, cols), id, n)
              == FillAlong(f.grid, CentreProbes(r + 1, rows, cols), id, f.remaining)
  {
    FillConcat(g, Rightward(r, SliceStart(c, cols), cols), CentreProbes(r + 1, rows, cols), id, n);
  }

  /** Filling the anchor row rightward and then the later rows one at a time
      is the anchored walk. */
  lemma AnchoredChain(g: Grid, r: nat, c: int, rows: nat, cols: nat, id: string, n: int, f1: Fill, f2: Fill)
    requires f1 == FillAlong(g, Rightward(r, SliceStart(c, cols), cols), id, n)
    requires f2 == FillRows(f1.grid, r + 1, rows, cols, id, f1.remaining)
    ensures f2 == FillAlong(g, AnchoredProbes(r, c, rows, cols), id, n)
  {
    AnchoredSplit(g, r, c, rows, cols, id, n);
    FillRowsAlong(f1.grid, r + 1, rows, cols, id, f1.remaining);
  }

  /** An anchored booking reaches a later row only when the anchor row is full
      from the slice start: if a seat of row i > r is newly booked, those
      seats are booked afterwards. */
  lemma AnchorRowFirst(g: Grid, rows: nat, cols: nat, r: nat, c: int, id: string, n: int, i: nat, j: nat)
    requires IsRect(g, rows, cols) && r < i < rows && j < cols
    requires IsFree(g[i][j]) && FillAlong(g, AnchoredProbes(r, c, rows, cols), id, n).grid[i][j].isBooked
    ensures var f := FillAlong(g, AnchoredProbes(r, c, rows, cols), id, n);
            forall j' :: SliceStart(c, cols) <= j' < cols ==> f.grid[r][j'].isBooked
  {
    var probes := AnchoredProbes(r, c, rows, cols);
    var f := FillAlong(g, probes, id, n);
    var s := SliceStart(c, cols);
    AnchoredEarlierProbesBooked(g, rows, cols, r, c, id, n, i, j);
    forall j' | s <= j' < cols ensures f.grid[r][j'].isBooked {
      assert probes[j' - s] == Pos(r, j');
      assert InGrid(g, probes[j' - s]);
    }
  }

  /** Rows after the anchor fill front to back: if a seat of row i > r is newly
      booked, every row strictly between r and i is full afterwards. */
  lemma AnchoredLaterRows(g: Grid, rows: nat, cols: nat, r: nat, c: int, id: string, n: int, i: nat, j: nat)
    requires IsRect(g, rows, cols) && r < i < rows && j < cols
    requires IsFree(g[i][j]) && FillAlong(g, AnchoredProbes(r, c, rows, cols), id, n).grid[i][j].isBooked
    ensures var f := FillAlong(g, AnchoredProbes(r, c, rows, cols), id, n);
            forall i', j' :: r < i' < i && 0 <= j' < cols ==> f.grid[i'][j'].isBooked
  {
    var probes := AnchoredProbes(r, c, rows, cols);
    var f := FillAlong(g, probes, id, n);
    AnchoredEarlierProbesBooked(g, rows, cols, r, c, id, n, i, j);
    forall i', j' | r < i' < i && 0 <= j' < cols ensures f.grid[i'][j'].isBooked {
      AnchoredBetweenAt(r, c, rows, cols, i, i', j');
      var t := (cols - SliceStart(c, cols)) + |CentreProbes(r + 1, i', cols)| + CentreRank(cols, j');
      assert InGrid(g, probes[t]);
    }
  }

  /** Where an anchored walk probes seat (i', j') of a row between the anchor
      row and row i: before it reaches row i. */
  lemma AnchoredBetweenAt(r: nat, c: int, rows: nat, cols: nat, i: nat, i': nat, j': nat)
    requires r < i' < i < rows && j' < cols
    ensures var t := (cols - SliceStart(c, cols)) + |CentreProbes(r + 1, i', cols)| + CentreRank(cols, j');
            && t < (cols - SliceStart(c, cols)) + |CentreProbes(r + 1, i, cols)|
            && t < |AnchoredProbes(r, c, rows, cols)|
            && AnchoredProbes(r, c, rows, cols)[t] == Pos(i', j')
  {
    var right := Rightward(r, SliceStart(c, cols), cols);
    var tail := CentreProbes(r + 1, rows, cols);
    var k := CentreRank(cols, j');
    var u := |CentreProbes(r + 1, i', cols)| + k;
    CentreProbesAt(r + 1, i, cols, i', k);
    CentreProbesPrefix(r + 1, i, rows, cols, u);
    assert AnchoredProbes(r, c, rows, cols)[|right| + u] == tail[u];
  }

  /** The anchored probes before row i > r is reached (the anchor row
      rightward, then rows r + 1 up to i) do not include seat (i, j). */
  lemma AnchoredLaterPrefix(r: nat, c: int, rows: nat, cols: nat, i: nat, j: nat, m: nat)
    requires r < i < rows && m == (cols - SliceStart(c, cols)) + |CentreProbes(r + 1, i, cols)|
    ensures m <= |AnchoredProbes(r, c, rows, cols)|
    ensures !Visits(AnchoredProbes(r, c, rows, cols)[..m], Pos(i, j))
  {
    var probes := AnchoredProbes(r, c, rows, cols);
    var right := Rightward(r, SliceStart(c, cols), cols);
    var between := CentreProbes(r + 1, i, cols);
    var tail := CentreProbes(r + 1, rows, cols);
    CentreProbesSplit(r + 1, i, rows, cols);
    CentreProbesRowRange(r + 1, i, cols);
    forall q | 0 <= q < m ensures probes[..m][q] != Pos(i, j) {
      if q < |right| {
        assert probes[..m][q] == right[q];
      } else {
        assert probes[..m][q] == tail[q - |right|];
        assert tail[q - |right|] == between[q - |right|];
      }
    }
  }

  /** Within row i > r the anchored probes run centre-out. */
  lemma AnchoredRowProbes(r: nat, c: int, rows: nat, cols: nat, i: nat, m: nat)
    requires r < i < rows && m == (cols - SliceStart(c, cols)) + |CentreProbes(r + 1, i, cols)|
    ensures RowProbedAt(AnchoredProbes(r, c, rows, cols), m, i, cols)
  {
    var right := Rightward(r, SliceStart(c, cols), cols);
    var tail := CentreProbes(r + 1, rows, cols);
    var probes := AnchoredProbes(r, c, rows, cols);
    var d := |CentreProbes(r + 1, i, cols)|;
    CentreProbesRow(r + 1, rows, cols, i);
    forall u | 0 <= u < |CentreOrder(cols)| ensures probes[|right| + d + u] == Pos(i, CentreOrder(cols)[u]) {
      assert probes[|right| + d + u] == tail[d + u];
    }
  }

  /** From index m on, `probes` visits row i in centre-out order. */
  predicate RowProbedAt(probes: seq<Pos>, m: nat, i: nat, cols: nat) {
    && m + |CentreOrder(cols)| <= |probes|
    && forall u :: 0 <= u < |CentreOrder(cols)| ==> probes[m + u] == Pos(i, CentreOrder(cols)[u])
  }

  /** A walk that probes row i centre-out from index m on, and not seat (i, j)
      before that, fills row i centre-out: if (i, j) is newly booked, so is
      every seat the centre-out order probes before j. */
  lemma RowCentreOut(g: Grid, probes: seq<Pos>, id: string, n: int, m: nat, i: nat, j: nat, cols: nat)
    requires i < |g| && |g[i]| == cols && j < cols
    requires RowProbedAt(probes, m, i, cols) && !Visits(probes[..m], Pos(i, j))
    requires IsFree(g[i][j]) && FillAlong(g, probes, id, n).grid[i][j].isBooked
    ensures forall u :: 0 <= u < CentreRank(cols, j) ==> FillAlong(g, probes, id, n).grid[i][CentreOrder(cols)[u]].isBooked
  {
    var f := FillAlong(g, probes, id, n);
    var t := CentreRank(cols, j);
    CentreOrderRepeats(cols);
    forall q | 0 <= q < m + t ensures probes[q] != Pos(i, j) {
      if q < m {
        assert probes[q] == probes[..m][q];
      } else {
        assert probes[q] == Pos(i, CentreOrder(cols)[q - m]);
      }
    }
    assert !Visits(probes[..m + t], Pos(i, j));
    EarlierProbesBooked(g, probes, id, n, m + t, i, j);
    CentreOrderOutward(cols);
    forall u | 0 <= u < t ensures f.grid[i][CentreOrder(cols)[u]].isBooked {
      assert probes[m + u] == Pos(i, CentreOrder(cols)[u]);
      assert InGrid(g, probes[m + u]);
    }
  }

  /** Rows after the anchor fill centre-out: if seat (i, j) with i > r is
      newly booked, every seat of row i that the centre-out order probes
      before j is booked afterwards. */
  lemma AnchoredCentreOut(g: Grid, rows: nat, cols: nat, r: nat, c: int, id: string, n: int, i: nat, j: nat)
    requires IsRect(g, rows, cols) && r < i < rows && j < cols
    requires IsFree(g[i][j]) && FillAlong(g, AnchoredProbes(r, c, rows, cols), id, n).grid[i][j].isBooked
    ensures var f := FillAlong(g, AnchoredProbes(r, c, rows, cols), id, n);
            forall u :: 0 <= u < CentreRank(cols, j) ==> f.grid[i][CentreOrder(cols)[u]].isBooked
  {
    var m := (cols - SliceStart(c, cols)) + |CentreProbes(r + 1, i, cols)|;
    AnchoredLaterPrefix(r, c, rows, cols, i, j, m);
    AnchoredRowProbes(r, c, rows, cols, i, m);
    RowCentreOut(g, AnchoredProbes(r, c, rows, cols), id, n, m, i, j, cols);
  }

  /** Releasing the id of a walk that started where no seat held it restores
      the grid exactly: book followed by unbook is the identity. */
  lemma FillThenRelease(g: Grid, probes: seq<Pos>, id: string, n: int)
    requires AllValid(g) && Count(g, Holds(id)) == 0
    ensures Release(FillAlong(g, probes, id, n).grid, id) == g
  {
    var f := FillAlong(g, probes, id, n);
    FillChanges(g, probes, id, n);
    assert forall i, j :: 0 <= i < |g| && 0 <= j < |g[i]| ==> !Holds(id)(g[i][j]);
    forall i | 0 <= i < |g| ensures Release(f.grid, id)[i] == g[i] {
      assert forall j :: 0 <= j < |g[i]| ==> Release(f.grid, id)[i][j] == g[i][j];
    }
  }
}
