/**
 * The text chart `Movie.get_map` draws: a header, the screen banner, one
 * line per row from the back row to the front row, and a footer of
 * column numbers.
 */
module Chart {
  import opened Text
  import opened Seats

  const Banner: string := "S   C   R   E   E   N"
  const MinWidth: nat := 27
  const ColWidth: nat := 4
  /** The separator between the cells of a seat line and of the footer. */
  const Gap: string := "   "

  /** `max(MinWidth, ColWidth * cols)`: the width of the banner line and the rule. */
  function Width(cols: nat): (w: nat)
    ensures w >= MinWidth && w >= ColWidth * cols
    ensures w == MinWidth || w == ColWidth * cols
  {
    if ColWidth * cols > MinWidth then ColWidth * cols else MinWidth
  }

  /** `chr(ord("A") + r)`: the letter naming row `r`. */
  function RowLabel(r: nat): (c: char)
    requires r < 26
    ensures 'A' <= c <= 'Z'
  {
    ('A' as int + r) as char
  }

  /** Start of cell `t` in `Join(sep, cells)`. */
  function Offset(sep: string, cells: seq<string>, t: nat): nat
    requires t <= |cells|
  {
    if t == 0 then 0 else |cells[0]| + |sep| + Offset(sep, cells[1..], t - 1)
  }

  lemma {:induction false} OffsetStep(sep: string, cells: seq<string>, t: nat)
    requires t < |cells|
    ensures Offset(sep, cells, t + 1) == Offset(sep, cells, t) + |cells[t]| + |sep|
  {
    if t > 0 {
      OffsetStep(sep, cells[1..], t - 1);
    }
  }

  /** Cell `t` of a join sits at `Offset(sep, cells, t)`. */
  lemma {:induction false} JoinCell(sep: string, cells: seq<string>, t: nat)
    requires t < |cells|
    ensures Offset(sep, cells, t) + |cells[t]| <= |Join(sep, cells)|
    ensures Join(sep, cells)[Offset(sep, cells, t)..Offset(sep, cells, t) + |cells[t]|] == cells[t]
  {
    var s := Join(sep, cells);
    if |cells| == 1 {
      assert s[..|cells[0]|] == cells[0];
    } else {
      var rest := Join(sep, cells[1..]);
      assert s == cells[0] + sep + rest;
      if t == 0 {
        assert s[..|cells[0]|] == cells[0];
      } else {
        JoinCell(sep, cells[1..], t - 1);
        var o := Offset(sep, cells[1..], t - 1);
        var d := |cells[0]| + |sep|;
        assert s[d + o..d + o + |cells[t]|] == rest[o..o + |cells[t]|];
      }
    }
  }

  /** Between cells `t` and `t + 1` of a join lies one separator. */
  lemma {:induction false} JoinGap(sep: string, cells: seq<string>, t: nat)
    requires t + 1 < |cells|
    ensures Offset(sep, cells, t) + |cells[t]| + |sep| == Offset(sep, cells, t + 1) <= |Join(sep, cells)|
    ensures Join(sep, cells)[Offset(sep, cells, t) + |cells[t]|..Offset(sep, cells, t + 1)] == sep
  {
    OffsetStep(sep, cells, t);
    var s := Join(sep, cells);
    var rest := Join(sep, cells[1..]);
    assert s == cells[0] + sep + rest;
    if t == 0 {
      assert s[|cells[0]|..|cells[0]| + |sep|] == sep;
    } else {
      JoinGap(sep, cells[1..], t - 1);
      OffsetStep(sep, cells[1..], t - 1);
      assert cells[1..][t - 1] == cells[t];
      var d := |cells[0]| + |sep|;
      var o := Offset(sep, cells[1..], t - 1) + |cells[t]|;
      var o' := Offset(sep, cells[1..], t);
      assert s[d + o..d + o'] == rest[o..o'];
    }
  }

  /** A join ends where its last cell ends. */
  lemma {:induction false} JoinLength(sep: string, cells: seq<string>)
    requires |cells| > 0
    ensures |Join(sep, cells)| == Offset(sep, cells, |cells| - 1) + |cells[|cells| - 1]|
  {
    if |cells| > 1 {
      var rest := cells[1..];
      JoinLength(sep, rest);
      assert |Join(sep, cells)| == |cells[0]| + |sep| + |Join(sep, rest)|;
      assert rest[|rest| - 1] == cells[|cells| - 1];
      assert Offset(sep, cells, |cells| - 1) == |cells[0]| + |sep| + Offset(sep, rest, |rest| - 1);
    }
  }

  /** Cells of one character each start every `1 + |sep|` positions. */
  lemma {:induction false} UnitOffset(sep: string, cells: seq<string>, t: nat)
    requires t <= |cells|
    requires forall u :: 0 <= u < |cells| ==> |cells[u]| == 1
    ensures Offset(sep, cells, t) == t * (1 + |sep|)
  {
    if t > 0 {
      UnitOffset(sep, cells[1..], t - 1);
    }
  }

  /** The glyphs of one row, each as a one-character cell. */
  function Glyphs(row: seq<Seat>, id: string): (cells: seq<string>)
    ensures |cells| == |row|
  {
    seq(|row|, j requires 0 <= j < |row| => [row[j].GetChr(id)])
  }

  /** The chart line of row `r`: its letter, then its seats' glyphs, three spaces apart. */
  function RowLine(row: seq<Seat>, r: nat, id: string): string
    requires r < 26
  {
    Join(Gap, RowCells(row, r, id))
  }

  /** The one-character cells of a row line: the row letter, then the glyphs. */
  function RowCells(row: seq<Seat>, r: nat, id: string): (cells: seq<string>)
    requires r < 26
    ensures |cells| == |row| + 1
  {
    [[RowLabel(r)]] + Glyphs(row, id)
  }

  /** Cell `j + 1` of a row line is the glyph of seat `j`. */
  lemma RowCellAt(row: seq<Seat>, r: nat, id: string, j: nat)
    requires r < 26 && j < |row|
    ensures RowCells(row, r, id)[j + 1] == [row[j].GetChr(id)]
  {
  }

  /** The cells of a row line are one character each, the letter first. */
  lemma RowCellsUnit(row: seq<Seat>, r: nat, id: string)
    requires r < 26
    ensures forall u :: 0 <= u < |RowCells(row, r, id)| ==> |RowCells(row, r, id)[u]| == 1
    ensures RowCells(row, r, id)[0] == [RowLabel(r)]
  {
  }

  lemma RowLineLength(row: seq<Seat>, r: nat, id: string)
    requires r < 26
    ensures |RowLine(row, r, id)| == 4 * |row| + 1
  {
    var cells := RowCells(row, r, id);
    RowCellsUnit(row, r, id);
    JoinLength(Gap, cells);
    UnitOffset(Gap, cells, |cells| - 1);
  }

  /** Cell `u` of a row line is the single character at column `4 * u`. */
  lemma RowLineCell(row: seq<Seat>, r: nat, id: string, u: nat)
    requires r < 26 && u <= |row|
    ensures 4 * u < |RowLine(row, r, id)|
    ensures RowLine(row, r, id)[4 * u] == RowCells(row, r, id)[u][0]
  {
    var cells := RowCells(row, r, id);
    RowCellsUnit(row, r, id);
    var s := Join(Gap, cells);
    JoinCell(Gap, cells, u);
    UnitOffset(Gap, cells, u);
    assert s[4 * u] == s[4 * u..4 * u + 1][0];
  }

  /** Columns of a row line that are not multiples of four are blank. */
  lemma RowLineBlank(row: seq<Seat>, r: nat, id: string, k: nat)
    requires r < 26 && k < |RowLine(row, r, id)| && k % 4 != 0
    ensures RowLine(row, r, id)[k] == ' '
  {
    var cells := RowCells(row, r, id);
    RowCellsUnit(row, r, id);
    var s := Join(Gap, cells);
    var t := k / 4;
    RowLineLength(row, r, id);
    assert |Gap| == 3;
    assert 4 * t < k < 4 * t + 4;
    assert t < |row|;
    JoinGap(Gap, cells, t);
    UnitOffset(Gap, cells, t);
    UnitOffset(Gap, cells, t + 1);
    assert s[4 * t + 1..4 * t + 4] == Gap;
    assert s[k] == s[4 * t + 1..4 * t + 4][k - 4 * t - 1];
  }

  /** Seat `j` of a row line is drawn at column `4 * (j + 1)`; everything between is blank. */
  lemma RowLineLayout(row: seq<Seat>, r: nat, id: string)
    requires r < 26
    ensures |RowLine(row, r, id)| == 4 * |row| + 1
    ensures RowLine(row, r, id)[0] == RowLabel(r)
    ensures forall j :: 0 <= j < |row| ==> RowLine(row, r, id)[4 * (j + 1)] == row[j].GetChr(id)
    ensures forall k :: 0 <= k < |RowLine(row, r, id)| && k % 4 != 0 ==> RowLine(row, r, id)[k] == ' '
  {
    RowLineLength(row, r, id);
    RowLineCell(row, r, id, 0);
    RowCellsUnit(row, r, id);
    forall j | 0 <= j < |row| ensures RowLine(row, r, id)[4 * (j + 1)] == row[j].GetChr(id) {
      RowLineCell(row, r, id, j + 1);
      RowCellAt(row, r, id, j);
    }
    forall k | 0 <= k < |RowLine(row, r, id)| && k % 4 != 0 ensures RowLine(row, r, id)[k] == ' ' {
      RowLineBlank(row, r, id, k);
    }
  }

  /** `str(i)` for `a <= i < b`, in order. */
  function Labels(a: nat, b: nat): (ls: seq<string>)
    requires a <= b
    ensures |ls| == b - a
    ensures forall i :: 0 <= i < b - a ==> ls[i] == NatToString(a + i)
  {
    seq(b - a, i requires 0 <= i < b - a => NatToString(a + i))
  }

  /** The cells of the footer line: a blank, then the column numbers from 1. */
  function FooterCells(cols: nat): (cells: seq<string>)
    ensures |cells| == cols + 1 && cells[0] == " "
    ensures cells[1..] == Labels(1, cols + 1)
  {
    [" "] + Labels(1, cols + 1)
  }

  /** The footer line: the footer cells three spaces apart. */
  function Footer(cols: nat): string {
    Join(Gap, FooterCells(cols))
  }

  /** How far column number `k` is pushed right by the two-digit numbers before it. */
  function Drift(k: nat): nat {
    if k > 10 then k - 10 else 0
  }

  lemma NatToStringLength(n: nat)
    requires n < 100
    ensures |NatToString(n)| == 1 + Drift(n + 1) - Drift(n)
  {
    if n >= 10 {
      assert NatToString(n) == NatToString(n / 10) + [DigitChar(n % 10)];
    }
  }

  lemma {:induction false} LabelsOffset(a: nat, b: nat, t: nat)
    requires 1 <= a && a + t <= b <= 100
    ensures Offset(Gap, Labels(a, b), t) == 4 * t + Drift(a + t) - Drift(a)
    decreases t
  {
    if t > 0 {
      assert Labels(a, b)[1..] == Labels(a + 1, b);
      LabelsOffset(a + 1, b, t - 1);
      NatToStringLength(a);
    }
  }

  lemma FooterOffset(cols: nat, k: nat)
    requires cols < 100 && 1 <= k <= cols
    ensures Offset(Gap, FooterCells(cols), k) == 4 * k + Drift(k)
  {
    LabelsOffset(1, cols + 1, k - 1);
  }

  /** Column number `k` starts at `4 * k + Drift(k)`, so it sits under seat
      column `k` (drawn at `4 * k`) for `k <= 10` and `k - 10` places to
      its right after that. */
  lemma FooterLayout(cols: nat, k: nat)
    requires cols < 100 && 1 <= k <= cols
    ensures 4 * k + Drift(k) + |NatToString(k)| <= |Footer(cols)|
    ensures Footer(cols)[4 * k + Drift(k)..4 * k + Drift(k) + |NatToString(k)|] == NatToString(k)
  {
    var cells := FooterCells(cols);
    assert cells[k] == cells[1..][k - 1];
    JoinCell(Gap, cells, k);
    FooterOffset(cols, k);
  }

  /** The footer's total length: longer than a seat line once there are ten columns. */
  lemma FooterLength(cols: nat)
    requires cols < 100
    ensures |Footer(cols)| == 4 * cols + 1 + Drift(cols + 1)
  {
    var cells := FooterCells(cols);
    JoinLength(Gap, cells);
    if cols > 0 {
      FooterOffset(cols, cols);
      assert cells[cols] == cells[1..][cols - 1];
      NatToStringLength(cols);
    }
  }

  /** For up to ten columns each number's first digit is under its seat column. */
  lemma FooterAligned(cols: nat, k: nat)
    requires cols < 100 && 1 <= k <= cols && k <= 10
    ensures 4 * k < |Footer(cols)| && Footer(cols)[4 * k] == NatToString(k)[0]
  {
    FooterLayout(cols, k);
    var o := 4 * k;
    assert Footer(cols)[o] == Footer(cols)[o..o + |NatToString(k)|][0];
  }

  /** The banner centred in `Width(cols)`, as `str.center` pads it. */
  function Header(cols: nat): string {
    Centre(Banner, Width(cols))
  }

  /** The rule under the banner. */
  function Rule(cols: nat): (s: string)
    ensures |s| == Width(cols)
    ensures forall i :: 0 <= i < |s| ==> s[i] == '-'
  {
    Repeat('-', Width(cols))
  }

  /** The spaces left of the banner: half the margin, rounded down. */
  function LeftPad(cols: nat): nat {
    (Width(cols) - |Banner|) / 2
  }

  /** When CPython's extra left space does not apply, `center` puts half the
      margin, rounded down, on the left. */
  lemma CentreEvenLeft(s: string, width: nat, left: nat)
    requires width > |s| && !((width - |s|) % 2 == 1 && width % 2 == 1)
    requires left == (width - |s|) / 2
    ensures |Centre(s, width)| == width
    ensures Centre(s, width) == Repeat(' ', left) + s + Repeat(' ', width - |s| - left)
  {
  }

  /** The chart is wider than the banner, and never both odd-wide with an odd
      margin around the banner: either the margin is 6, or the width is a
      multiple of four. */
  lemma WidthMargin(cols: nat)
    ensures Width(cols) > 21
    ensures !((Width(cols) - 21) % 2 == 1 && Width(cols) % 2 == 1)
  {
    var w := Width(cols);
    if w != MinWidth {
      assert w == 2 * (2 * cols);
    }
  }

  /** For every column count the banner is centred, with the odd space on the right. */
  lemma HeaderCentred(cols: nat)
    ensures |Header(cols)| == Width(cols)
    ensures Header(cols) == Repeat(' ', LeftPad(cols)) + Banner + Repeat(' ', Width(cols) - |Banner| - LeftPad(cols))
    ensures Width(cols) - |Banner| - LeftPad(cols) in {LeftPad(cols), LeftPad(cols) + 1}
  {
    assert |Banner| == 21;
    WidthMargin(cols);
    CentreEvenLeft(Banner, Width(cols), LeftPad(cols));
  }

  /** The seat lines, back row first: line `t` draws row `|g| - 1 - t`. */
  function RowLines(g: Grid, id: string): (ls: seq<string>)
    requires |g| <= 26
    ensures |ls| == |g|
  {
    seq(|g|, t requires 0 <= t < |g| => RowLine(g[|g| - 1 - t], |g| - 1 - t, id))
  }

  /** The pieces `get_map` joins with newlines; the second one ends in a newline of its own. */
  function MapParts(g: Grid, id: string): seq<string>
    requires 0 < |g| <= 26
  {
    ["Booking id: " + id, "Selected seats:\n", Header(|g[0]|), Rule(|g[0]|)]
      + RowLines(g, id) + [Footer(|g[0]|)]
  }

  /** The chart `get_map` returns. */
  function Render(g: Grid, id: string): string
    requires 0 < |g| <= 26
  {
    Join("\n", MapParts(g, id))
  }

  /** The chart line by line, as it reads on screen. */
  function DisplayLines(g: Grid, id: string): (ls: seq<string>)
    requires 0 < |g| <= 26
    ensures |ls| == |g| + 6
  {
    ["Booking id: " + id, "Selected seats:", "", Header(|g[0]|), Rule(|g[0]|)]
      + RowLines(g, id) + [Footer(|g[0]|)]
  }

  /** Row `r` is drawn on display line `5 + (|g| - 1 - r)`, the back row
      first: its letter at column 0, seat `j`'s glyph at column
      `4 * (j + 1)`, and blanks everywhere else. */
  lemma ChartSeatLine(g: Grid, id: string, r: nat)
    requires 0 < |g| <= 26 && r < |g|
    ensures |DisplayLines(g, id)[5 + (|g| - 1 - r)]| == 4 * |g[r]| + 1
    ensures DisplayLines(g, id)[5 + (|g| - 1 - r)][0] == RowLabel(r)
    ensures forall j :: 0 <= j < |g[r]| ==> DisplayLines(g, id)[5 + (|g| - 1 - r)][4 * (j + 1)] == g[r][j].GetChr(id)
    ensures forall k :: 0 <= k < |DisplayLines(g, id)[5 + (|g| - 1 - r)]| && k % 4 != 0 ==>
              DisplayLines(g, id)[5 + (|g| - 1 - r)][k] == ' '
  {
    var t := |g| - 1 - r;
    assert DisplayLines(g, id)[5 + t] == RowLines(g, id)[t] == RowLine(g[r], r, id);
    RowLineLayout(g[r], r, id);
  }

  lemma JoinCons(sep: string, a: string, rest: seq<string>)
    requires |rest| > 0
    ensures Join(sep, [a] + rest) == a + sep + Join(sep, rest)
  {
    assert ([a] + rest)[1..] == rest;
  }

  /** A piece that ends in the separator reads as that piece and an empty one. */
  lemma JoinTrailingSep(sep: string, b: string, rest: seq<string>)
    requires |rest| > 0
    ensures Join(sep, [b + sep] + rest) == Join(sep, [b, ""] + rest)
  {
    JoinCons(sep, b + sep, rest);
    JoinCons(sep, "", rest);
    assert [b, ""] + rest == [b] + ([""] + rest);
    JoinCons(sep, b, [""] + rest);
    assert b + sep + ("" + sep + Join(sep, rest)) == b + sep + sep + Join(sep, rest);
  }

  /** The rendered chart is the display lines, one per line. */
  lemma RenderLines(g: Grid, id: string)
    requires 0 < |g| <= 26
    ensures Render(g, id) == Join("\n", DisplayLines(g, id))
  {
    var rest := [Header(|g[0]|), Rule(|g[0]|)] + RowLines(g, id) + [Footer(|g[0]|)];
    assert "Selected seats:\n" == "Selected seats:" + "\n";
    assert MapParts(g, id) == ["Booking id: " + id, "Selected seats:" + "\n"] + rest;
    assert DisplayLines(g, id) == ["Booking id: " + id, "Selected seats:", ""] + rest;
    JoinTrailingSep("\n", "Selected seats:", rest);
    JoinCons("\n", "Booking id: " + id, ["Selected seats:" + "\n"] + rest);
    JoinCons("\n", "Booking id: " + id, ["Selected seats:", ""] + rest);
    assert ["Booking id: " + id, "Selected seats:" + "\n"] + rest == ["Booking id: " + id] + (["Selected seats:" + "\n"] + rest);
    assert ["Booking id: " + id, "Selected seats:", ""] + rest == ["Booking id: " + id] + (["Selected seats:", ""] + rest);
  }
}
