/** Pure geometry of the drop menu: the row a pointer is over, the bounding
    box of the expanded menu and the offsets the draw callback paints at.
    Coordinates are integers; `closedHeight` is the height of one row. */
module MenuGeometry {

  /** The side on which the option list unfolds. */
  datatype Direction = Down | Up

  /** Java's `(int)` cast applied to the quotient `a / b`: truncation toward
      zero, which differs from Dafny's `/` for a negative dividend. */
  function TruncDiv(a: int, b: int): (q: int)
    requires b > 0
    ensures 0 <= a ==> 0 <= q && q * b <= a < (q + 1) * b
    ensures a < 0 ==> q <= 0 && (q - 1) * b < a <= q * b
  {
    if a >= 0 then a / b else -((-a) / b)
  }

  lemma MulMono(a: int, b: int, c: int)
    requires a <= b && c > 0
    ensures a * c <= b * c
  {
    assert b * c - a * c == (b - a) * c;
  }

  /** A negative dividend smaller in size than the divisor truncates to 0. */
  lemma TruncSmallNegative(a: int, b: int)
    requires b > 0 && a < 0
    ensures a > -b ==> TruncDiv(a, b) == 0
  {
    var q := TruncDiv(a, b);
    if q <= -1 {
      MulMono(q, -1, b);
    }
  }

  /** Two quotients that both bracket `a` between consecutive multiples of `b`
      are the same quotient. */
  lemma QuotientUnique(a: int, b: int, q: int, p: int)
    requires b > 0
    requires q * b <= a < (q + 1) * b
    requires p * b <= a < (p + 1) * b
    ensures q == p
  {
    if q < p {
      MulMono(q + 1, p, b);
    } else if p < q {
      MulMono(p + 1, q, b);
    }
  }

  /** The option row under local y-coordinate `y`, or -1 over the header
      row. `height` is the component's current height. Nothing bounds the
      result by the number of options: below a DOWN box it runs past the last
      row, and just above an UP box the truncating cast yields row 0. */
  function SelectedIndex(direction: Direction, closedHeight: int, height: int, y: int): (r: int)
    requires closedHeight > 0
    ensures direction == Down ==> (r == -1 <==> y < closedHeight)
    ensures direction == Down && y >= closedHeight ==> r >= 0
    ensures direction == Down && r >= 0 ==>
              closedHeight * (r + 1) <= y < closedHeight * (r + 2)
    ensures direction == Up && 0 <= y ==> (r == -1 <==> y >= height - closedHeight)
    ensures direction == Up && 0 <= y < height - closedHeight ==> r >= 0
    ensures direction == Up && 0 <= y && r >= 0 ==>
              closedHeight * r <= y < closedHeight * (r + 1)
    ensures direction == Up && -closedHeight < y < 0 && y < height - closedHeight ==> r == 0
    ensures direction == Up && y <= -closedHeight && y < height - closedHeight ==> r <= -1
  {
    match direction
    case Up => UpIndex(closedHeight, height, y)
    case Down => DownIndex(closedHeight, y)
  }

  /** The hit test when the list unfolds upward: the header is the bottom row. */
  function UpIndex(closedHeight: int, height: int, y: int): (r: int)
    requires closedHeight > 0
    ensures 0 <= y ==> (r == -1 <==> y >= height - closedHeight)
    ensures 0 <= y < height - closedHeight ==> r >= 0
    ensures 0 <= y && r >= 0 ==> closedHeight * r <= y < closedHeight * (r + 1)
    ensures -closedHeight < y < 0 && y < height - closedHeight ==> r == 0
    ensures y <= -closedHeight && y < height - closedHeight ==> r <= -1
  {
    if y >= height - closedHeight then -1
    else if y < 0 then TruncSmallNegative(y, closedHeight); TruncDiv(y, closedHeight)
    else TruncDiv(y, closedHeight)
  }

  /** The hit test when the list unfolds downward: the header is the top row. */
  function DownIndex(closedHeight: int, y: int): (r: int)
    requires closedHeight > 0
    ensures r == -1 <==> y < closedHeight
    ensures y >= closedHeight ==> r >= 0
    ensures r >= 0 ==> closedHeight * (r + 1) <= y < closedHeight * (r + 2)
  {
    if y < closedHeight then -1 else TruncDiv(y - closedHeight, closedHeight)
  }

  /** A vertical extent: top coordinate and height. */
  datatype Bounds = Bounds(y: int, height: int)

  /** The top of the header row inside `b`: the header sits on top when the
      list unfolds downward and at the bottom when it unfolds upward. */
  function HeaderTop(direction: Direction, b: Bounds, closedHeight: int): (top: int)
    ensures b.height >= closedHeight ==> b.y <= top && top + closedHeight <= b.y + b.height
  {
    match direction
    case Down => b.y
    case Up => b.y + b.height - closedHeight
  }

  /** The bounding box of the expanded menu: one header row plus one row per
      option, grown away from the closed box on the side `direction` names. */
  function ExpandedBounds(direction: Direction, closedY: int, closedHeight: int, range: int): (b: Bounds)
    requires closedHeight > 0 && range > 0
    ensures b.height == closedHeight * (range + 1)
    ensures b.height > closedHeight
    ensures HeaderTop(direction, b, closedHeight) == closedY
    ensures direction == Down ==> b.y == closedY
    ensures direction == Up ==> b.y + b.height == closedY + closedHeight
  {
    match direction
    case Down => Bounds(closedY, closedHeight * (range + 1))
    case Up => Bounds(closedY - closedHeight * range, closedHeight * (range + 1))
  }

  /** Local offsets used by the draw callback: where the header text goes,
      where the separating line goes and the top of the highlighted row. */
  datatype Layout = Layout(textY: int, lineY: int, highlightY: int)

  function DrawLayout(direction: Direction, height: int, closedHeight: int, highlight: int): (l: Layout)
    ensures l.textY == HeaderTop(direction, Bounds(0, height), closedHeight)
    ensures direction == Down ==> l.lineY == l.textY + closedHeight
    ensures direction == Up ==> l.lineY == l.textY
  {
    match direction
    case Up => Layout(height - closedHeight, height - closedHeight, closedHeight * highlight)
    case Down => Layout(0, closedHeight, closedHeight * (1 + highlight))
  }

  /** One option row as the draw callback paints it: the top of the row its
      label is written in, and whether the label uses the emphasis colour. */
  datatype LabelRow = LabelRow(top: int, emphasized: bool)

  /** The rows of the expanded list in drawing order. Each label goes into the
      row the highlight rectangle would cover for its index, and exactly the
      highlighted index is emphasised. */
  method LabelRows(direction: Direction, height: int, closedHeight: int, range: int, highlight: int)
    returns (rows: seq<LabelRow>)
    ensures |rows| == if range < 0 then 0 else range
    ensures forall i :: 0 <= i < |rows| ==>
              rows[i].top == DrawLayout(direction, height, closedHeight, i).highlightY
    ensures forall i :: 0 <= i < |rows| ==> (rows[i].emphasized <==> i == highlight)
  {
    rows := [];
    var yp := if direction == Down then closedHeight else 0;
    var i := 0;
    while i < range
      invariant 0 <= i <= (if range < 0 then 0 else range)
      invariant |rows| == i
      invariant yp == DrawLayout(direction, height, closedHeight, i).highlightY
      invariant forall j :: 0 <= j < i ==>
                  rows[j] == LabelRow(DrawLayout(direction, height, closedHeight, j).highlightY, j == highlight)
    {
      rows := rows + [LabelRow(yp, i == highlight)];
      yp := yp + closedHeight;
      i := i + 1;
    }
  }

  /** While closed (height equal to one row), no point of the box hits an
      option. */
  lemma ClosedHitIsNone(direction: Direction, closedHeight: int, y: int)
    requires closedHeight > 0 && 0 <= y < closedHeight
    ensures SelectedIndex(direction, closedHeight, closedHeight, y) == -1
  {
  }

  /** While expanded, every option index a point inside the box hits is a
      valid value of the parameter. */
  lemma ExpandedHitInRange(direction: Direction, closedHeight: int, range: int, y: int)
    requires closedHeight > 0 && range > 0
    requires 0 <= y < closedHeight * (range + 1)
    ensures var r := SelectedIndex(direction, closedHeight, closedHeight * (range + 1), y);
            r == -1 || 0 <= r < range
  {
    var r := SelectedIndex(direction, closedHeight, closedHeight * (range + 1), y);
    if r >= range {
      MulMono(range, r, closedHeight);
    }
  }

  /** Every point of the row the draw callback highlights for index `i` is
      mapped back to `i` by the hit test; `HitLiesInHighlightRow` is the
      converse for points inside the box. */
  lemma HighlightRowHitsIndex(direction: Direction, closedHeight: int, range: int, i: int, k: int)
    requires closedHeight > 0 && 0 <= i < range
    requires 0 <= k < closedHeight
    ensures var height := closedHeight * (range + 1);
            SelectedIndex(direction, closedHeight, height,
                          DrawLayout(direction, height, closedHeight, i).highlightY + k) == i
  {
    var height := closedHeight * (range + 1);
    match direction
    case Down => DownRowHitsIndex(closedHeight, height, i, k);
    case Up => UpRowHitsIndex(closedHeight, range, i, k);
  }

  lemma DownRowHitsIndex(closedHeight: int, height: int, i: int, k: int)
    requires closedHeight > 0 && 0 <= i && 0 <= k < closedHeight
    ensures SelectedIndex(Down, closedHeight, height, closedHeight * (1 + i) + k) == i
  {
    var y := closedHeight * (1 + i) + k;
    MulMono(0, i, closedHeight);
    assert y - closedHeight == closedHeight * i + k;
    var q := TruncDiv(y - closedHeight, closedHeight);
    assert i * closedHeight <= y - closedHeight < (i + 1) * closedHeight;
    QuotientUnique(y - closedHeight, closedHeight, q, i);
  }

  lemma UpRowHitsIndex(closedHeight: int, range: int, i: int, k: int)
    requires closedHeight > 0 && 0 <= i < range && 0 <= k < closedHeight
    ensures SelectedIndex(Up, closedHeight, closedHeight * (range + 1), closedHeight * i + k) == i
  {
    var y := closedHeight * i + k;
    MulMono(0, i, closedHeight);
    MulMono(i + 1, range, closedHeight);
    assert closedHeight * (range + 1) - closedHeight == closedHeight * range;
    assert y < closedHeight * (range + 1) - closedHeight;
    var q := TruncDiv(y, closedHeight);
    QuotientUnique(y, closedHeight, q, i);
  }

  /** Inside the expanded box, a point the hit test maps to an option index
      lies in the row the draw callback highlights for that index. */
  lemma HitLiesInHighlightRow(direction: Direction, closedHeight: int, range: int, y: int)
    requires closedHeight > 0 && range > 0
    requires 0 <= y < closedHeight * (range + 1)
    ensures var height := closedHeight * (range + 1);
            var r := SelectedIndex(direction, closedHeight, height, y);
            r >= 0 ==>
              var top := DrawLayout(direction, height, closedHeight, r).highlightY;
              top <= y < top + closedHeight
  {
  }

  /** Outside the box the hit test is not bounded by the option count: the
      first point below an expanded DOWN box maps to `range`, one past the
      last option. */
  lemma BelowBoxHitsPastLastRow(closedHeight: int, range: int)
    requires closedHeight > 0 && range > 0
    ensures var height := closedHeight * (range + 1);
            SelectedIndex(Down, closedHeight, height, height) == range
  {
    var height := closedHeight * (range + 1);
    var q := TruncDiv(height - closedHeight, closedHeight);
    assert height - closedHeight == range * closedHeight;
    QuotientUnique(height - closedHeight, closedHeight, q, range);
  }

  /** The header row the draw callback writes the current value into is the
      band the hit test maps to -1. */
  lemma HeaderRowHitsNone(direction: Direction, closedHeight: int, range: int, k: int)
    requires closedHeight > 0 && range > 0
    requires 0 <= k < closedHeight
    ensures var height := closedHeight * (range + 1);
            SelectedIndex(direction, closedHeight, height,
                          DrawLayout(direction, height, closedHeight, 0).textY + k) == -1
  {
  }
}
