/** Which cells of the map are visible from a centre, and which of them the window loops of RegionContainer pick. */
module RegionWindow {

  const TWO_TO_THE_32: nat := 0x1_0000_0000
  const TWO_TO_THE_31: nat := 0x8000_0000

  /** The source's abs((int32_t)(b - a)) on 32-bit unsigned coordinates. */
  function Distance32(a: nat, b: nat): int {
    var d := (b - a) % TWO_TO_THE_32;
    var signed := if d < TWO_TO_THE_31 then d else d - TWO_TO_THE_32;
    if signed < 0 then -signed else signed
  }

  /** Once the longer distance three times, once the shorter one. */
  function WeightedDistance(rx: nat, ry: nat, x: nat, y: nat): int {
    var cx, cy := Distance32(rx, x), Distance32(ry, y);
    if cx <= cy then cx + 3 * cy else cy + 3 * cx
  }

  predicate IsVisible(rx: nat, ry: nat, x: nat, y: nat) {
    9 >= WeightedDistance(rx, ry, x, y)
  }

  /** No int32_t of the source overflows when it decides this visibility. */
  predicate SumFits(rx: nat, ry: nat, x: nat, y: nat) {
    WeightedDistance(rx, ry, x, y) < TWO_TO_THE_31
  }

  /** The source's IsVisibleRegion on coordinates. */
  method IsVisibleRegion(rx: nat, ry: nat, x: nat, y: nat) returns (visible: bool)
    requires SumFits(rx, ry, x, y)
    ensures visible <==> IsVisible(rx, ry, x, y)
  {
    var cx, cy := Distance32(rx, x), Distance32(ry, y);
    var result;
    if cx <= cy {
      result := cx + 3 * cy;
    } else {
      result := cy + 3 * cx;
    }
    visible := 9 >= result;
  }

  /** Coordinates near which no 32-bit difference or sum of the source wraps around. */
  predicate NoWrap(n: nat) {
    n <= 0xFFFF_FFFC
  }

  lemma ShortAxis(r: nat, x: nat)
    requires NoWrap(r) && NoWrap(x + 1) && Distance32(r, x) <= 3
    ensures -3 <= x - r <= 3
  {
  }

  lemma ShortAxes(rx: nat, ry: nat, x: nat, y: nat)
    requires IsVisible(rx, ry, x, y)
    ensures Distance32(rx, x) <= 3 && Distance32(ry, y) <= 3
  {
    hide Distance32;
    assert Distance32(rx, x) >= 0 && Distance32(ry, y) >= 0 by {
      Positive(rx, x);
      Positive(ry, y);
    }
  }

  lemma Positive(a: nat, b: nat)
    ensures Distance32(a, b) >= 0
  {
  }

  /** A visible cell is at most three cells away on each axis. */
  lemma VisibleIsNear(rx: nat, ry: nat, x: nat, y: nat)
    requires NoWrap(rx) && NoWrap(ry) && NoWrap(x + 1) && NoWrap(y + 1) && IsVisible(rx, ry, x, y)
    ensures -3 <= x - rx <= 3 && -3 <= y - ry <= 3
  {
    hide IsVisible, Distance32;
    ShortAxes(rx, ry, x, y);
    ShortAxis(rx, x);
    ShortAxis(ry, y);
  }

  /** The shape of the view: two cells around the centre on both axes, three along an axis. */
  predicate InView(dx: int, dy: int) {
    || (-2 <= dx <= 2 && -2 <= dy <= 2)
    || (dx == 0 && (dy == 3 || dy == -3))
    || (dy == 0 && (dx == 3 || dx == -3))
  }

  lemma NearDistance(a: nat, b: nat)
    requires NoWrap(a) && NoWrap(b + 1)
    ensures -3 <= b - a <= 3 ==> Distance32(a, b) == (if a <= b then b - a else a - b)
  {
  }

  /** The weighted distance describes this shape. */
  lemma VisibleIsInView(rx: nat, ry: nat, x: nat, y: nat)
    requires NoWrap(rx) && NoWrap(ry) && NoWrap(x + 1) && NoWrap(y + 1)
    ensures IsVisible(rx, ry, x, y) <==> InView(x - rx, y - ry)
  {
    hide Distance32;
    if -3 <= x - rx <= 3 && -3 <= y - ry <= 3 {
      NearDistance(rx, x);
      NearDistance(ry, y);
    } else if IsVisible(rx, ry, x, y) {
      VisibleIsNear(rx, ry, x, y);
    }
  }

  // The bounds of the window.

  /** The source's lower bounds, with the wrapped difference overwritten. */
  function Low(r: nat): nat {
    var wrapped: int := (r as int - 3) % TWO_TO_THE_32;
    if r < 3 then 0 else wrapped
  }

  /** The source's upper bounds. */
  function High(r: nat, n: nat): nat {
    var h := (r + 3) % TWO_TO_THE_32;
    if h < n then h else if n == 0 then 0xFFFF_FFFF else n - 1
  }

  lemma HighInMap(r: nat, n: nat)
    requires 0 < n
    ensures High(r, n) < n
  {
  }

  /** Inside the bounds every distance from the centre is at most three, for all 32-bit centres and sides. */
  lemma WindowIsNear(r: nat, n: nat, x: nat)
    requires r < TWO_TO_THE_32 && 0 < n < TWO_TO_THE_32 && Low(r) <= x <= High(r, n)
    ensures 0 <= Distance32(r, x) <= 3
  {
    if r + 3 < TWO_TO_THE_32 {
      assert -3 <= x - r <= 3;
    }
  }

  /** So the sums for the centre itself never overflow in the window. */
  lemma WindowSumsFit(rx: nat, ry: nat, x: nat, y: nat, width: nat, height: nat)
    requires rx < TWO_TO_THE_32 && ry < TWO_TO_THE_32 && 0 < width < TWO_TO_THE_32 && 0 < height < TWO_TO_THE_32
    requires Low(rx) <= x <= High(rx, width) && Low(ry) <= y <= High(ry, height)
    ensures SumFits(rx, ry, x, y)
  {
    hide Distance32, Low, High;
    WindowIsNear(rx, width, x);
    WindowIsNear(ry, height, y);
  }

  /** Every visible cell of the map lies in the window, apart from the end of the 32-bit range. */
  lemma WindowCovers(rx: nat, ry: nat, x: nat, y: nat, width: nat, height: nat)
    requires NoWrap(rx) && NoWrap(ry) && NoWrap(width) && NoWrap(height)
    requires x < width && y < height && IsVisible(rx, ry, x, y)
    ensures Low(rx) <= x <= High(rx, width) && Low(ry) <= y
  {
    hide IsVisible;
    VisibleIsNear(rx, ry, x, y);
  }

  // What the loops enumerate, as values.

  datatype Cell = Cell(x: nat, y: nat)

  /** A centre already seen from, for the enumeration of new cells. */
  datatype Seen = Nowhere | From(x: nat, y: nat)

  /** The centre of an enumeration and what has been seen before. */
  datatype View = View(x: nat, y: nat, seen: Seen)

  predicate IsNew(seen: Seen, x: nat, y: nat) {
    seen.Nowhere? || !IsVisible(seen.x, seen.y, x, y)
  }

  /** The tests in the loops' body. */
  predicate Picks(v: View, x: nat, y: nat) {
    IsVisible(v.x, v.y, x, y) && IsNew(v.seen, x, y)
  }

  /** No sum of the source overflows when it asks whether a visible cell has been seen before. */
  ghost predicate SeenFits(v: View, width: nat, height: nat) {
    v.seen.From? ==>
      forall x, y :: 0 <= x < width && 0 <= y < height && IsVisible(v.x, v.y, x, y) ==>
                       SumFits(v.seen.x, v.seen.y, x, y)
  }

  lemma OneDistance(a: nat, b: nat)
    requires a < 0x2000_0000 && b < 0x2000_0000
    ensures 0 <= Distance32(a, b) < 0x2000_0000
  {
  }

  predicate AllBelow(s: seq<nat>, n: nat) {
    forall i :: 0 <= i < |s| ==> s[i] < n
  }

  /** Coordinates below 2^29 are always safe; the sum of the first one given here is not. */
  lemma SmallViewsFit(v: View, width: nat, height: nat)
    ensures v.seen.From? && AllBelow([v.seen.x, v.seen.y, width, height], 0x2000_0000) ==> SeenFits(v, width, height)
    ensures !SumFits(0x4000_0005, 0x4000_0005, 5, 5)
  {
    if v.seen.From? && AllBelow([v.seen.x, v.seen.y, width, height], 0x2000_0000) {
      var all := [v.seen.x, v.seen.y, width, height];
      assert all[0] == v.seen.x && all[1] == v.seen.y && all[2] == width && all[3] == height;
      forall x, y | 0 <= x < width && 0 <= y < height
        ensures SumFits(v.seen.x, v.seen.y, x, y)
      {
        OneDistance(v.seen.x, x);
        OneDistance(v.seen.y, y);
      }
    }
  }

  /** What the loops pick out of the window around a centre: the visible cells above row `bottom`. */
  predicate Wanted(v: View, c: Cell, height: nat) {
    Picks(v, c.x, c.y) && c.y < High(v.y, height)
  }

  /** The cells of column x picked by the inner loop from row top to below row y. */
  ghost function ColumnCells(x: nat, top: nat, y: nat, v: View, present: iset<Cell>): seq<Cell> {
    if y <= top then []
    else ColumnCells(x, top, y - 1, v, present)
         + (if Picks(v, x, y - 1) && Cell(x, y - 1) in present then [Cell(x, y - 1)] else [])
  }

  /** The cells picked by both loops from column left to left of column x. */
  ghost function WindowCells(left: nat, x: nat, top: nat, bottom: nat, v: View, present: iset<Cell>): seq<Cell> {
    if x <= left then []
    else WindowCells(left, x - 1, top, bottom, v, present) + ColumnCells(x - 1, top, bottom, v, present)
  }

  /** The cells an enumeration picks, in the order of its loops. */
  ghost function ViewCells(v: View, width: nat, height: nat, present: iset<Cell>): seq<Cell> {
    WindowCells(Low(v.x), High(v.x, width) + 1, Low(v.y), High(v.y, height), v, present)
  }

  ghost predicate Distinct(cells: seq<Cell>) {
    forall i, j :: 0 <= i < j < |cells| ==> cells[i] != cells[j]
  }

  lemma ViewIsWindow(v: View, width: nat, height: nat, present: iset<Cell>)
    ensures ViewCells(v, width, height, present)
         == WindowCells(Low(v.x), High(v.x, width) + 1, Low(v.y), High(v.y, height), v, present)
  {
  }

  /** The tests in the loops' body, on a cell of the window. */
  method PickCell(v: View, x: nat, y: nat, width: nat, height: nat) returns (wanted: bool)
    requires v.x < TWO_TO_THE_32 && v.y < TWO_TO_THE_32 && SeenFits(v, width, height)
    requires 0 < width < TWO_TO_THE_32 && 0 < height < TWO_TO_THE_32
    requires Low(v.x) <= x <= High(v.x, width) && Low(v.y) <= y <= High(v.y, height)
    ensures wanted <==> Picks(v, x, y)
  {
    hide IsVisible, SumFits, High, Low;
    WindowSumsFit(v.x, v.y, x, y, width, height);
    HighInMap(v.x, width);
    HighInMap(v.y, height);
    wanted := IsVisibleRegion(v.x, v.y, x, y);
    if wanted && v.seen.From? {
      var before := IsVisibleRegion(v.seen.x, v.seen.y, x, y);
      wanted := !before;
    }
  }

  lemma ColumnStep(x: nat, top: nat, y: nat, v: View, present: iset<Cell>)
    requires top <= y
    ensures ColumnCells(x, top, y + 1, v, present)
         == ColumnCells(x, top, y, v, present) + (if Picks(v, x, y) && Cell(x, y) in present then [Cell(x, y)] else [])
  {
  }

  lemma EmptyColumn(x: nat, top: nat, y: nat, v: View, present: iset<Cell>)
    ensures ColumnCells(x, top, top, v, present) == []
    ensures y <= top ==> ColumnCells(x, top, y, v, present) == []
  {
  }

  lemma EmptyWindow(left: nat, x: nat, top: nat, bottom: nat, v: View, present: iset<Cell>)
    ensures WindowCells(left, left, top, bottom, v, present) == []
    ensures x <= left ==> WindowCells(left, x, top, bottom, v, present) == []
  {
  }

  lemma WindowStep(left: nat, x: nat, top: nat, bottom: nat, v: View, present: iset<Cell>)
    requires left <= x
    ensures WindowCells(left, x + 1, top, bottom, v, present)
         == WindowCells(left, x, top, bottom, v, present) + ColumnCells(x, top, bottom, v, present)
  {
  }

  lemma FewAreDistinct(cells: seq<Cell>)
    requires |cells| <= 1
    ensures Distinct(cells)
  {
  }

  lemma DistinctConcat(a: seq<Cell>, b: seq<Cell>)
    requires Distinct(a) && Distinct(b) && forall c: Cell :: c in a ==> c !in b
    ensures Distinct(a + b)
  {
    forall i, j | 0 <= i < j < |a + b|
      ensures (a + b)[i] != (a + b)[j]
    {
      if i < |a| <= j {
        assert a[i] in a && b[j - |a|] in b;
      }
    }
  }

  lemma {:induction false} ColumnHolds(x: nat, top: nat, y: nat, v: View, present: iset<Cell>)
    ensures var picked := ColumnCells(x, top, y, v, present);
            && Distinct(picked)
            && forall c: Cell :: c in picked <==> c.x == x && top <= c.y < y && c in present && Picks(v, c.x, c.y)
  {
    hide Picks, Distinct, ColumnCells;
    if y <= top {
      EmptyColumn(x, top, y, v, present);
      FewAreDistinct([]);
    } else {
      var z, c := y - 1, Cell(x, y - 1);
      ColumnStep(x, top, z, v, present);
      ColumnHolds(x, top, z, v, present);
      var before := ColumnCells(x, top, z, v, present);
      var last := if Picks(v, x, z) && c in present then [c] else [];
      FewAreDistinct(last);
      DistinctConcat(before, last);
      assert ColumnCells(x, top, y, v, present) == before + last;
    }
  }

  lemma {:induction false} WindowHolds(left: nat, x: nat, top: nat, bottom: nat, v: View, present: iset<Cell>)
    ensures var picked := WindowCells(left, x, top, bottom, v, present);
            && Distinct(picked)
            && forall c: Cell :: c in picked <==>
                 left <= c.x < x && top <= c.y < bottom && c in present && Picks(v, c.x, c.y)
  {
    hide Picks, ColumnCells, WindowCells, Distinct;
    if x <= left {
      EmptyWindow(left, x, top, bottom, v, present);
      FewAreDistinct([]);
    } else {
      WindowStep(left, x - 1, top, bottom, v, present);
      WindowHolds(left, x - 1, top, bottom, v, present);
      ColumnHolds(x - 1, top, bottom, v, present);
      var before := WindowCells(left, x - 1, top, bottom, v, present);
      var column := ColumnCells(x - 1, top, bottom, v, present);
      DistinctConcat(before, column);
      assert WindowCells(left, x, top, bottom, v, present) == before + column;
    }
  }

  /** The wanted cells without distances and bounds: those of the view's shape above the row that is left out. */
  lemma WantedInView(v: View, c: Cell, height: nat)
    requires NoWrap(v.x) && NoWrap(v.y) && NoWrap(c.x + 1) && NoWrap(height) && c.y < height
    ensures Wanted(v, c, height) <==>
              InView(c.x - v.x, c.y - v.y) && IsNew(v.seen, c.x, c.y) && c.y < v.y + 3 && c.y + 1 < height
  {
    hide IsVisible, IsNew, InView;
    VisibleIsInView(v.x, v.y, c.x, c.y);
  }

  /** The window's clamped bounds lose no wanted cell of the map. */
  lemma WindowIsExact(v: View, width: nat, height: nat, present: iset<Cell>)
    requires NoWrap(width) && NoWrap(height) && NoWrap(v.x) && NoWrap(v.y)
    requires forall c: Cell :: c in present ==> c.x < width && c.y < height
    ensures forall c: Cell :: c in ViewCells(v, width, height, present) <==> c in present && Wanted(v, c, height)
  {
    hide IsVisible, IsNew, High, Low, WindowCells;
    WindowHolds(Low(v.x), High(v.x, width) + 1, Low(v.y), High(v.y, height), v, present);
    forall c: Cell | c in present && Wanted(v, c, height)
      ensures Low(v.x) <= c.x <= High(v.x, width) && Low(v.y) <= c.y
    {
      WindowCovers(v.x, v.y, c.x, c.y, width, height);
    }
  }

  /** Moving the viewer: the new cells and the cells still in sight make up the whole view, without overlap. */
  lemma ViewSplits(v: View, prx: nat, pry: nat, width: nat, height: nat, present: iset<Cell>)
    requires forall c: Cell :: c in present ==> c.x < width && c.y < height
    requires v.seen == From(prx, pry) && SeenFits(v, width, height)
    ensures var whole := ViewCells(v.(seen := Nowhere), width, height, present);
            var fresher := ViewCells(v, width, height, present);
            && (forall c: Cell :: c in fresher <==> c in whole && !IsVisible(prx, pry, c.x, c.y))
            && (forall c: Cell :: c in whole && c !in fresher <==> c in whole && IsVisible(prx, pry, c.x, c.y))
            && (forall c: Cell :: c in whole ==> SumFits(prx, pry, c.x, c.y))
  {
    hide IsVisible, High, Low, WindowCells, SumFits;
    WindowHolds(Low(v.x), High(v.x, width) + 1, Low(v.y), High(v.y, height), v, present);
    WindowHolds(Low(v.x), High(v.x, width) + 1, Low(v.y), High(v.y, height), v.(seen := Nowhere), present);
  }

  lemma BottomCell(rx: nat, ry: nat, height: nat)
    requires NoWrap(height) && ry < height
    ensures High(ry, height) < height && IsVisible(rx, ry, rx, High(ry, height))
  {
    var bottom: int := High(ry, height);
    assert 0 <= bottom - ry <= 3;
    NoDistance(rx);
    ShortDistance(ry, bottom);
  }

  lemma NoDistance(a: nat)
    ensures Distance32(a, a) == 0
  {
  }

  lemma ShortDistance(a: nat, b: nat)
    requires a <= b <= a + 3
    ensures Distance32(a, b) == b - a
  {
  }

  /** The last row is never enumerated: for every centre in the map the visible cell (rx, bottom) is left out. */
  lemma BottomRowIsMissed(rx: nat, ry: nat, width: nat, height: nat, present: iset<Cell>)
    requires NoWrap(width) && NoWrap(height) && rx < width && ry < height
    requires forall c: Cell :: c in present <==> c.x < width && c.y < height
    ensures var missed := Cell(rx, High(ry, height));
            && IsVisible(rx, ry, missed.x, missed.y) && missed in present
            && missed !in ViewCells(View(rx, ry, Nowhere), width, height, present)
  {
    hide WindowCells, IsVisible, IsNew, High, Low;
    BottomCell(rx, ry, height);
    WindowIsExact(View(rx, ry, Nowhere), width, height, present);
    assert Cell(rx, High(ry, height)) in present;
  }
}
