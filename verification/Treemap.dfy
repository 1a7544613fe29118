/** site/common.js: the squarified treemap of the heatmaps, over the real numbers. */
module Treemap {
  datatype Item = Item(name: string, weight: real)

  datatype Sized = Sized(item: Item, area: real)

  datatype Box = Box(x: real, y: real, width: real, height: real)

  datatype Tile = Tile(item: Item, area: real, box: Box)

  // ----- Cutting a rectangle into rectangles

  /** Left and top edges belong to a box, right and bottom edges do not. */
  predicate Contains(b: Box, px: real, py: real) {
    b.x <= px < b.x + b.width && b.y <= py < b.y + b.height
  }

  predicate Inside(a: Box, b: Box) {
    b.x <= a.x && a.x + a.width <= b.x + b.width && b.y <= a.y && a.y + a.height <= b.y + b.height
  }

  /** A line separates the boxes. */
  predicate Apart(a: Box, b: Box) {
    a.x + a.width <= b.x || b.x + b.width <= a.x || a.y + a.height <= b.y || b.y + b.height <= a.y
  }

  ghost predicate SomeContains(boxes: seq<Box>, px: real, py: real) {
    exists i :: 0 <= i < |boxes| && Contains(boxes[i], px, py)
  }

  /** The boxes lie inside the whole, pairwise apart, and leave no point of it uncovered. */
  ghost predicate Partition(boxes: seq<Box>, whole: Box) {
    && (forall i | 0 <= i < |boxes| :: Inside(boxes[i], whole))
    && (forall i, j | 0 <= i < j < |boxes| :: Apart(boxes[i], boxes[j]))
    && (forall px, py | Contains(whole, px, py) :: SomeContains(boxes, px, py))
  }

  /** In a partition every point of the whole lies in exactly one part. */
  lemma PartitionIsExact(boxes: seq<Box>, whole: Box, px: real, py: real)
    requires Partition(boxes, whole) && Contains(whole, px, py)
    ensures exists i :: 0 <= i < |boxes| && Contains(boxes[i], px, py)
                        && forall j | 0 <= j < |boxes| && j != i :: !Contains(boxes[j], px, py)
  {
    assert SomeContains(boxes, px, py);
    var i :| 0 <= i < |boxes| && Contains(boxes[i], px, py);
    forall j | 0 <= j < |boxes| && j != i ensures !Contains(boxes[j], px, py) {
      if i < j {
        assert Apart(boxes[i], boxes[j]);
      } else {
        assert Apart(boxes[j], boxes[i]);
      }
    }
  }

  lemma OneIsPartition(b: Box)
    ensures Partition([b], b)
  {
    forall px, py | Contains(b, px, py) ensures SomeContains([b], px, py) {
      assert Contains([b][0], px, py);
    }
  }

  /** Cutting the last part further. */
  lemma Refine(boxes: seq<Box>, last: Box, parts: seq<Box>, whole: Box)
    requires Partition(boxes + [last], whole) && Partition(parts, last)
    ensures Partition(boxes + parts, whole)
  {
    var fine := boxes + parts;
    RefineInside(boxes, last, parts, whole);
    forall i, j | 0 <= i < j < |fine| ensures Apart(fine[i], fine[j]) {
      RefineApart(boxes, last, parts, whole, i, j);
    }
    forall px, py | Contains(whole, px, py) ensures SomeContains(fine, px, py) {
      RefineCovers(boxes, last, parts, whole, px, py);
    }
  }

  lemma RefineInside(boxes: seq<Box>, last: Box, parts: seq<Box>, whole: Box)
    requires Partition(boxes + [last], whole) && Partition(parts, last)
    ensures forall i | 0 <= i < |boxes + parts| :: Inside((boxes + parts)[i], whole)
  {
    assert (boxes + [last])[|boxes|] == last;
    forall i | 0 <= i < |boxes + parts| ensures Inside((boxes + parts)[i], whole) {
      if i < |boxes| {
        assert (boxes + [last])[i] == boxes[i];
      } else {
        assert Inside(parts[i - |boxes|], last);
      }
    }
  }

  lemma RefineApart(boxes: seq<Box>, last: Box, parts: seq<Box>, whole: Box, i: nat, j: nat)
    requires Partition(boxes + [last], whole) && Partition(parts, last) && i < j < |boxes + parts|
    ensures Apart((boxes + parts)[i], (boxes + parts)[j])
  {
    if j < |boxes| {
      assert Apart((boxes + [last])[i], (boxes + [last])[j]);
    } else if i < |boxes| {
      assert Apart((boxes + [last])[i], (boxes + [last])[|boxes|]);
      assert Inside(parts[j - |boxes|], last);
    }
  }

  lemma RefineCovers(boxes: seq<Box>, last: Box, parts: seq<Box>, whole: Box, px: real, py: real)
    requires Partition(boxes + [last], whole) && Partition(parts, last) && Contains(whole, px, py)
    ensures SomeContains(boxes + parts, px, py)
  {
    assert SomeContains(boxes + [last], px, py);
    var i :| 0 <= i < |boxes + [last]| && Contains((boxes + [last])[i], px, py);
    if i < |boxes| {
      assert Contains((boxes + parts)[i], px, py);
    } else {
      assert SomeContains(parts, px, py);
      var k :| 0 <= k < |parts| && Contains(parts[k], px, py);
      assert Contains((boxes + parts)[|boxes| + k], px, py);
    }
  }

  lemma DropEmpty(boxes: seq<Box>, last: Box, whole: Box)
    requires Partition(boxes + [last], whole) && (last.width <= 0.0 || last.height <= 0.0)
    ensures Partition(boxes, whole)
  {
    forall i | 0 <= i < |boxes| ensures Inside(boxes[i], whole) {
      assert (boxes + [last])[i] == boxes[i];
    }
    forall i, j | 0 <= i < j < |boxes| ensures Apart(boxes[i], boxes[j]) {
      assert Apart((boxes + [last])[i], (boxes + [last])[j]);
    }
    forall px, py | Contains(whole, px, py) ensures SomeContains(boxes, px, py) {
      assert SomeContains(boxes + [last], px, py);
      var i :| 0 <= i < |boxes + [last]| && Contains((boxes + [last])[i], px, py);
      assert boxes[i] == (boxes + [last])[i];
    }
  }

  /** A cut across: the top part and what is below it. */
  lemma CutAcross(b: Box, h: real)
    requires 0.0 <= h <= b.height && 0.0 <= b.width
    ensures Partition([Box(b.x, b.y, b.width, h), Box(b.x, b.y + h, b.width, b.height - h)], b)
  {
    var parts := [Box(b.x, b.y, b.width, h), Box(b.x, b.y + h, b.width, b.height - h)];
    forall px, py | Contains(b, px, py) ensures SomeContains(parts, px, py) {
      assert Contains(parts[0], px, py) || Contains(parts[1], px, py);
    }
  }

  /** A cut down: the left part and what is right of it. */
  lemma CutDown(b: Box, w: real)
    requires 0.0 <= w <= b.width && 0.0 <= b.height
    ensures Partition([Box(b.x, b.y, w, b.height), Box(b.x + w, b.y, b.width - w, b.height)], b)
  {
    var parts := [Box(b.x, b.y, w, b.height), Box(b.x + w, b.y, b.width - w, b.height)];
    forall px, py | Contains(b, px, py) ensures SomeContains(parts, px, py) {
      assert Contains(parts[0], px, py) || Contains(parts[1], px, py);
    }
  }

  // ----- Areas

  function AreaSum(row: seq<Sized>): real {
    if row == [] then 0.0 else row[0].area + AreaSum(row[1..])
  }

  function WeightSum(items: seq<Item>): real {
    if items == [] then 0.0 else items[0].weight + WeightSum(items[1..])
  }

  ghost predicate Positive(row: seq<Sized>) {
    forall i | 0 <= i < |row| :: row[i].area > 0.0
  }

  lemma {:induction false} AreaSumPositive(row: seq<Sized>)
    requires Positive(row)
    ensures AreaSum(row) >= 0.0 && (row != [] ==> AreaSum(row) >= row[0].area)
  {
    if row != [] {
      AreaSumPositive(row[1..]);
    }
  }

  lemma {:induction false} AreaSumAppend(a: seq<Sized>, b: seq<Sized>)
    ensures AreaSum(a + b) == AreaSum(a) + AreaSum(b)
  {
    if a == [] {
      assert a + b == b;
    } else {
      AreaSumAppend(a[1..], b);
      assert (a + b)[1..] == a[1..] + b;
    }
  }

  lemma DivTimes(a: real, b: real)
    requires b != 0.0
    ensures a / b * b == a
  {
  }

  lemma DivPositive(a: real, b: real)
    requires a > 0.0 && b > 0.0
    ensures a / b > 0.0
  {
  }

  lemma TimesMonotone(a: real, b: real, c: real)
    requires c > 0.0
    ensures a <= b <==> a * c <= b * c
  {
  }

  /** sum / side, no more than the box has on the other side when the areas fit the box. */
  lemma ThicknessFits(sum: real, side: real, other: real)
    requires side > 0.0 && 0.0 < sum <= side * other
    ensures 0.0 < sum / side <= other
    ensures sum == side * other ==> sum / side == other
    ensures sum < side * other ==> sum / side < other
  {
    DivTimes(sum, side);
    DivPositive(sum, side);
    TimesMonotone(sum / side, other, side);
    TimesMonotone(other, sum / side, side);
  }

  // ----- One row of tiles

  /** Tiles stacked downwards from `top` in a column of the given width. */
  ghost function Column(row: seq<Sized>, x: real, top: real, width: real): (r: seq<Tile>)
    requires width > 0.0
    ensures |r| == |row|
  {
    if row == [] then []
    else
      var h := row[0].area / width;
      [Tile(row[0].item, row[0].area, Box(x, top, width, h))] + Column(row[1..], x, top + h, width)
  }

  /** Tiles lined up rightwards from `left` in a row of the given height. */
  ghost function Line(row: seq<Sized>, left: real, y: real, height: real): (r: seq<Tile>)
    requires height > 0.0
    ensures |r| == |row|
  {
    if row == [] then []
    else
      var w := row[0].area / height;
      [Tile(row[0].item, row[0].area, Box(left, y, w, height))] + Line(row[1..], left + w, y, height)
  }

  ghost function Boxes(tiles: seq<Tile>): (r: seq<Box>)
    ensures |r| == |tiles|
    ensures forall i | 0 <= i < |tiles| :: r[i] == tiles[i].box
  {
    if tiles == [] then [] else [tiles[0].box] + Boxes(tiles[1..])
  }

  lemma BoxesAppend(a: seq<Tile>, b: seq<Tile>)
    ensures Boxes(a + b) == Boxes(a) + Boxes(b)
  {
  }

  /** A tile carries its item, and its area is the product of its sides. */
  ghost predicate Fits(t: Tile, s: Sized) {
    t.item == s.item && t.area == s.area && t.box.width > 0.0 && t.box.height > 0.0 && t.box.width * t.box.height == s.area
  }

  ghost predicate AllFit(tiles: seq<Tile>, row: seq<Sized>) {
    |tiles| == |row| && forall i | 0 <= i < |row| :: Fits(tiles[i], row[i])
  }

  lemma {:induction false} ColumnFits(row: seq<Sized>, x: real, top: real, width: real)
    requires width > 0.0 && Positive(row)
    ensures AllFit(Column(row, x, top, width), row)
  {
    if row != [] {
      ColumnFits(row[1..], x, top + row[0].area / width, width);
      DivTimes(row[0].area, width);
      DivPositive(row[0].area, width);
    }
  }

  lemma {:induction false} LineFits(row: seq<Sized>, left: real, y: real, height: real)
    requires height > 0.0 && Positive(row)
    ensures AllFit(Line(row, left, y, height), row)
  {
    if row != [] {
      LineFits(row[1..], left + row[0].area / height, y, height);
      DivTimes(row[0].area, height);
      DivPositive(row[0].area, height);
    }
  }

  /** The heights of the rest make up what the first tile leaves of the column. */
  lemma FirstOfColumn(row: seq<Sized>, width: real, height: real)
    requires width > 0.0 && Positive(row) && row != [] && AreaSum(row) == width * height
    ensures 0.0 < row[0].area / width <= height
    ensures AreaSum(row[1..]) == width * (height - row[0].area / width)
  {
    var h := row[0].area / width;
    AreaSumPositive(row);
    DivTimes(row[0].area, width);
    DivPositive(row[0].area, width);
    TimesMonotone(h, height, width);
    assert width * (height - h) == width * height - h * width;
  }

  lemma {:induction false} ColumnPartitions(row: seq<Sized>, b: Box)
    requires b.width > 0.0 && Positive(row) && row != [] && AreaSum(row) == b.width * b.height
    ensures Partition(Boxes(Column(row, b.x, b.y, b.width)), b)
  {
    hide Partition;
    var h := row[0].area / b.width;
    FirstOfColumn(row, b.width, b.height);
    var first, below := Box(b.x, b.y, b.width, h), Box(b.x, b.y + h, b.width, b.height - h);
    CutAcross(b, h);
    assert [first, below] == [first] + [below];
    if |row| == 1 {
      EmptyHeight(b.width, b.height - h);
      DropEmpty([first], below, b);
      assert Column(row, b.x, b.y, b.width) == [Tile(row[0].item, row[0].area, first)];
      assert Boxes(Column(row, b.x, b.y, b.width)) == [first];
    } else {
      ColumnPartitions(row[1..], below);
      Refine([first], below, Boxes(Column(row[1..], b.x, b.y + h, b.width)), b);
      BoxesAppend([Tile(row[0].item, row[0].area, first)], Column(row[1..], b.x, b.y + h, b.width));
      assert Boxes([Tile(row[0].item, row[0].area, first)]) == [first];
    }
  }

  lemma EmptyHeight(width: real, height: real)
    requires width > 0.0 && width * height == 0.0
    ensures height == 0.0
  {
  }

  lemma {:induction false} LinePartitions(row: seq<Sized>, b: Box)
    requires b.height > 0.0 && Positive(row) && row != [] && AreaSum(row) == b.height * b.width
    ensures Partition(Boxes(Line(row, b.x, b.y, b.height)), b)
  {
    hide Partition;
    var w := row[0].area / b.height;
    FirstOfColumn(row, b.height, b.width);
    var first, right := Box(b.x, b.y, w, b.height), Box(b.x + w, b.y, b.width - w, b.height);
    CutDown(b, w);
    assert [first, right] == [first] + [right];
    if |row| == 1 {
      EmptyHeight(b.height, b.width - w);
      DropEmpty([first], right, b);
      assert Line(row, b.x, b.y, b.height) == [Tile(row[0].item, row[0].area, first)];
      assert Boxes(Line(row, b.x, b.y, b.height)) == [first];
    } else {
      LinePartitions(row[1..], right);
      Refine([first], right, Boxes(Line(row[1..], b.x + w, b.y, b.height)), b);
      BoxesAppend([Tile(row[0].item, row[0].area, first)], Line(row[1..], b.x + w, b.y, b.height));
      assert Boxes([Tile(row[0].item, row[0].area, first)]) == [first];
    }
  }

  // ----- The loops that lay a row

  method LayColumn(row: seq<Sized>, box: Box, width: real) returns (tiles: seq<Tile>)
    requires width > 0.0
    ensures tiles == Column(row, box.x, box.y, width)
  {
    tiles := [];
    var top := box.y;
    for i := 0 to |row|
      invariant tiles + Column(row[i..], box.x, top, width) == Column(row, box.x, box.y, width)
    {
      var h := row[i].area / width;
      assert row[i..][1..] == row[i + 1..];
      tiles := tiles + [Tile(row[i].item, row[i].area, Box(box.x, top, width, h))];
      top := top + h;
    }
  }

  method LayLine(row: seq<Sized>, box: Box, height: real) returns (tiles: seq<Tile>)
    requires height > 0.0
    ensures tiles == Line(row, box.x, box.y, height)
  {
    tiles := [];
    var left := box.x;
    for i := 0 to |row|
      invariant tiles + Line(row[i..], left, box.y, height) == Line(row, box.x, box.y, height)
    {
      var w := row[i].area / height;
      assert row[i..][1..] == row[i + 1..];
      tiles := tiles + [Tile(row[i].item, row[i].area, Box(left, box.y, w, height))];
      left := left + w;
    }
  }

  // ----- How many items a row takes

  function Largest(row: seq<Sized>): real
    requires row != []
  {
    if |row| == 1 then row[0].area else Max(row[0].area, Largest(row[1..]))
  }

  function Smallest(row: seq<Sized>): real
    requires row != []
  {
    if |row| == 1 then row[0].area else Min(row[0].area, Smallest(row[1..]))
  }

  function Max(a: real, b: real): real {
    if a >= b then a else b
  }

  function Min(a: real, b: real): real {
    if a <= b then a else b
  }

  lemma {:induction false} Extremes(row: seq<Sized>)
    requires row != [] && Positive(row)
    ensures forall i | 0 <= i < |row| :: 0.0 < Smallest(row) <= row[i].area <= Largest(row)
    ensures exists i :: 0 <= i < |row| && row[i].area == Smallest(row)
    ensures exists i :: 0 <= i < |row| && row[i].area == Largest(row)
  {
    if |row| == 1 {
      assert row[0].area == Smallest(row) == Largest(row);
    } else {
      var tail := row[1..];
      Extremes(tail);
      var i :| 0 <= i < |tail| && tail[i].area == Smallest(tail);
      var j :| 0 <= j < |tail| && tail[j].area == Largest(tail);
      assert row[i + 1].area == Smallest(tail) && row[j + 1].area == Largest(tail);
      forall k | 0 <= k < |row| ensures 0.0 < Smallest(row) <= row[k].area <= Largest(row) {
        assert k == 0 || row[k] == tail[k - 1];
      }
      assert row[0].area == Smallest(row) || row[i + 1].area == Smallest(row);
      assert row[0].area == Largest(row) || row[j + 1].area == Largest(row);
    }
  }

  lemma ProductPositive(a: real, b: real)
    requires a > 0.0 && b > 0.0
    ensures a * b > 0.0
  {
  }

  function Square(a: real): real {
    a * a
  }

  lemma SquarePositive(a: real)
    requires a > 0.0
    ensures Square(a) > 0.0
  {
    ProductIsPositive(a, a, Square(a));
  }

  lemma ProductIsPositive(a: real, b: real, c: real)
    requires a > 0.0 && b > 0.0 && c == a * b
    ensures c > 0.0
  {
  }

  /** side * side * area / (sum * sum) */
  function Slender(area: real, sum: real, side: real): real
    requires area > 0.0 && sum > 0.0 && side > 0.0
  {
    SquarePositive(sum);
    Square(side) * area / Square(sum)
  }

  /** sum * sum / (side * side * area) */
  function Squat(area: real, sum: real, side: real): real
    requires area > 0.0 && sum > 0.0 && side > 0.0
  {
    SquarePositive(side);
    ProductPositive(Square(side), area);
    Square(sum) / (Square(side) * area)
  }

  function Worst(row: seq<Sized>, side: real): real
    requires row != [] && Positive(row) && side > 0.0
  {
    AreaSumPositive(row);
    Extremes(row);
    Max(Slender(Largest(row), AreaSum(row), side), Squat(Smallest(row), AreaSum(row), side))
  }

  /** The row grew as long as its worst tile got no worse, and stopped where one more item
      would have made it worse. */
  ghost predicate Greedy(row: seq<Sized>, rest: seq<Sized>, side: real)
    requires Positive(row) && Positive(rest) && side > 0.0
  {
    && row != []
    && (forall k | 1 <= k < |row| :: Worst(row[..k + 1], side) <= Worst(row[..k], side))
    && (rest != [] ==> Worst(row + [rest[0]], side) > Worst(row, side))
  }

  method TakeRow(items: seq<Sized>, side: real) returns (row: seq<Sized>, rest: seq<Sized>)
    requires items != [] && Positive(items) && side > 0.0
    ensures items == row + rest && Positive(row) && Positive(rest)
    ensures Greedy(row, rest, side)
  {
    row, rest := [items[0]], items[1..];
    while rest != [] && Worst(row + [rest[0]], side) <= Worst(row, side)
      invariant items == row + rest && row != [] && Positive(row) && Positive(rest)
      invariant forall k | 1 <= k < |row| :: Worst(row[..k + 1], side) <= Worst(row[..k], side)
      decreases |rest|
    {
      var longer := row + [rest[0]];
      forall k | 1 <= k < |longer| ensures Worst(longer[..k + 1], side) <= Worst(longer[..k], side) {
        if k < |row| {
          assert longer[..k + 1] == row[..k + 1] && longer[..k] == row[..k];
        } else {
          assert longer[..k + 1] == longer && longer[..k] == row;
        }
      }
      row, rest := longer, rest[1..];
    }
  }

  // ----- What "worst" measures

  /** With a row laid along a side of this length, a tile of this area is this long and this thick. */
  function Length(area: real, sum: real, side: real): real
    requires sum > 0.0 && side > 0.0
  {
    area / (sum / side)
  }

  lemma LengthTimes(area: real, sum: real, side: real)
    requires area > 0.0 && sum > 0.0 && side > 0.0
    ensures sum / side > 0.0 && sum / side * side == sum
    ensures Length(area, sum, side) > 0.0 && Length(area, sum, side) * (sum / side) == area
  {
    DivTimes(sum, side);
    DivPositive(sum, side);
    DivTimes(area, sum / side);
    DivPositive(area, sum / side);
  }

  lemma AspectOf(area: real, sum: real, side: real)
    requires area > 0.0 && sum > 0.0 && side > 0.0
    ensures sum / side > 0.0 && Length(area, sum, side) > 0.0
    ensures Length(area, sum, side) / (sum / side) == Slender(area, sum, side)
    ensures (sum / side) / Length(area, sum, side) == Squat(area, sum, side)
  {
    hide Length, Square;
    LengthTimes(area, sum, side);
    var t, l := sum / side, Length(area, sum, side);
    SquarePositive(sum);
    SquarePositive(side);
    ProductPositive(Square(side), area);
    Squares(l, t, side, area, sum);
    Cross(l, t, Square(side) * area, Square(sum));
    Cross(t, l, Square(sum), Square(side) * area);
  }

  lemma Squares(l: real, t: real, side: real, area: real, sum: real)
    requires l * t == area && t * side == sum
    ensures l * Square(sum) == Square(side) * area * t
    ensures t * (Square(side) * area) == Square(sum) * l
  {
    assert Square(sum) == t * side * (t * side);
    assert l * (t * side * (t * side)) == side * side * (l * t) * t;
  }

  lemma Cross(a: real, b: real, c: real, d: real)
    requires b > 0.0 && d > 0.0 && a * d == c * b
    ensures a / b == c / d
  {
    DivTimes(a, b);
    DivTimes(c, d);
    var q, r := a / b, c / d;
    assert q * b * d == r * d * b;
    assert (q - r) * (b * d) == 0.0;
    assert b * d > 0.0;
  }

  function Aspect(long: real, thick: real): real
    requires long > 0.0 && thick > 0.0
  {
    Max(long / thick, thick / long)
  }

  lemma DivMonotoneReal(a: real, b: real, d: real)
    requires a <= b && d > 0.0
    ensures a / d <= b / d
  {
    DivTimes(a, d);
    DivTimes(b, d);
    TimesMonotone(a / d, b / d, d);
  }

  lemma DivAntitoneReal(n: real, c: real, d: real)
    requires n > 0.0 && 0.0 < c <= d
    ensures n / d <= n / c
  {
    DivTimes(n, c);
    DivTimes(n, d);
    DivPositive(n, c);
    TimesMonotone(n / d, n / c, d);
    assert n / c * d >= n / c * c;
  }

  lemma SlenderGrows(area: real, large: real, sum: real, side: real)
    requires 0.0 < area <= large && sum > 0.0 && side > 0.0
    ensures Slender(area, sum, side) <= Slender(large, sum, side)
  {
    hide Square;
    SquarePositive(sum);
    SquarePositive(side);
    TimesMonotone(area, large, Square(side));
    DivMonotoneReal(Square(side) * area, Square(side) * large, Square(sum));
  }

  lemma SquatShrinks(area: real, small: real, sum: real, side: real)
    requires 0.0 < small <= area && sum > 0.0 && side > 0.0
    ensures Squat(area, sum, side) <= Squat(small, sum, side)
  {
    hide Square;
    SquarePositive(sum);
    SquarePositive(side);
    ProductPositive(Square(side), small);
    TimesMonotone(small, area, Square(side));
    DivAntitoneReal(Square(sum), Square(side) * small, Square(side) * area);
  }

  /** The formula for "worst" is the greatest aspect ratio any tile of the row gets. */
  lemma WorstBoundsAspect(row: seq<Sized>, side: real, i: nat)
    requires row != [] && Positive(row) && side > 0.0 && i < |row|
    ensures AreaSum(row) > 0.0 && Length(row[i].area, AreaSum(row), side) > 0.0 && AreaSum(row) / side > 0.0
    ensures Aspect(Length(row[i].area, AreaSum(row), side), AreaSum(row) / side) <= Worst(row, side)
  {
    AreaSumPositive(row);
    Extremes(row);
    hide Slender, Squat, Length, AreaSum, Largest, Smallest;
    AspectOf(row[i].area, AreaSum(row), side);
    SlenderGrows(row[i].area, Largest(row), AreaSum(row), side);
    SquatShrinks(row[i].area, Smallest(row), AreaSum(row), side);
  }

  lemma WorstIsAttained(row: seq<Sized>, side: real) returns (i: nat)
    requires row != [] && Positive(row) && side > 0.0
    ensures i < |row| && AreaSum(row) > 0.0 && Length(row[i].area, AreaSum(row), side) > 0.0 && AreaSum(row) / side > 0.0
    ensures Aspect(Length(row[i].area, AreaSum(row), side), AreaSum(row) / side) == Worst(row, side)
  {
    AreaSumPositive(row);
    Extremes(row);
    hide Slender, Squat, Length, AreaSum, Largest, Smallest;
    var small: nat :| small < |row| && row[small].area == Smallest(row);
    var large: nat :| large < |row| && row[large].area == Largest(row);
    i := if Worst(row, side) == Slender(Largest(row), AreaSum(row), side) then large else small;
    WorstBoundsAspect(row, side, i);
    AspectOf(row[i].area, AreaSum(row), side);
  }

  /** The tiles of a column as long as the side have that thickness and those lengths. */
  lemma {:induction false} ColumnShape(row: seq<Sized>, x: real, top: real, width: real, i: nat)
    requires width > 0.0 && i < |row|
    ensures Column(row, x, top, width)[i].box.width == width
    ensures Column(row, x, top, width)[i].box.height == row[i].area / width
  {
    if i > 0 {
      ColumnShape(row[1..], x, top + row[0].area / width, width, i - 1);
    }
  }

  lemma {:induction false} LineShape(row: seq<Sized>, left: real, y: real, height: real, i: nat)
    requires height > 0.0 && i < |row|
    ensures Line(row, left, y, height)[i].box.height == height
    ensures Line(row, left, y, height)[i].box.width == row[i].area / height
  {
    if i > 0 {
      LineShape(row[1..], left + row[0].area / height, y, height, i - 1);
    }
  }

  // ----- The whole picture

  function SizedBy(item: Item, scale: real): Sized {
    Sized(item, item.weight * scale)
  }

  function Areas(items: seq<Item>, scale: real): (r: seq<Sized>)
    ensures |r| == |items|
    ensures forall i | 0 <= i < |items| :: r[i] == SizedBy(items[i], scale)
  {
    if items == [] then [] else [SizedBy(items[0], scale)] + Areas(items[1..], scale)
  }

  lemma {:induction false} AreasAddUp(items: seq<Item>, scale: real)
    ensures AreaSum(Areas(items, scale)) == WeightSum(items) * scale
  {
    if items != [] {
      AreasAddUp(items[1..], scale);
      assert (items[0].weight + WeightSum(items[1..])) * scale == items[0].weight * scale + WeightSum(items[1..]) * scale;
    }
  }

  lemma {:induction false} WeightsPositive(items: seq<Item>)
    requires forall i | 0 <= i < |items| :: items[i].weight > 0.0
    ensures WeightSum(items) >= 0.0 && (items != [] ==> WeightSum(items) > 0.0)
  {
    if items != [] {
      WeightsPositive(items[1..]);
    }
  }

  function Area(b: Box): real {
    b.width * b.height
  }

  function ScaleOf(whole: Box, total: real): real
    requires total > 0.0
  {
    Area(whole) / total
  }

  lemma AreasScaled(items: seq<Item>, whole: Box, scale: real)
    requires items != [] && whole.width > 0.0 && whole.height > 0.0
    requires forall i | 0 <= i < |items| :: items[i].weight > 0.0
    requires WeightSum(items) > 0.0 && scale == ScaleOf(whole, WeightSum(items))
    ensures Areas(items, scale) != [] && Positive(Areas(items, scale)) && AreaSum(Areas(items, scale)) == Area(whole)
    ensures scale * WeightSum(items) == Area(whole)
  {
    hide WeightSum, Area, Areas, AreaSum;
    AreaPositive(whole);
    DivTimes(Area(whole), WeightSum(items));
    DivPositive(Area(whole), WeightSum(items));
    AreasAddUp(items, scale);
    forall i | 0 <= i < |items| ensures Areas(items, scale)[i].area > 0.0 {
      ProductPositive(items[i].weight, scale);
    }
  }

  lemma AreaPositive(b: Box)
    requires b.width > 0.0 && b.height > 0.0
    ensures Area(b) > 0.0
  {
    ProductPositive(b.width, b.height);
  }

  /** What is still to lay out fills exactly what is left of the picture. */
  ghost predicate Remaining(box: Box, rest: seq<Sized>) {
    && Positive(rest)
    && AreaSum(rest) == box.width * box.height
    && (rest != [] ==> box.width > 0.0 && box.height > 0.0)
    && (rest == [] ==> box.width <= 0.0 || box.height <= 0.0)
  }

  /** A strip of the right thickness takes its areas, and leaves room for exactly the others. */
  lemma StripAndRest(sum: real, left: real, side: real, other: real, t: real)
    requires side > 0.0 && sum > 0.0 && left >= 0.0 && sum + left == side * other && t == sum / side
    ensures 0.0 < t <= other && t * side == sum && (other - t) * side == left
    ensures left > 0.0 ==> other - t > 0.0
    ensures left == 0.0 ==> other - t == 0.0
  {
    ThicknessFits(sum, side, other);
    DivTimes(sum, side);
    assert (other - t) * side == other * side - t * side;
  }

  lemma RowAndRest(row: seq<Sized>, rest: seq<Sized>)
    requires Positive(row) && Positive(rest) && row != []
    ensures AreaSum(row) > 0.0 && AreaSum(row + rest) == AreaSum(row) + AreaSum(rest)
    ensures AreaSum(rest) >= 0.0 && (AreaSum(rest) == 0.0 <==> rest == [])
  {
    AreaSumAppend(row, rest);
    AreaSumPositive(row);
    AreaSumPositive(rest);
  }

  /** The tiles of a row and the next box cut the box up, and the areas still to come fill the next box. */
  ghost predicate Laid(laid: seq<Tile>, row: seq<Sized>, next: Box, rest: seq<Sized>, box: Box) {
    AllFit(laid, row) && Remaining(next, rest) && Partition(Boxes(laid) + [next], box)
  }

  lemma AfterColumn(box: Box, row: seq<Sized>, rest: seq<Sized>, width: real)
    requires Remaining(box, row + rest) && row != [] && Positive(row) && Positive(rest) && box.height > 0.0
    requires width == AreaSum(row) / box.height
    ensures width > 0.0
    ensures Laid(Column(row, box.x, box.y, width), row, Box(box.x + width, box.y, box.width - width, box.height), rest, box)
  {
    hide Partition, AreaSum, Column, AllFit;
    RowAndRest(row, rest);
    StripAndRest(AreaSum(row), AreaSum(rest), box.height, box.width, width);
    var left, right := Box(box.x, box.y, width, box.height), Box(box.x + width, box.y, box.width - width, box.height);
    CutDown(box, width);
    ColumnPartitions(row, left);
    ColumnFits(row, box.x, box.y, width);
    SwapLast(left, right, Boxes(Column(row, box.x, box.y, width)), box);
  }

  lemma AfterLine(box: Box, row: seq<Sized>, rest: seq<Sized>, height: real)
    requires Remaining(box, row + rest) && row != [] && Positive(row) && Positive(rest) && box.width > 0.0
    requires height == AreaSum(row) / box.width
    ensures height > 0.0
    ensures Laid(Line(row, box.x, box.y, height), row, Box(box.x, box.y + height, box.width, box.height - height), rest, box)
  {
    hide Partition, AreaSum, Line, AllFit;
    RowAndRest(row, rest);
    StripAndRest(AreaSum(row), AreaSum(rest), box.width, box.height, height);
    var above, below := Box(box.x, box.y, box.width, height), Box(box.x, box.y + height, box.width, box.height - height);
    CutAcross(box, height);
    LinePartitions(row, above);
    LineFits(row, box.x, box.y, height);
    SwapLast(above, below, Boxes(Line(row, box.x, box.y, height)), box);
  }

  /** Cutting the first of two parts further. */
  lemma SwapLast(first: Box, second: Box, parts: seq<Box>, whole: Box)
    requires Partition([first, second], whole) && Partition(parts, first)
    ensures Partition(parts + [second], whole)
  {
    hide Partition, Inside, Apart, Contains, SomeContains;
    Exchange(first, second, whole);
    assert [second, first] == [second] + [first];
    Refine([second], first, parts, whole);
    Rotate(second, parts, whole);
  }

  lemma Exchange(first: Box, second: Box, whole: Box)
    requires Partition([first, second], whole)
    ensures Partition([second, first], whole)
  {
    assert Inside([first, second][0], whole) && Inside([first, second][1], whole) && Apart([first, second][0], [first, second][1]);
    forall px, py | Contains(whole, px, py) ensures SomeContains([second, first], px, py) {
      assert SomeContains([first, second], px, py);
      assert Contains([second, first][0], px, py) || Contains([second, first][1], px, py);
    }
  }

  lemma Rotate(one: Box, parts: seq<Box>, whole: Box)
    requires Partition([one] + parts, whole)
    ensures Partition(parts + [one], whole)
  {
    var a, b := [one] + parts, parts + [one];
    forall i | 0 <= i < |b| ensures Inside(b[i], whole) {
      assert b[i] == a[if i < |parts| then i + 1 else 0];
    }
    forall i, j | 0 <= i < j < |b| ensures Apart(b[i], b[j]) {
      assert b[i] == a[i + 1];
      if j < |parts| {
        assert b[j] == a[j + 1] && Apart(a[i + 1], a[j + 1]);
      } else {
        assert b[j] == a[0] && Apart(a[0], a[i + 1]);
      }
    }
    forall px, py | Contains(whole, px, py) ensures SomeContains(b, px, py) {
      assert SomeContains(a, px, py);
      var i :| 0 <= i < |a| && Contains(a[i], px, py);
      assert Contains(b[if i == 0 then |parts| else i - 1], px, py);
    }
  }

  lemma FitsJoin(a: seq<Tile>, done: seq<Sized>, b: seq<Tile>, row: seq<Sized>)
    requires AllFit(a, done) && AllFit(b, row)
    ensures AllFit(a + b, done + row)
  {
  }

  /** The picture so far: the tiles of `done` and the box still empty partition the whole. */
  ghost predicate SoFar(tiles: seq<Tile>, done: seq<Sized>, box: Box, rest: seq<Sized>, whole: Box) {
    AllFit(tiles, done) && Remaining(box, rest) && Partition(Boxes(tiles) + [box], whole)
  }

  lemma SoFarNext(tiles: seq<Tile>, done: seq<Sized>, box: Box, row: seq<Sized>, rest: seq<Sized>, whole: Box, laid: seq<Tile>, next: Box)
    requires SoFar(tiles, done, box, row + rest, whole)
    requires Laid(laid, row, next, rest, box)
    ensures SoFar(tiles + laid, done + row, next, rest, whole)
  {
    hide Partition, Remaining, AllFit;
    FitsJoin(tiles, done, laid, row);
    Refine(Boxes(tiles), box, Boxes(laid) + [next], whole);
    BoxesAppend(tiles, laid);
    assert Boxes(tiles) + (Boxes(laid) + [next]) == Boxes(tiles + laid) + [next];
  }

  lemma SoFarStart(sized: seq<Sized>, whole: Box)
    requires sized != [] && Positive(sized) && AreaSum(sized) == Area(whole) && whole.width > 0.0 && whole.height > 0.0
    ensures SoFar([], [], whole, sized, whole)
  {
    OneIsPartition(whole);
    assert Boxes([]) + [whole] == [whole];
  }

  // ----- What makes the picture squarified

  ghost predicate Roomy(box: Box) {
    box.width > 0.0 && box.height > 0.0
  }

  ghost function ShorterSide(box: Box): (side: real)
    ensures side <= box.width && side <= box.height && (side == box.width || side == box.height)
  {
    Min(box.width, box.height)
  }

  lemma ThicknessPositive(row: seq<Sized>, side: real)
    requires row != [] && Positive(row) && side > 0.0
    ensures AreaSum(row) / side > 0.0
  {
    AreaSumPositive(row);
    DivPositive(AreaSum(row), side);
  }

  /** A row along the shorter side of a box: a column on its left or a line along its top. */
  ghost function RowIn(row: seq<Sized>, box: Box): (r: seq<Tile>)
    requires row != [] && Positive(row) && Roomy(box)
    ensures |r| == |row|
  {
    ThicknessPositive(row, box.height);
    ThicknessPositive(row, box.width);
    if box.width >= box.height then Column(row, box.x, box.y, AreaSum(row) / box.height)
    else Line(row, box.x, box.y, AreaSum(row) / box.width)
  }

  /** What such a row leaves of the box. */
  ghost function Left(row: seq<Sized>, box: Box): Box
    requires Roomy(box)
  {
    if box.width >= box.height
    then Box(box.x + AreaSum(row) / box.height, box.y, box.width - AreaSum(row) / box.height, box.height)
    else Box(box.x, box.y + AreaSum(row) / box.width, box.width, box.height - AreaSum(row) / box.width)
  }

  /** No tile is more than `worst` times as long as it is wide, or as wide as it is long, and some
      tile is exactly that. */
  ghost predicate WorstOf(tiles: seq<Tile>, worst: real) {
    && (forall i | 0 <= i < |tiles| ::
          tiles[i].box.width > 0.0 && tiles[i].box.height > 0.0 && Aspect(tiles[i].box.width, tiles[i].box.height) <= worst)
    && (exists i :: 0 <= i < |tiles| && tiles[i].box.width > 0.0 && tiles[i].box.height > 0.0
                    && Aspect(tiles[i].box.width, tiles[i].box.height) == worst)
  }

  /** The first `n` areas are the next row: taken greedily for the shorter side of the box, and laid
      along it, so that no tile is more oblong than the formula says. */
  ghost predicate FirstRow(tiles: seq<Tile>, sized: seq<Sized>, box: Box, n: nat) {
    && 0 < n <= |sized| == |tiles| && Positive(sized[..n]) && Positive(sized[n..]) && Roomy(box)
    && Greedy(sized[..n], sized[n..], ShorterSide(box))
    && tiles[..n] == RowIn(sized[..n], box)
    && WorstOf(tiles[..n], Worst(sized[..n], ShorterSide(box)))
  }

  /** The tiles are consecutive rows, each in the box that the rows before it left. */
  ghost predicate InRows(tiles: seq<Tile>, sized: seq<Sized>, box: Box)
    decreases |sized|
  {
    if sized == [] then tiles == []
    else exists n: nat :: FirstRow(tiles, sized, box, n) && InRows(tiles[n..], sized[n..], Left(sized[..n], box))
  }

  lemma AspectIsSymmetric(a: real, b: real)
    requires a > 0.0 && b > 0.0
    ensures Aspect(a, b) == Aspect(b, a)
  {
  }

  lemma RowShape(row: seq<Sized>, box: Box, i: nat)
    requires row != [] && Positive(row) && Roomy(box) && i < |row|
    ensures var b, side := RowIn(row, box)[i].box, ShorterSide(box);
            && AreaSum(row) > 0.0 && Length(row[i].area, AreaSum(row), side) > 0.0 && AreaSum(row) / side > 0.0
            && b.width > 0.0 && b.height > 0.0
            && Aspect(b.width, b.height) == Aspect(Length(row[i].area, AreaSum(row), side), AreaSum(row) / side)
  {
    hide Column, Line, Aspect, AreaSum;
    AreaSumPositive(row);
    LengthTimes(row[i].area, AreaSum(row), ShorterSide(box));
    AspectIsSymmetric(Length(row[i].area, AreaSum(row), ShorterSide(box)), AreaSum(row) / ShorterSide(box));
    if box.width >= box.height {
      ThicknessPositive(row, box.height);
      ColumnShape(row, box.x, box.y, AreaSum(row) / box.height, i);
    } else {
      ThicknessPositive(row, box.width);
      LineShape(row, box.x, box.y, AreaSum(row) / box.width, i);
    }
  }

  lemma RowIsNoWorse(row: seq<Sized>, box: Box)
    requires row != [] && Positive(row) && Roomy(box)
    ensures WorstOf(RowIn(row, box), Worst(row, ShorterSide(box)))
  {
    hide RowIn, Worst, Aspect, AreaSum, Length;
    var tiles, side := RowIn(row, box), ShorterSide(box);
    forall i | 0 <= i < |tiles|
      ensures tiles[i].box.width > 0.0 && tiles[i].box.height > 0.0
      ensures Aspect(tiles[i].box.width, tiles[i].box.height) <= Worst(row, side)
    {
      RowShape(row, box, i);
      WorstBoundsAspect(row, side, i);
    }
    var i := WorstIsAttained(row, side);
    RowShape(row, box, i);
    assert Aspect(tiles[i].box.width, tiles[i].box.height) == Worst(row, side);
  }

  /** A row in front of a squarified rest. */
  lemma RowInFront(row: seq<Sized>, rest: seq<Sized>, box: Box, more: seq<Tile>)
    requires row != [] && Positive(row) && Positive(rest) && Roomy(box) && Greedy(row, rest, ShorterSide(box))
    requires InRows(more, rest, Left(row, box))
    ensures InRows(RowIn(row, box) + more, row + rest, box)
  {
    hide RowIn, WorstOf, Greedy, Worst, Left;
    var n, tiles, sized := |row|, RowIn(row, box) + more, row + rest;
    assert tiles[..n] == RowIn(row, box) && tiles[n..] == more && sized[..n] == row && sized[n..] == rest;
    RowsCount(more, rest, Left(row, box));
    RowIsNoWorse(row, box);
    assert FirstRow(tiles, sized, box, n);
  }

  lemma RowsCount(tiles: seq<Tile>, sized: seq<Sized>, box: Box)
    requires InRows(tiles, sized, box)
    ensures |tiles| == |sized|
  {
  }

  /** One turn of the outer loop: a column on the left or a row along the top. */
  method LayRow(box: Box, row: seq<Sized>, ghost rest: seq<Sized>) returns (laid: seq<Tile>, next: Box)
    requires Remaining(box, row + rest) && row != [] && Positive(row) && Positive(rest) && box.width > 0.0 && box.height > 0.0
    ensures Laid(laid, row, next, rest, box)
    ensures laid == RowIn(row, box) && next == Left(row, box)
  {
    hide Laid, Remaining, Column, Line;
    var sum := AreaSum(row);
    if box.width >= box.height {
      var columnWidth := sum / box.height;
      AfterColumn(box, row, rest, columnWidth);
      laid := LayColumn(row, box, columnWidth);
      next := Box(box.x + columnWidth, box.y, box.width - columnWidth, box.height);
    } else {
      var rowHeight := sum / box.width;
      AfterLine(box, row, rest, rowHeight);
      laid := LayLine(row, box, rowHeight);
      next := Box(box.x, box.y + rowHeight, box.width, box.height - rowHeight);
    }
  }

  method LayAll(sized: seq<Sized>, whole: Box) returns (tiles: seq<Tile>)
    requires sized != [] && Positive(sized) && AreaSum(sized) == Area(whole) && whole.width > 0.0 && whole.height > 0.0
    ensures AllFit(tiles, sized) && Partition(Boxes(tiles), whole) && InRows(tiles, sized, whole)
  {
    hide Partition, Remaining, AllFit, Greedy, SoFar, Laid, AreaSum, InRows, RowIn, Left;
    var box, rest := whole, sized;
    ghost var done: seq<Sized> := [];
    tiles := [];
    SoFarStart(sized, whole);
    assert forall more: seq<Tile> :: [] + more == more;
    while rest != []
      invariant sized == done + rest
      invariant SoFar(tiles, done, box, rest, whole)
      invariant forall more :: InRows(more, rest, box) ==> InRows(tiles + more, sized, whole)
      decreases |rest|
    {
      RemainingIsPositive(tiles, done, box, rest, whole);
      var side := Min(box.width, box.height);
      var row, others := TakeRow(rest, side);
      var laid, next := LayRow(box, row, others);
      SoFarNext(tiles, done, box, row, others, whole, laid, next);
      forall more | InRows(more, others, next) ensures InRows(tiles + laid + more, sized, whole) {
        RowInFront(row, others, box, more);
        assert tiles + (laid + more) == tiles + laid + more;
      }
      tiles := tiles + laid;
      done, rest, box := done + row, others, next;
    }
    assert done == sized;
    NoMoreRows(box);
    assert tiles + [] == tiles;
    Finished(tiles, sized, box, whole);
  }

  lemma NoMoreRows(box: Box)
    ensures InRows([], [], box)
  {
  }

  /** The tile shows the item, and takes its weight's share of the area. */
  ghost predicate Shows(t: Tile, item: Item, total: real, whole: Box) {
    t.item == item && t.box.width > 0.0 && t.box.height > 0.0 && Area(t.box) * total == item.weight * Area(whole)
  }

  lemma FitShows(t: Tile, item: Item, scale: real, total: real, whole: Box)
    requires Fits(t, SizedBy(item, scale)) && scale * total == Area(whole)
    ensures Shows(t, item, total, whole)
  {
    assert item.weight * scale * total == item.weight * (scale * total);
  }

  ghost predicate AllShown(tiles: seq<Tile>, items: seq<Item>, whole: Box) {
    |tiles| == |items| && forall i | 0 <= i < |items| :: Shows(tiles[i], items[i], WeightSum(items), whole)
  }

  lemma AllShow(tiles: seq<Tile>, items: seq<Item>, scale: real, whole: Box)
    requires AllFit(tiles, Areas(items, scale)) && scale * WeightSum(items) == Area(whole)
    ensures AllShown(tiles, items, whole)
  {
    hide Shows, Area, SizedBy, WeightSum;
    forall i | 0 <= i < |items| ensures Shows(tiles[i], items[i], WeightSum(items), whole) {
      assert Fits(tiles[i], Areas(items, scale)[i]);
      FitShows(tiles[i], items[i], scale, WeightSum(items), whole);
    }
  }

  lemma NothingToShow(whole: Box)
    ensures AllShown([], [], whole)
  {
  }

  /** The picture of these items in this box is made of greedy rows along the shorter sides. */
  ghost predicate Squarified(tiles: seq<Tile>, items: seq<Item>, whole: Box) {
    WeightSum(items) > 0.0 && InRows(tiles, Areas(items, ScaleOf(whole, WeightSum(items))), whole)
  }

  /** For positive weights and a positive box the tiles, in the order of the items, cut the box
      into pieces whose areas are in proportion to the weights, row by row along the shorter side
      of what is left, each row as long as its worst tile gets no worse. */
  method Squarify(items: seq<Item>, x: real, y: real, width: real, height: real) returns (tiles: seq<Tile>)
    requires width > 0.0 && height > 0.0
    requires forall i | 0 <= i < |items| :: items[i].weight > 0.0
    ensures items != [] ==> Partition(Boxes(tiles), Box(x, y, width, height))
    ensures AllShown(tiles, items, Box(x, y, width, height))
    ensures items != [] ==> Squarified(tiles, items, Box(x, y, width, height))
  {
    hide Partition, WeightSum, AreaSum, Boxes, Area, Areas, AllFit, ScaleOf, Positive, AllShown, InRows;
    if items == [] {
      NothingToShow(Box(x, y, width, height));
      return [];
    }
    ghost var whole := Box(x, y, width, height);
    WeightsPositive(items);
    var scale := ScaleOf(Box(x, y, width, height), WeightSum(items));
    AreasScaled(items, whole, scale);
    tiles := LayAll(Areas(items, scale), Box(x, y, width, height));
    AllShow(tiles, items, scale, whole);
  }

  lemma RemainingIsPositive(tiles: seq<Tile>, done: seq<Sized>, box: Box, rest: seq<Sized>, whole: Box)
    requires SoFar(tiles, done, box, rest, whole) && rest != []
    ensures Remaining(box, rest) && Positive(rest) && box.width > 0.0 && box.height > 0.0
  {
  }

  lemma Finished(tiles: seq<Tile>, done: seq<Sized>, box: Box, whole: Box)
    requires SoFar(tiles, done, box, [], whole)
    ensures AllFit(tiles, done) && Partition(Boxes(tiles), whole)
  {
    DropEmpty(Boxes(tiles), box, whole);
  }
}
