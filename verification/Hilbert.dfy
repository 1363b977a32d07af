// Tile ids: the position of a tile on the Hilbert curve of its zoom, offset past
// every tile of every lower zoom (src/pmtiles.rs).

module Hilbert {
  import opened Words

  const MAX_ZOOM: nat := 31

  // ---------------------------------------------------------------- the curve

  datatype XY = XY(x: int, y: int)

  // n copies of v, for n below 4: keeps products of two variables out of the proofs.
  function Copies(n: int, v: int): int {
    if n == 3 then 3 * v else if n == 2 then 2 * v else if n == 1 then v else 0
  }

  predicate InSquare(s: int, x: int, y: int) {
    0 <= x < s && 0 <= y < s
  }

  predicate InGrid(k: nat, x: int, y: int) {
    InSquare(Pow2(k), x, y)
  }

  // The curve visits the quadrants of a square of side 2s in the order (0,0),
  // (0,1), (1,1), (1,0); in the first it runs transposed, in the last
  // transposed along the other diagonal.
  datatype Place = Place(q: int, x: int, y: int)

  function Descend(s: int, x: int, y: int): Place {
    if x < s then
      if y < s then Place(0, y, x) else Place(1, x, y - s)
    else
      if y >= s then Place(2, x - s, y - s) else Place(3, s - 1 - y, 2 * s - 1 - x)
  }

  function Ascend(s: int, q: int, x: int, y: int): XY {
    if q == 0 then XY(y, x)
    else if q == 1 then XY(x, y + s)
    else if q == 2 then XY(x + s, y + s)
    else XY(2 * s - 1 - y, s - 1 - x)
  }

  lemma AscendAfterDescend(s: int, x: int, y: int)
    requires InSquare(2 * s, x, y)
    ensures var p := Descend(s, x, y);
      0 <= p.q < 4 && InSquare(s, p.x, p.y) && Ascend(s, p.q, p.x, p.y) == XY(x, y)
  {}

  lemma DescendAfterAscend(s: int, p: Place)
    requires 0 <= p.q < 4 && InSquare(s, p.x, p.y)
    ensures var p' := Ascend(s, p.q, p.x, p.y); InSquare(2 * s, p'.x, p'.y) && Descend(s, p'.x, p'.y) == p
  {}

  // The leading base-4 digit of a distance below 4m.
  function TopDigit(m: int, d: int): int {
    if d >= 3 * m then 3 else if d >= 2 * m then 2 else if d >= m then 1 else 0
  }

  // Distance along the curve of order k, top quadrant first.
  function Distance(k: nat, x: int, y: int): (d: int)
    requires InGrid(k, x, y)
    ensures 0 <= d < Pow4(k)
  {
    if k == 0 then 0
    else
      var p := Descend(Pow2(k - 1), x, y);
      AscendAfterDescend(Pow2(k - 1), x, y);
      Copies(p.q, Pow4(k - 1)) + Distance(k - 1, p.x, p.y)
  }

  // The tile at a distance along the curve of order k.
  function Point(k: nat, d: int): (p: XY)
    requires 0 <= d < Pow4(k)
    ensures InGrid(k, p.x, p.y)
  {
    if k == 0 then XY(0, 0)
    else
      var q := TopDigit(Pow4(k - 1), d);
      var p := Point(k - 1, d - Copies(q, Pow4(k - 1)));
      DescendAfterAscend(Pow2(k - 1), Place(q, p.x, p.y));
      Ascend(Pow2(k - 1), q, p.x, p.y)
  }

  lemma {:induction false} PointOfDistance(k: nat, x: int, y: int)
    requires InGrid(k, x, y)
    ensures Point(k, Distance(k, x, y)) == XY(x, y)
  {
    if k > 0 {
      var p := Descend(Pow2(k - 1), x, y);
      AscendAfterDescend(Pow2(k - 1), x, y);
      PointOfDistance(k - 1, p.x, p.y);
      assert TopDigit(Pow4(k - 1), Distance(k, x, y)) == p.q;
    }
  }

  lemma {:induction false} DistanceOfPoint(k: nat, d: int)
    requires 0 <= d < Pow4(k)
    ensures var p := Point(k, d); Distance(k, p.x, p.y) == d
  {
    if k > 0 {
      var q := TopDigit(Pow4(k - 1), d);
      var p := Point(k - 1, d - Copies(q, Pow4(k - 1)));
      SplitDigits(Pow4(k - 1), d);
      DistanceOfPoint(k - 1, d - Copies(q, Pow4(k - 1)));
      DescendAfterAscend(Pow2(k - 1), Place(q, p.x, p.y));
      hide Copies, TopDigit, Descend, Ascend, Pow2;
    }
  }

  // ------------------------------------------------------------- continuity

  // Two tiles of one zoom share an edge.
  predicate ShareEdge(p: XY, q: XY) {
    || (p.x == q.x && (p.y == q.y + 1 || q.y == p.y + 1))
    || (p.y == q.y && (p.x == q.x + 1 || q.x == p.x + 1))
  }

  // The curve enters at one corner and leaves at the corner beside it.
  lemma {:induction false} CurveEnds(k: nat)
    ensures Pow4(k) >= 1
    ensures Point(k, 0) == XY(0, 0)
    ensures Point(k, Pow4(k) - 1) == XY(Pow2(k) - 1, 0)
  {
    if k > 0 {
      CurveEnds(k - 1);
    }
  }

  lemma TurningKeepsEdges(s: int, q: int, a: XY, b: XY)
    requires ShareEdge(a, b)
    ensures ShareEdge(Ascend(s, q, a.x, a.y), Ascend(s, q, b.x, b.y))
  {}

  // Where one quadrant's curve leaves, the next one's enters beside it.
  lemma QuadrantsJoin(s: int, q: int)
    requires s >= 1 && 0 <= q < 3
    ensures ShareEdge(Ascend(s, q, s - 1, 0), Ascend(s, q + 1, 0, 0))
  {}

  // One level of the curve, with the leading digit given.
  lemma PointInQuadrant(k: nat, q: int, low: int)
    requires k >= 1 && 0 <= q < 4 && 0 <= low < Pow4(k - 1)
    ensures 0 <= Copies(q, Pow4(k - 1)) + low < Pow4(k)
    ensures Point(k, Copies(q, Pow4(k - 1)) + low)
         == Ascend(Pow2(k - 1), q, Point(k - 1, low).x, Point(k - 1, low).y)
  {
    assert TopDigit(Pow4(k - 1), Copies(q, Pow4(k - 1)) + low) == q;
  }

  lemma SplitDigits(m: int, d: int)
    requires m >= 1 && 0 <= d < 4 * m
    ensures var q := TopDigit(m, d); 0 <= q < 4 && 0 <= d - Copies(q, m) < m
    ensures var q := TopDigit(m, d); q < 3 ==> Copies(q + 1, m) == Copies(q, m) + m
    ensures var q := TopDigit(m, d); q == 3 ==> Copies(q, m) == 3 * m
  {}

  lemma {:induction false} CurveIsContinuous(k: nat, d: int)
    requires 0 <= d && d + 1 < Pow4(k)
    ensures ShareEdge(Point(k, d), Point(k, d + 1))
  {
    if k > 0 {
      var m := Pow4(k - 1);
      SplitDigits(m, d);
      var q := TopDigit(m, d);
      var low := d - Copies(q, m);
      if low + 1 < m {
        CurveIsContinuous(k - 1, low);
        SameQuadrant(k, d, q, low);
      } else {
        NextQuadrant(k, d, q);
      }
    }
  }

  lemma SameQuadrant(k: nat, d: int, q: int, low: int)
    requires k >= 1 && 0 <= q < 4 && 0 <= low && low + 1 < Pow4(k - 1)
    requires 0 <= d && d + 1 < Pow4(k) && d == Copies(q, Pow4(k - 1)) + low
    requires ShareEdge(Point(k - 1, low), Point(k - 1, low + 1))
    ensures ShareEdge(Point(k, d), Point(k, d + 1))
  {
    hide *;
    PointInQuadrant(k, q, low);
    PointInQuadrant(k, q, low + 1);
    TurningKeepsEdges(Pow2(k - 1), q, Point(k - 1, low), Point(k - 1, low + 1));
  }

  lemma NextShare(q: int, m: int)
    requires 0 <= q < 3
    ensures Copies(q, m) + m == Copies(q + 1, m)
  {}

  lemma NextQuadrant(k: nat, d: int, q: int)
    requires k >= 1 && 0 <= q < 3
    requires 0 <= d && d + 1 < Pow4(k) && d == Copies(q, Pow4(k - 1)) + Pow4(k - 1) - 1
    ensures ShareEdge(Point(k, d), Point(k, d + 1))
  {
    hide *;
    NextShare(q, Pow4(k - 1));
    CurveEnds(k - 1);
    Pow2Positive(k - 1);
    QuadrantsJoin(Pow2(k - 1), q);
    Pow4Positive(k - 1);
    PointInQuadrant(k, q, Pow4(k - 1) - 1);
    PointInQuadrant(k, q + 1, 0);
  }

  // ------------------------------------------------------------- tile ids

  // Number of tiles at all zooms below z.
  function TilesBelow(z: nat): (n: int)
    ensures n >= 0
  {
    if z == 0 then 0 else TilesBelow(z - 1) + Pow4(z - 1)
  }

  lemma {:induction false} TilesBelowClosedForm(z: nat)
    ensures 3 * TilesBelow(z) == Pow4(z) - 1
    ensures TilesBelow(z) == (Pow2(2 * z) - 1) / 3
  {
    Pow4IsSquare(z);
    if z > 0 { TilesBelowClosedForm(z - 1); }
  }

  lemma {:induction false} TilesBelowMonotone(a: nat, b: nat)
    requires a <= b
    ensures TilesBelow(a) <= TilesBelow(b)
  {
    if a < b { TilesBelowMonotone(a, b - 1); }
  }

  // Everything up to zoom 31 fits a 64-bit id.
  lemma TilesBelowFits(z: nat)
    requires z <= MAX_ZOOM + 1
    ensures TilesBelow(z) < TWO_TO_THE_64
  {
    TilesBelowMonotone(z, MAX_ZOOM + 1);
    TilesBelowClosedForm(MAX_ZOOM + 1);
    Pow4IsSquare(MAX_ZOOM + 1);
    Pow2Values();
  }

  function IdOf(z: nat, x: int, y: int): (id: int)
    requires InGrid(z, x, y)
    ensures TilesBelow(z) <= id < TilesBelow(z + 1)
  {
    TilesBelow(z) + Distance(z, x, y)
  }

  // Every id of a zoom's range is taken, by exactly one tile of that zoom ...
  lemma EveryIdIsTaken(z: nat, id: int)
    requires TilesBelow(z) <= id < TilesBelow(z + 1)
    ensures var p := Point(z, id - TilesBelow(z)); InGrid(z, p.x, p.y) && IdOf(z, p.x, p.y) == id
  {
    DistanceOfPoint(z, id - TilesBelow(z));
  }

  lemma IdsApart(z: nat, x: int, y: int, z': nat, x': int, y': int)
    requires InGrid(z, x, y) && InGrid(z', x', y') && z < z'
    ensures IdOf(z, x, y) < IdOf(z', x', y')
  {
    hide *;
    TilesBelowMonotone(z + 1, z');
  }

  // ... and two different tiles, of one zoom or of two, never share an id.
  lemma IdsAreUnique(z: nat, x: int, y: int, z': nat, x': int, y': int)
    requires InGrid(z, x, y) && InGrid(z', x', y')
    requires IdOf(z, x, y) == IdOf(z', x', y')
    ensures (z, x, y) == (z', x', y')
  {
    if z < z' {
      IdsApart(z, x, y, z', x', y');
    } else if z' < z {
      IdsApart(z', x', y', z, x, y);
    } else {
      hide Distance, Point, Pow2, Pow4, TilesBelow, InGrid;
      PointOfDistance(z, x, y);
      PointOfDistance(z, x', y');
    }
  }

  // Consecutive ids of one zoom are neighbouring tiles.
  lemma ConsecutiveIdsShareAnEdge(z: nat, x: int, y: int, x': int, y': int)
    requires InGrid(z, x, y) && InGrid(z, x', y')
    requires IdOf(z, x', y') == IdOf(z, x, y) + 1
    ensures ShareEdge(XY(x, y), XY(x', y'))
  {
    PointOfDistance(z, x, y);
    PointOfDistance(z, x', y');
    CurveIsContinuous(z, Distance(z, x, y));
  }

  // The first and the last id of a zoom are its two upper corners.
  lemma FirstAndLastId(z: nat)
    ensures InGrid(z, 0, 0) && IdOf(z, 0, 0) == TilesBelow(z)
    ensures InGrid(z, Pow2(z) - 1, 0) && IdOf(z, Pow2(z) - 1, 0) == TilesBelow(z + 1) - 1
  {
    CurveEnds(z);
    DistanceOfPoint(z, 0);
    DistanceOfPoint(z, Pow4(z) - 1);
  }

  // ------------------------------------------------------------- the loops

  lemma SmallMod(v: int, m: int)
    requires 0 <= v < m
    ensures v % m == v
  {}

  // `v & s` for a power of two s: whether that bit is set.
  predicate BitSet(v: int, s: int)
    requires s > 0
  {
    (v / s) % 2 == 1
  }

  lemma BitOfLowPart(v: int, s: int)
    requires v >= 0 && s > 0
    ensures v % (2 * s) == v % s + (if BitSet(v, s) then s else 0)
  {
    var q := v / s;
    var r := v % s;
    assert v == s * q + r;
    var h := q / 2;
    var b := q % 2;
    assert v == h * (2 * s) + (b * s + r) by {
      assert s * q == s * (2 * h + b) == h * (2 * s) + b * s;
    }
    assert b == 0 || b == 1;
    DivModOf(h, 2 * s, b * s + r);
  }

  lemma WrapKeepsLowPart(v: int, j: nat)
    requires j <= 64
    ensures Pow2(j) > 0 && Wrap64(v) % Pow2(j) == v % Pow2(j)
  {
    Pow2Positive(j);
    Pow2Positive(64 - j);
    Pow2Add(j, 64 - j);
    Pow2Values();
    ModOfMod(v, Pow2(j), Pow2(64 - j));
  }

  // Subtracting from s - 1 with wrap-around still mirrors the low bits.
  lemma MirrorLowPart(v: int, s: int)
    requires v >= 0 && s > 0
    ensures (s - 1 - v) % s == s - 1 - v % s
  {
    assert v == s * (v / s) + v % s;
    assert s * (v / s) == (v / s) * s;
    assert (-(v / s)) * s == -((v / s) * s);
    DivModOf(-(v / s), s, s - 1 - v % s);
  }

  // The quadrant rotation of both loops: `wrapping_sub` and swap.
  function Turn(s: int, rx: int, ry: int, x: u64, y: u64): XY {
    if ry == 0 then
      if rx == 1 then XY(Wrap64(s - 1 - y), Wrap64(s - 1 - x)) else XY(y, x)
    else XY(x, y)
  }

  // `(3 * rx) ^ ry`
  function Quadrant(rx: int, ry: int): int {
    if rx == 1 then 3 - ry else ry
  }

  // Column and row of a base-4 digit of the distance.
  function DigitX(q: int): int { if q >= 2 then 1 else 0 }
  function DigitY(q: int): int { if q == 1 || q == 2 then 1 else 0 }

  // Turning low bits a and b, without the wrap-around.
  function TurnLow(s: int, rx: int, ry: int, a: int, b: int): XY {
    if ry == 0 then
      if rx == 1 then XY(s - 1 - b, s - 1 - a) else XY(b, a)
    else XY(a, b)
  }

  lemma TurnedLowPart(j: nat, rx: int, ry: int, x: u64, y: u64)
    requires j <= 63
    ensures Pow2(j) > 0
    ensures var s := Pow2(j);
      var t := Turn(s, rx, ry, x, y);
      XY(t.x % s, t.y % s) == TurnLow(s, rx, ry, x % s, y % s)
  {
    var s := Pow2(j);
    Pow2Positive(j);
    WrapKeepsLowPart(s - 1 - x, j);
    WrapKeepsLowPart(s - 1 - y, j);
    MirrorLowPart(x, s);
    MirrorLowPart(y, s);
    hide Pow2, Wrap64;
  }

  lemma DescendLow(s: int, rx: int, ry: int, a: int, b: int)
    requires 0 <= a < s && 0 <= b < s && 0 <= rx <= 1 && 0 <= ry <= 1
    ensures var t := TurnLow(s, rx, ry, a, b);
      Descend(s, if rx == 1 then a + s else a, if ry == 1 then b + s else b) == Place(Quadrant(rx, ry), t.x, t.y)
  {}

  // One round of `tile_id` descends into the quadrant holding the low bits.
  lemma TurnDescends(j: nat, x: u64, y: u64)
    requires j <= 63
    ensures Pow2(j) > 0
    ensures var s := Pow2(j);
      var rx := if BitSet(x, s) then 1 else 0;
      var ry := if BitSet(y, s) then 1 else 0;
      var t := Turn(s, rx, ry, x, y);
      Descend(s, x % (2 * s), y % (2 * s)) == Place(Quadrant(rx, ry), t.x % s, t.y % s)
  {
    var s := Pow2(j);
    Pow2Positive(j);
    hide *;
    var rx := if BitSet(x, s) then 1 else 0;
    var ry := if BitSet(y, s) then 1 else 0;
    BitOfLowPart(x, s);
    BitOfLowPart(y, s);
    TurnedLowPart(j, rx, ry, x, y);
    DescendLow(s, rx, ry, x % s, y % s);
  }

  // What a digit of the distance counts.
  function Share(s: int, q: int): int { s * s * q }

  lemma LowBits(j: nat, x: int, y: int)
    ensures Pow2(j) > 0 && InGrid(j, x % Pow2(j), y % Pow2(j))
  {
    Pow2Positive(j);
  }

  // The distance of the tile given by the low bits of two coordinates.
  function LowDistance(j: nat, x: int, y: int): int {
    LowBits(j, x, y);
    Distance(j, x % Pow2(j), y % Pow2(j))
  }

  // What a round of `tile_id` adds is the leading digit of the distance that is left.
  lemma TileIdRound(j: nat, x: u64, y: u64)
    requires 1 <= j <= 64
    ensures var s := Pow2(j - 1);
      && s > 0
      && (var rx := if BitSet(x, s) then 1 else 0;
      var ry := if BitSet(y, s) then 1 else 0;
      var t := Turn(s, rx, ry, x, y);
      && Share(s, Quadrant(rx, ry)) >= 0
      && Share(s, Quadrant(rx, ry)) + LowDistance(j - 1, t.x, t.y) == LowDistance(j, x, y))
  {
    var s := Pow2(j - 1);
    LowBits(j, x, y);
    TurnDescends(j - 1, x, y);
    AscendAfterDescend(s, x % Pow2(j), y % Pow2(j));
    var rx := if BitSet(x, s) then 1 else 0;
    var ry := if BitSet(y, s) then 1 else 0;
    CopiesIsProduct(Quadrant(rx, ry), s * s);
    Pow4IsSquare(j - 1);
  }

  // Half a power of two, down to nothing.
  function HalfPow2(j: nat): nat {
    if j == 0 then 0 else Pow2(j - 1)
  }

  lemma HalfAgain(j: nat)
    requires j > 0
    ensures HalfPow2(j) / 2 == HalfPow2(j - 1) && HalfPow2(j) == Pow2(j - 1) > 0 && Pow2(j) / 2 == HalfPow2(j)
  {
    Pow2Positive(j - 1);
  }

  lemma NoBitsLeft(x: int, y: int)
    ensures LowDistance(0, x, y) == 0
  {}

  lemma IdOfLowBits(z: nat, x: int, y: int)
    requires z <= MAX_ZOOM
    ensures Pow2(z) > 0 && InGrid(z, x % Pow2(z), y % Pow2(z))
    ensures IdOf(z, x % Pow2(z), y % Pow2(z)) == (Pow2(2 * z) - 1) / 3 + LowDistance(z, x, y)
    ensures 0 <= (Pow2(2 * z) - 1) / 3 < TWO_TO_THE_64
    ensures 0 <= IdOf(z, x % Pow2(z), y % Pow2(z)) < TWO_TO_THE_64
    ensures Pow2(z) / 2 == HalfPow2(z)
  {
    LowBits(z, x, y);
    TilesBelowClosedForm(z);
    TilesBelowFits(z + 1);
    TilesBelowFits(z);
    if z > 0 { HalfAgain(z); }
  }

  // `tile_id`. Only the low z bits of the coordinates take part, so a column or
  // row outside the grid of the zoom is silently folded back into it.
  method TileId(z: nat, x: u32, y: u32) returns (id: u64)
    requires z <= MAX_ZOOM
    ensures Pow2(z) > 0 && id == IdOf(z, x % Pow2(z), y % Pow2(z))
  {
    hide Pow2, Pow4, Distance, IdOf, LowDistance, Share, HalfPow2, BitSet, Quadrant, TilesBelow;
    IdOfLowBits(z, x, y);
    var base: u64 := (Pow2(2 * z) - 1) / 3;
    var tx: u64, ty: u64 := x, y;
    var d := 0;
    var s := Pow2(z) / 2;
    ghost var j := z;
    while s > 0
      invariant 0 <= j <= z && d >= 0 && s == HalfPow2(j)
      invariant d + LowDistance(j, tx, ty) == LowDistance(z, x, y)
      decreases j
    {
      NoHalfOfNothing(j);
      HalfAgain(j);
      TileIdRound(j, tx, ty);
      var rx := if BitSet(tx, s) then 1 else 0;
      var ry := if BitSet(ty, s) then 1 else 0;
      d := d + Share(s, Quadrant(rx, ry));
      var turned := Turn(s, rx, ry, tx, ty);
      tx, ty := turned.x, turned.y;
      j := j - 1;
      s := s / 2;
    }
    NoHalfOfNothing(j);
    NoBitsLeft(tx, ty);
    id := base + d;
  }

  lemma NoHalfOfNothing(j: nat)
    ensures HalfPow2(j) == 0 <==> j == 0
  {
    if j > 0 { HalfAgain(j); }
  }

  lemma CopiesIsProduct(n: int, v: int)
    requires 0 <= n < 4
    ensures n * v == v * n == Copies(n, v)
  {}

  // The arithmetic of one round of `hilbert_to_xy`: turn, then shift into place.
  function ClimbOut(s: int, q: int, x: u64, y: u64): XY {
    var t := Turn(s, DigitX(q), DigitY(q), x, y);
    XY(t.x + Copies(DigitX(q), s), t.y + Copies(DigitY(q), s))
  }

  lemma ClimbOutIsAscend(s: int, q: int, x: u64, y: u64)
    requires 0 <= q < 4 && InSquare(s, x, y) && s < TWO_TO_THE_64
    ensures ClimbOut(s, q, x, y) == Ascend(s, q, x, y)
  {}

  // One round of `hilbert_to_xy` climbs out of the quadrant of the next digit.
  lemma TurnAscends(j: nat, low: int, q: int, d: int)
    requires 0 <= low < Pow4(j) && 0 <= q < 4 && j <= 62
    requires d == Copies(q, Pow4(j)) + low && 0 <= d < Pow4(j + 1)
    requires Pow2(j) < TWO_TO_THE_64
    ensures Point(j + 1, d) == ClimbOut(Pow2(j), q, Point(j, low).x, Point(j, low).y)
  {
    PointInQuadrant(j + 1, q, low);
    hide Pow2, Pow4, Point, Copies, ClimbOut, Ascend;
    ClimbOutIsAscend(Pow2(j), q, Point(j, low).x, Point(j, low).y);
  }

  lemma DigitsInRange(j: nat, low: int, q: int)
    requires 0 <= low < Pow4(j) && 0 <= q < 4
    ensures 0 <= Copies(q, Pow4(j)) + low < Pow4(j + 1)
  {}

  lemma Pow2Small(j: nat)
    requires j <= 63
    ensures Pow2(j) < TWO_TO_THE_64
  {
    Pow2Monotone(j, 63);
    Pow2Values();
  }

  // One round of `hilbert_to_xy`: read the bits of the lowest digit, turn, shift
  // into place.
  function Round(s: int, d: int, x: u64, y: u64): XY {
    var rx := (d / 2) % 2;
    var ry := (d + rx) % 2;
    var turned := Turn(s, rx, ry, x, y);
    XY(turned.x + s * rx, turned.y + s * ry)
  }

  // The state of `hilbert_to_xy` after j rounds: the digits read are drawn, `d` is
  // what is left.
  ghost predicate Unwound(d0: int, j: nat, low: int, d: int, x: u64, y: u64) {
    d >= 0 && 0 <= low < Pow4(j) && d0 == Positional(d, Pow4(j), low) && XY(x, y) == Point(j, low)
  }

  ghost function Drawn(j: nat, low: int, d: int): int { Copies(d % 4, Pow4(j)) + low }

  lemma NothingDrawn(d0: u64)
    ensures Unwound(d0, 0, 0, d0, 0, 0) && Pow2(0) == 1
  {}

  lemma DrawDigit(d0: int, j: nat, low: int, d: int, x: u64, y: u64)
    requires j <= MAX_ZOOM && Unwound(d0, j, low, d, x, y)
    ensures var next := Round(Pow2(j), d, x, y);
      && 0 <= next.x < TWO_TO_THE_64 && 0 <= next.y < TWO_TO_THE_64
      && Unwound(d0, j + 1, Drawn(j, low, d), d / 4, next.x, next.y)
    ensures Pow2(j + 1) == 2 * Pow2(j)
  {
    HilbertRound(j, low, d);
    Pow2Next(j);
    hide Pow2, Pow4, Point, Copies, Round, Positional;
  }

  lemma AllDrawn(z: nat, d0: int, low: int, d: int, x: u64, y: u64)
    requires 0 <= d0 < Pow4(z) && Unwound(d0, z, low, d, x, y)
    ensures XY(x, y) == Point(z, d0)
  {
    hide Pow4, Point, Positional;
    NoDigitsLeft(d, Pow4(z), low);
  }

  // `hilbert_to_xy`: consumes the distance from its lowest base-4 digit.
  method HilbertToXy(z: nat, d0: u64) returns (x: u64, y: u64)
    requires z <= MAX_ZOOM && d0 < Pow4(z)
    ensures XY(x, y) == Point(z, d0)
  {
    hide Pow2, Pow4, Point, Round, Unwound, Drawn;
    var n := Pow2(z);
    x, y := 0, 0;
    var d: int := d0;
    var s := 1;
    ghost var j := 0;
    ghost var low := 0;
    NothingDrawn(d0);
    while s < n
      invariant 0 <= j <= z && s == Pow2(j)
      invariant Unwound(d0, j, low, d, x, y)
      decreases z - j
    {
      Pow2Order(z, j);
      DrawDigit(d0, j, low, d, x, y);
      var next := Round(s, d, x, y);
      low := Drawn(j, low, d);
      j := j + 1;
      x, y := next.x, next.y;
      d := d / 4;
      s := s * 2;
    }
    Pow2Order(z, j);
    AllDrawn(z, d0, low, d, x, y);
  }

  // What is still to be read, and what has been.
  function Positional(d: int, m: int, low: int): int { d * m + low }

  lemma Pow2Next(j: nat)
    ensures Pow2(j + 1) == 2 * Pow2(j)
  {}

  lemma RoundClimbsOut(s: int, d: int, x: u64, y: u64)
    requires d >= 0
    ensures Round(s, d, x, y) == ClimbOut(s, d % 4, x, y)
  {
    DigitsOf(d);
    CopiesIsProduct(DigitX(d % 4), s);
    CopiesIsProduct(DigitY(d % 4), s);
  }

  lemma HilbertRound(j: nat, low: int, d: int)
    requires j <= MAX_ZOOM && d >= 0 && 0 <= low < Pow4(j)
    ensures Positional(d, Pow4(j), low) == Positional(d / 4, Pow4(j + 1), Copies(d % 4, Pow4(j)) + low)
    ensures 0 <= Copies(d % 4, Pow4(j)) + low < Pow4(j + 1)
    ensures
      var p := Point(j, low);
      var next := Point(j + 1, Copies(d % 4, Pow4(j)) + low);
      && p.x < TWO_TO_THE_64 && p.y < TWO_TO_THE_64
      && next == Round(Pow2(j), d, p.x, p.y)
      && next.x < TWO_TO_THE_64 && next.y < TWO_TO_THE_64
  {
    hide Pow2, Point, Copies, ClimbOut, Round, Positional;
    NextDigit(d, Pow4(j), low);
    Pow2Small(j);
    DigitsInRange(j, low, d % 4);
    TurnAscends(j, low, d % 4, Copies(d % 4, Pow4(j)) + low);
    GridFits(j, 64, low);
    GridFits(j + 1, 64, Copies(d % 4, Pow4(j)) + low);
    RoundClimbsOut(Pow2(j), d, Point(j, low).x, Point(j, low).y);
  }

  // `1 & (d / 2)` and `1 & (d ^ rx)` read the column and row of the lowest digit.
  lemma DigitsOf(d: int)
    requires d >= 0
    ensures var rx := (d / 2) % 2; rx == DigitX(d % 4) && (d + rx) % 2 == DigitY(d % 4)
  {
    var k := d / 4;
    assert d == 4 * k + d % 4;
    assert d / 2 == 2 * k + (if d % 4 >= 2 then 1 else 0);
  }

  lemma NextDigit(d: int, m: int, low: int)
    ensures Positional(d, m, low) == Positional(d / 4, 4 * m, Copies(d % 4, m) + low)
  {
    assert d == 4 * (d / 4) + d % 4;
    CopiesIsProduct(d % 4, m);
    assert d * m == (d / 4) * (4 * m) + (d % 4) * m;
  }

  lemma NoDigitsLeft(d: int, m: int, low: int)
    requires m > 0 && d >= 0 && 0 <= low && Positional(d, m, low) < m
    ensures d == 0 && Positional(d, m, low) == low
  {
    assert d * m == m * d;
    if d >= 1 { MulAtLeast(m, d); }
  }

  lemma Pow2Order(z: nat, j: nat)
    requires j <= z
    ensures Pow2(j) < Pow2(z) <==> j < z
  {
    if j < z {
      Pow2Monotone(j + 1, z);
      Pow2Positive(j);
    }
  }

  lemma GridFits(j: nat, z: nat, low: int)
    requires j <= z <= 64 && 0 <= low < Pow4(j)
    ensures Point(j, low).x < TWO_TO_THE_64 && Point(j, low).y < TWO_TO_THE_64
  {
    Pow2Monotone(j, 64);
    Pow2Values();
  }

  datatype Located = Tile(z: nat, x: int, y: int) | BeyondZoom31

  // `tile_id_to_zxy`
  method TileIdToZxy(id: u64) returns (r: Located)
    ensures r.BeyondZoom31? <==> id >= TilesBelow(MAX_ZOOM + 1)
    ensures r.Tile? ==> r.z <= MAX_ZOOM && InGrid(r.z, r.x, r.y) && IdOf(r.z, r.x, r.y) == id
  {
    hide Pow2, Pow4, Point, Distance;
    var acc := 0;
    for z := 0 to MAX_ZOOM + 1
      invariant acc == TilesBelow(z) && acc <= id
    {
      var tilesAtZoom := Pow4(z);
      TilesBelowMonotone(z + 1, MAX_ZOOM + 1);
      if id < acc + tilesAtZoom {
        var x, y := HilbertToXy(z, id - acc);
        DistanceOfPoint(z, id - acc);
        return Tile(z, x, y);
      }
      acc := acc + tilesAtZoom;
    }
    return BeyondZoom31;
  }

  // The two loops undo each other on every tile up to zoom 31.
  method TileThereAndBack(z: nat, x: u32, y: u32) returns (r: Located)
    requires z <= MAX_ZOOM && InGrid(z, x, y)
    ensures r == Tile(z, x, y)
  {
    var id := TileId(z, x, y);
    SmallMod(x, Pow2(z));
    SmallMod(y, Pow2(z));
    TilesBelowMonotone(z + 1, MAX_ZOOM + 1);
    r := TileIdToZxy(id);
    IdsAreUnique(z, x, y, r.z, r.x, r.y);
  }
}
