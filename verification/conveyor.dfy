/** One row of ground tiles scrolling right to left (game.js, `animate`).
    A row is a queue of tiles: every frame each tile moves left by the
    player's speed, and once the front tile has scrolled a whole tile width
    off the left edge it is dropped and a fresh tile is queued one tile
    width past the last one. */
module Conveyor {
  import opened Wrappers
  import Arith

  /** A ground tile. `y` is fixed per row (a fraction of the canvas height
      in the game) and is never computed with, so it is kept opaque. */
  datatype Tile = Tile(x: int, y: real)

  /** Consecutive tiles are exactly `width` apart. */
  predicate Spaced(row: seq<Tile>, width: int)
  {
    forall i :: 0 <= i < |row| - 1 ==> row[i + 1].x == row[i].x + width
  }

  /** Every tile of the row sits at height `y`. */
  predicate OnLine(row: seq<Tile>, y: real)
  {
    forall i :: 0 <= i < |row| ==> row[i].y == y
  }

  /** Two rows have the same horizontal layout. */
  predicate SameXs(a: seq<Tile>, b: seq<Tile>)
  {
    |a| == |b| && forall i :: 0 <= i < |a| ==> a[i].x == b[i].x
  }

  /** Moves every tile of the row `speed` pixels to the left. */
  function Scroll(row: seq<Tile>, speed: int): (r: seq<Tile>)
    ensures |r| == |row|
    ensures forall i :: 0 <= i < |row| ==> r[i].x == row[i].x - speed && r[i].y == row[i].y
  {
    if row == [] then []
    else [Tile(row[0].x - speed, row[0].y)] + Scroll(row[1..], speed)
  }

  /** True when the front tile has left the screen by a whole tile width. */
  predicate FrontGone(row: seq<Tile>, width: int)
    requires |row| > 0
  {
    row[0].x <= -width
  }

  /** The recycle step with the intended meaning: when the front tile is
      gone, drop it and queue a tile at height `y` one `width` past the
      last tile of the row. A row is never empty (seeding makes at least
      one tile and recycling keeps the length), and on an empty row the
      game's own test `ground[0].x` would throw. */
  function Recycle(row: seq<Tile>, y: real, width: int): (r: seq<Tile>)
    requires |row| > 0
    ensures |r| == |row|
    ensures !FrontGone(row, width) ==> r == row
    ensures FrontGone(row, width) ==>
              r[..|r| - 1] == row[1..] && r[|r| - 1] == Tile(row[|row| - 1].x + width, y)
  {
    if FrontGone(row, width) then row[1..] + [Tile(row[|row| - 1].x + width, y)]
    else row
  }

  /** The recycle step as game.js writes it: `shift()` first, then read the
      last element of the shortened row. A row of one tile is empty after
      the shift, so that read is on `undefined` and throws (`None`); an
      empty row throws already at the front-tile test. */
  function RecycleAsWritten(row: seq<Tile>, y: real, width: int): (r: Option<seq<Tile>>)
    ensures r.None? <==> |row| == 0 || (|row| == 1 && FrontGone(row, width))
    ensures r.Some? ==> |r.value| == |row|
  {
    if |row| == 0 then None
    else if FrontGone(row, width) then
      var shifted := row[1..];
      if |shifted| == 0 then None
      else Some(shifted + [Tile(shifted[|shifted| - 1].x + width, y)])
    else Some(row)
  }

  /** On every row of two or more tiles the code as written and the
      intended recycle step agree. */
  lemma RecycleAsWrittenAgrees(row: seq<Tile>, y: real, width: int)
    requires |row| >= 2
    ensures RecycleAsWritten(row, y, width) == Some(Recycle(row, y, width))
  {
  }

  /** While the front tile is still on screen the code as written keeps the
      row as it is, whatever its length, just as the intended step does. */
  lemma RecycleAsWrittenKeeps(row: seq<Tile>, y: real, width: int)
    requires |row| > 0 && !FrontGone(row, width)
    ensures RecycleAsWritten(row, y, width) == Some(row)
    ensures Recycle(row, y, width) == row
  {
  }

  /** A one-tile row whose tile has scrolled off: the code as written
      throws, while the intended step wraps the tile round to x == 0. */
  lemma SingleTileRowThrows()
    ensures RecycleAsWritten([Tile(-32, 0.0)], 0.0, 32).None?
    ensures Recycle([Tile(-32, 0.0)], 0.0, 32) == [Tile(0, 0.0)]
  {
    var row := [Tile(-32, 0.0)];
    assert FrontGone(row, 32);
    assert row[1..] == [];
    assert row[1..] + [Tile(row[0].x + 32, 0.0)] == [Tile(0, 0.0)];
  }

  /** One frame of one row: scroll, then recycle at most one tile. */
  function Step(row: seq<Tile>, y: real, speed: int, width: int): (r: seq<Tile>)
    requires |row| > 0
    ensures |r| == |row|
  {
    Recycle(Scroll(row, speed), y, width)
  }

  /** A frame keeps the tiles `width` apart and on their row's line, and
      at most the front tile is replaced. */
  lemma StepPreserves(row: seq<Tile>, y: real, speed: int, width: int)
    requires |row| > 0 && Spaced(row, width) && OnLine(row, y)
    ensures Spaced(Step(row, y, speed, width), width)
    ensures OnLine(Step(row, y, speed, width), y)
  {
    var s := Scroll(row, speed);
    assert Spaced(s, width);
    var r := Recycle(s, y, width);
    if FrontGone(s, width) {
      forall i | 0 <= i < |r| - 1
        ensures r[i + 1].x == r[i].x + width
      {
        if i < |r| - 2 {
          assert r[i] == s[i + 1] && r[i + 1] == s[i + 2];
        } else {
          assert r[i] == s[|s| - 1];
        }
      }
      forall i | 0 <= i < |r|
        ensures r[i].y == y
      {
        if i < |r| - 1 {
          assert r[i] == s[i + 1];
        }
      }
    }
  }

  /** A frame changes every tile's x by the same amount as the row's
      recycle decision, which depends on x alone: rows with the same
      layout keep the same layout. */
  lemma StepLockstep(a: seq<Tile>, ya: real, b: seq<Tile>, yb: real, speed: int, width: int)
    requires |a| > 0 && SameXs(a, b)
    ensures SameXs(Step(a, ya, speed, width), Step(b, yb, speed, width))
  {
    var sa, sb := Scroll(a, speed), Scroll(b, speed);
    assert SameXs(sa, sb);
    var ra, rb := Recycle(sa, ya, width), Recycle(sb, yb, width);
    if FrontGone(sa, width) {
      forall i | 0 <= i < |ra|
        ensures ra[i].x == rb[i].x
      {
        if i < |ra| - 1 {
          assert ra[i] == sa[i + 1] && rb[i] == sb[i + 1];
        }
      }
    }
  }

  /** The front tile's x is the negated scroll distance modulo the tile
      width: if that holds after `n` frames it holds after `n + 1`, as long
      as a frame scrolls no more than one tile width. */
  lemma StepFrontPhase(row: seq<Tile>, y: real, speed: int, width: int, n: nat)
    requires |row| > 0 && Spaced(row, width)
    requires width > 0 && 0 <= speed <= width
    requires row[0].x == -((n * speed) % width)
    ensures Step(row, y, speed, width)[0].x == -(((n + 1) * speed) % width)
  {
    var a := (n * speed) % width;
    var q := (n * speed) / width;
    assert n * speed == q * width + a;
    assert (n + 1) * speed == q * width + a + speed;
    var s := Scroll(row, speed);
    assert s[0].x == -a - speed;
    if a + speed >= width {
      Arith.DivModUnique((n + 1) * speed, width, q + 1, a + speed - width);
      assert Spaced(s, width);
      assert Step(row, y, speed, width)[0].x == s[0].x + width;
    } else {
      Arith.DivModUnique((n + 1) * speed, width, q, a + speed);
    }
  }

  /** A spaced row is an arithmetic progression: tile `i` sits `i` widths
      right of the front tile. */
  lemma {:induction false} SpacedPositions(row: seq<Tile>, width: int, i: nat)
    requires Spaced(row, width) && i < |row|
    ensures row[i].x == row[0].x + i * width
  {
    if i > 0 {
      SpacedPositions(row, width, i - 1);
      assert row[i].x == row[i - 1].x + width;
    }
  }
}
