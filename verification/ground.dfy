/** The three ground rows of game.js: seeded by `startGame`, then scrolled
    and recycled once per frame by `animate`. */
module Ground {
  import opened Wrappers
  import opened Conveyor
  import Arith

  /** `platformWidth`, the width of one ground tile in pixels. */
  const PlatformWidth: int := 32

  /** `player.speed`, the pixels the ground scrolls per frame. */
  const PlayerSpeed: int := 6

  /** The fixed height of each row's tiles (bottom, middle, top). */
  datatype Layout = Layout(y1: real, y2: real, y3: real)

  datatype Rows = Rows(row1: seq<Tile>, row2: seq<Tile>, row3: seq<Tile>)

  /** Tiles per row: the canvas width divided by the tile width, rounded
      down, plus one; the fewest tiles, one width apart from x == 0, that
      reach past the right edge of the canvas. */
  function SeedLength(canvasWidth: nat): (n: nat)
    ensures n >= 1
    ensures (n - 1) * PlatformWidth <= canvasWidth < n * PlatformWidth
  {
    canvasWidth / PlatformWidth + 1
  }

  /** The three rows have one length, and the loop in `animate`, which runs
      over `ground1.length`, reaches every tile of each. */
  predicate SameLength(g: Rows)
  {
    |g.row1| > 0 && |g.row2| == |g.row1| && |g.row3| == |g.row1|
  }

  /** What seeding produces: every row holds `SeedLength` tiles and tile
      `i` of each sits at `x == i * platformWidth` on its row's line. */
  predicate Seeded(g: Rows, canvasWidth: nat, layout: Layout)
  {
    && |g.row1| == SeedLength(canvasWidth)
    && |g.row2| == SeedLength(canvasWidth)
    && |g.row3| == SeedLength(canvasWidth)
    && (forall i :: 0 <= i < |g.row1| ==> g.row1[i] == Tile(i * PlatformWidth, layout.y1))
    && (forall i :: 0 <= i < |g.row2| ==> g.row2[i] == Tile(i * PlatformWidth, layout.y2))
    && (forall i :: 0 <= i < |g.row3| ==> g.row3[i] == Tile(i * PlatformWidth, layout.y3))
  }

  /** The invariant of the ground: three non-empty rows of one length, the
      same horizontal layout in all three, tiles one width apart, and every
      tile on its row's line. */
  predicate Valid(g: Rows, layout: Layout)
  {
    && SameLength(g)
    && SameXs(g.row1, g.row2) && SameXs(g.row1, g.row3)
    && Spaced(g.row1, PlatformWidth) && Spaced(g.row2, PlatformWidth) && Spaced(g.row3, PlatformWidth)
    && OnLine(g.row1, layout.y1) && OnLine(g.row2, layout.y2) && OnLine(g.row3, layout.y3)
  }

  /** The seeding loop of `startGame`. */
  method Seed(canvasWidth: nat, layout: Layout) returns (g: Rows)
    ensures Seeded(g, canvasWidth, layout)
    ensures Valid(g, layout)
  {
    var length := SeedLength(canvasWidth);
    var r1, r2, r3 := [], [], [];
    var i := 0;
    while i < length
      invariant 0 <= i <= length
      invariant |r1| == i && |r2| == i && |r3| == i
      invariant forall k :: 0 <= k < i ==> r1[k] == Tile(k * PlatformWidth, layout.y1)
      invariant forall k :: 0 <= k < i ==> r2[k] == Tile(k * PlatformWidth, layout.y2)
      invariant forall k :: 0 <= k < i ==> r3[k] == Tile(k * PlatformWidth, layout.y3)
    {
      r1 := r1 + [Tile(i * PlatformWidth, layout.y1)];
      r2 := r2 + [Tile(i * PlatformWidth, layout.y2)];
      r3 := r3 + [Tile(i * PlatformWidth, layout.y3)];
      i := i + 1;
    }
    g := Rows(r1, r2, r3);
  }

  /** The ground part of one `animate` frame: scroll all three rows by
      `speed`, then recycle each row's front tile on its own. */
  function Tick(g: Rows, layout: Layout, speed: int): (r: Rows)
    requires SameLength(g)
    ensures SameLength(r) && |r.row1| == |g.row1|
  {
    Rows(Step(g.row1, layout.y1, speed, PlatformWidth),
           Step(g.row2, layout.y2, speed, PlatformWidth),
           Step(g.row3, layout.y3, speed, PlatformWidth))
  }

  /** `n` consecutive frames. */
  function Run(g: Rows, layout: Layout, speed: int, n: nat): (r: Rows)
    requires SameLength(g)
    ensures SameLength(r) && |r.row1| == |g.row1|
    decreases n
  {
    if n == 0 then g else Run(Tick(g, layout, speed), layout, speed, n - 1)
  }

  /** One frame keeps the ground invariant. */
  lemma TickPreserves(g: Rows, layout: Layout, speed: int)
    requires Valid(g, layout)
    ensures Valid(Tick(g, layout, speed), layout)
  {
    StepPreserves(g.row1, layout.y1, speed, PlatformWidth);
    StepPreserves(g.row2, layout.y2, speed, PlatformWidth);
    StepPreserves(g.row3, layout.y3, speed, PlatformWidth);
    StepLockstep(g.row1, layout.y1, g.row2, layout.y2, speed, PlatformWidth);
    StepLockstep(g.row1, layout.y1, g.row3, layout.y3, speed, PlatformWidth);
  }

  /** Any number of frames keeps the ground invariant: row lengths, tile
      spacing, row heights, and the lockstep of the three rows. */
  lemma {:induction false} RunPreserves(g: Rows, layout: Layout, speed: int, n: nat)
    requires Valid(g, layout)
    ensures Valid(Run(g, layout, speed, n), layout)
    decreases n
  {
    if n > 0 {
      TickPreserves(g, layout, speed);
      RunPreserves(Tick(g, layout, speed), layout, speed, n - 1);
    }
  }

  /** Run split after its first `n` frames. */
  lemma {:induction false} RunSucc(g: Rows, layout: Layout, speed: int, n: nat)
    requires SameLength(g)
    ensures Run(g, layout, speed, n + 1) == Tick(Run(g, layout, speed, n), layout, speed)
    decreases n
  {
    if n > 0 {
      RunSucc(Tick(g, layout, speed), layout, speed, n - 1);
    }
  }

  /** Where the tiles are after `n` frames from the seeded ground, while a
      frame scrolls at most one tile width: tile `i` of every row sits at
      `i * platformWidth - (n * speed mod platformWidth)`. So the front
      tile always lies in `(-platformWidth, 0]` and the rows never fall
      behind. */
  lemma {:induction false} RunFromSeed(g: Rows, canvasWidth: nat, layout: Layout, speed: int, n: nat)
    requires Seeded(g, canvasWidth, layout) && Valid(g, layout)
    requires 0 <= speed <= PlatformWidth
    ensures var r := Run(g, layout, speed, n);
            forall i :: 0 <= i < |r.row1| ==>
              r.row1[i].x == i * PlatformWidth - (n * speed) % PlatformWidth
              && r.row2[i].x == r.row1[i].x && r.row3[i].x == r.row1[i].x
    decreases n
  {
    var r := Run(g, layout, speed, n);
    RunPreserves(g, layout, speed, n);
    assert g.row1[0] == Tile(0 * PlatformWidth, layout.y1);
    FrontPhase(g, layout, speed, n);
    forall i | 0 <= i < |r.row1|
      ensures r.row1[i].x == i * PlatformWidth - (n * speed) % PlatformWidth
    {
      SpacedPositions(r.row1, PlatformWidth, i);
    }
  }

  /** The front tile's phase after `n` frames from a ground whose front
      tile starts at x == 0. */
  lemma {:induction false} FrontPhase(g: Rows, layout: Layout, speed: int, n: nat)
    requires Valid(g, layout) && g.row1[0].x == 0
    requires 0 <= speed <= PlatformWidth
    ensures Run(g, layout, speed, n).row1[0].x == -((n * speed) % PlatformWidth)
    decreases n
  {
    if n > 0 {
      FrontPhase(g, layout, speed, n - 1);
      var r := Run(g, layout, speed, n - 1);
      RunPreserves(g, layout, speed, n - 1);
      RunSucc(g, layout, speed, n - 1);
      StepFrontPhase(r.row1, layout.y1, speed, PlatformWidth, n - 1);
    }
  }

  /** One frame as game.js writes it, recycling with `RecycleAsWritten`;
      `None` when a row's recycle throws. */
  function TickAsWritten(g: Rows, layout: Layout, speed: int): (r: Option<Rows>)
    requires SameLength(g)
    ensures r.None? <==>
              |g.row1| == 1 &&
              (FrontGone(Scroll(g.row1, speed), PlatformWidth) ||
               FrontGone(Scroll(g.row2, speed), PlatformWidth) ||
               FrontGone(Scroll(g.row3, speed), PlatformWidth))
  {
    var s1 := RecycleAsWritten(Scroll(g.row1, speed), layout.y1, PlatformWidth);
    if s1.None? then None
    else
      var s2 := RecycleAsWritten(Scroll(g.row2, speed), layout.y2, PlatformWidth);
      var s3 := RecycleAsWritten(Scroll(g.row3, speed), layout.y3, PlatformWidth);
      if s2.None? || s3.None? then None
      else Some(Rows(s1.value, s2.value, s3.value))
  }

  /** On any ground of two or more tiles per row (a canvas at least
      `platformWidth` wide) the frame as written is the modelled frame. */
  lemma TickAsWrittenAgrees(g: Rows, layout: Layout, speed: int)
    requires SameLength(g) && |g.row1| >= 2
    ensures TickAsWritten(g, layout, speed) == Some(Tick(g, layout, speed))
  {
    RecycleAsWrittenAgrees(Scroll(g.row1, speed), layout.y1, PlatformWidth);
    RecycleAsWrittenAgrees(Scroll(g.row2, speed), layout.y2, PlatformWidth);
    RecycleAsWrittenAgrees(Scroll(g.row3, speed), layout.y3, PlatformWidth);
  }

  /** On a canvas narrower than one tile each row holds a single tile; at
      the game's speed it scrolls off on the sixth frame, and the frame as
      written then throws. */
  lemma NarrowCanvasThrows(g: Rows, canvasWidth: nat, layout: Layout)
    requires Seeded(g, canvasWidth, layout) && Valid(g, layout)
    requires canvasWidth < PlatformWidth
    ensures |g.row1| == 1
    ensures forall k :: 0 <= k < 5 ==>
              TickAsWritten(Run(g, layout, PlayerSpeed, k), layout, PlayerSpeed)
              == Some(Tick(Run(g, layout, PlayerSpeed, k), layout, PlayerSpeed))
    ensures TickAsWritten(Run(g, layout, PlayerSpeed, 5), layout, PlayerSpeed).None?
  {
    assert g.row1[0] == Tile(0 * PlatformWidth, layout.y1);
    forall k | 0 <= k < 5
      ensures TickAsWritten(Run(g, layout, PlayerSpeed, k), layout, PlayerSpeed)
              == Some(Tick(Run(g, layout, PlayerSpeed, k), layout, PlayerSpeed))
    {
      NarrowCanvasEarlyFrame(g, layout, k);
    }
    FrontPhase(g, layout, PlayerSpeed, 5);
    var r := Run(g, layout, PlayerSpeed, 5);
    assert r.row1[0].x == -30;
    assert Scroll(r.row1, PlayerSpeed)[0].x == -36;
  }

  /** The frames before the throw: from a one-tile ground whose tile starts
      at x == 0, frames 0 to 4 at the game's speed recycle nothing, so the
      frame as written is the modelled frame. */
  lemma NarrowCanvasEarlyFrame(g: Rows, layout: Layout, k: nat)
    requires Valid(g, layout) && |g.row1| == 1 && g.row1[0].x == 0
    requires k < 5
    ensures TickAsWritten(Run(g, layout, PlayerSpeed, k), layout, PlayerSpeed)
            == Some(Tick(Run(g, layout, PlayerSpeed, k), layout, PlayerSpeed))
  {
    var r := Run(g, layout, PlayerSpeed, k);
    FrontPhase(g, layout, PlayerSpeed, k);
    RunPreserves(g, layout, PlayerSpeed, k);
    Arith.DivModUnique(k * PlayerSpeed, PlatformWidth, 0, k * PlayerSpeed);
    assert r.row1[0].x == -(k * PlayerSpeed);
    assert r.row2[0].x == r.row1[0].x && r.row3[0].x == r.row1[0].x;
    RecycleAsWrittenKeeps(Scroll(r.row1, PlayerSpeed), layout.y1, PlatformWidth);
    RecycleAsWrittenKeeps(Scroll(r.row2, PlayerSpeed), layout.y2, PlatformWidth);
    RecycleAsWrittenKeeps(Scroll(r.row3, PlayerSpeed), layout.y3, PlatformWidth);
  }
}
