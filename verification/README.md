# Ground conveyor, sprite animation and asset loader of the endless runner

A Dafny model of the three pieces of integer and sequence logic in
`public_html/game.js`, the canvas endless-runner prototype:

- **Ground conveyor** (`Conveyor`, `Ground`). `startGame` seeds three rows of
  ground tiles. Each row has `floor(canvas.width / platformWidth) + 1` tiles,
  one `platformWidth` (32 px) apart from x = 0. Every `animate` frame moves
  every tile left by `player.speed` (6 px). Each row then drops its front tile
  once it is a whole tile width off screen, and queues a new tile one width
  past its last tile. The model proves that this keeps every row's length,
  keeps the tiles one width apart and on their row's line, and keeps the three
  rows in lockstep for any number of frames. It also gives a closed form for
  where the tiles are after `n` frames.
- **Sprite animation** (`FrameAnimation`). The `Animation` constructor builds
  the inclusive frame range `[startFrame .. endFrame]`. `update` is a
  two-counter machine: `counter` cycles modulo `frameSpeed`, and
  `currentFrame` advances cyclically once per cycle. The model proves the
  closed form of both counters after `n` updates.
- **Asset loader** (`AssetLoader`). `assetLoaded` moves an image from
  `"loading"` to `"loaded"`, counts it once, and fires `finished` when the
  count reaches `totalAssets`. The model proves that repeated calls are
  idempotent and that the count never passes the total. It also proves that
  `finished` fires exactly once over any order of `onload` events that covers
  every image.

`Wrappers` holds `Option`/`Result`, which stand for the JavaScript exceptions
(a property read on `undefined`). `Arith` holds JavaScript's truncating `%`
and the division facts the proofs use.

Inputs that the source gets from the browser are parameters: the canvas width
(`Ground.Seed`) and each row's y coordinate (`Ground.Layout`). x positions are
unbounded integers. JavaScript numbers hold them exactly for any realistic
run, since they stay far below 2^53.

The frame function `Ground.Tick` requires three non-empty rows of equal
length. The loop in `animate` runs over `ground1.length` for all three rows,
and seeding plus every frame keep the lengths equal (`Ground.RunPreserves`).

Other revisions of the game add obstacles, lanes, collision, score and
acceleration. This revision of `game.js` contains none of them, so the model
follows this code and covers only the logic above.

## Model

| member | source | states |
|---|---|---|
| Conveyor.Scroll | public_html/game.js:206-209 | every tile moves left by exactly the speed; y values and the row length are unchanged |
| Conveyor.Recycle | public_html/game.js:214-225 | the length is kept; nothing changes unless the front tile is at or past `-platformWidth`; otherwise only the front tile is removed and one tile is appended at the old last tile's x plus `platformWidth`, on the row's line |
| Conveyor.RecycleAsWritten | public_html/game.js:214-217 | the code as written (shift first, then read the last tile) throws exactly on an empty row, or on a one-tile row whose tile has scrolled off; otherwise the length is kept |
| Conveyor.RecycleAsWrittenAgrees | public_html/game.js:214-225 | on rows of two or more tiles, the code as written and the intended recycle give the same row |
| Conveyor.RecycleAsWrittenKeeps | public_html/game.js:214-217 | while the front tile is still on screen, the code as written and the intended recycle both leave a row of any length unchanged |
| Conveyor.SingleTileRowThrows | public_html/game.js:214-216 | concrete input: the one-tile row `[x = -32]` throws as written, while the intended step gives `[x = 0]` |
| Conveyor.Step | public_html/game.js:206-225 | one row's frame, a scroll and then a recycle, keeps the row's length |
| Conveyor.StepPreserves | public_html/game.js:206-225 | one frame (scroll, then recycle) keeps consecutive tiles exactly `platformWidth` apart and every tile on its row's y |
| Conveyor.StepLockstep | public_html/game.js:206-225 | two rows with the same x layout still have the same x layout after one frame, whatever their y values |
| Conveyor.StepFrontPhase | public_html/game.js:206-217 | if the front tile is at `-(n*speed mod width)` and the speed is at most one width, it is at `-((n+1)*speed mod width)` after one more frame |
| Conveyor.SpacedPositions | public_html/game.js:192-196 | in a spaced row, tile `i` sits `i` widths right of the front tile |
| Ground.SeedLength | public_html/game.js:192 | the tile count is at least 1, and it is the least `n` with `(n-1)*32 <= canvas.width < n*32` |
| Ground.Seed | public_html/game.js:192-196 | seeding gives three rows of `SeedLength` tiles; tile `i` is at `x = i*32` on its row's y; the result satisfies the ground invariant |
| Ground.Tick | public_html/game.js:206-225 | a frame keeps the three rows non-empty and of one, unchanged length |
| Ground.Run | public_html/game.js:203-225 | any number of frames keeps the three rows non-empty and of one, unchanged length |
| Ground.TickPreserves | public_html/game.js:206-225 | one frame keeps the ground invariant: equal lengths, spacing, row heights and identical x layouts in all three rows |
| Ground.RunPreserves | public_html/game.js:192-225 | the ground invariant holds after any number of frames |
| Ground.FrontPhase | public_html/game.js:206-217 | from a front tile at x = 0, with speed in `[0, 32]`, the front tile is at `-(n*speed mod 32)` after `n` frames |
| Ground.RunFromSeed | public_html/game.js:192-225 | after `n` frames from seeding, tile `i` of every row is at `i*32 - (n*speed mod 32)`; all three rows agree |
| Ground.TickAsWritten | public_html/game.js:206-225 | the frame as written throws exactly when rows have one tile and some row's tile has scrolled off |
| Ground.TickAsWrittenAgrees | public_html/game.js:206-225 | with two or more tiles per row, the frame as written equals the modelled frame |
| Ground.NarrowCanvasThrows | public_html/game.js:192-217 | on a canvas narrower than 32 px, each row has one tile; the first five frames as written equal the modelled frames, and the sixth frame as written throws |
| Ground.NarrowCanvasEarlyFrame | public_html/game.js:206-217 | on a one-tile ground starting at x = 0, each of frames 0 to 4 at the game's speed recycles nothing, so the frame as written equals the modelled frame |
| FrameAnimation.FrameRange | public_html/game.js:108-109 | the frame sequence is exactly `startFrame, …, endFrame`, of length `endFrame - startFrame + 1` (empty if the range is) |
| FrameAnimation.NewAnimation | public_html/game.js:103-109 | a new animation starts with `currentFrame = 0` and `counter = 0`, has the given speed and holds the inclusive frame range |
| FrameAnimation.Update | public_html/game.js:113-119 | speed and sequence unchanged; from a valid state the counters stay in `[0, frameSpeed)` and `[0, length)`; the counter steps modulo `frameSpeed`; the frame advances by 1 modulo the length only when `counter == frameSpeed - 1`, and is otherwise unchanged |
| FrameAnimation.Updates | public_html/game.js:113-119 | any number of `update` calls keeps the speed and the frame sequence |
| FrameAnimation.UpdatesClosedForm | public_html/game.js:113-119 | after `n` updates of a fresh animation, `counter = n mod frameSpeed` and `currentFrame = (n div frameSpeed) mod length` |
| FrameAnimation.NegativeSpeedHolds | public_html/game.js:115-118 | with a negative `frameSpeed`, the counter stays in `[0, -frameSpeed)` and the frame never changes |
| FrameAnimation.PlayerAnimationStill | public_html/game.js:191 | the player's `Animation(sheet, 4, 1, 1)` shows frame 0 after any number of updates |
| AssetLoader.Initial | public_html/game.js:17-26 | the loader starts with every entry unloaded, the counter at 0, and the total equal to the number of images |
| AssetLoader.DownloadAll | public_html/game.js:51-62 | every image becomes `"loading"`; the counter and total are untouched |
| AssetLoader.AssetLoaded | public_html/game.js:32-43 | a name that is neither a key of `images` nor inherited from `Object.prototype` throws; an inherited name such as `toString` changes nothing and does not fire; a non-loading image changes nothing and does not fire; a loading image becomes loaded, the counter goes up by exactly 1, and `finished` fires exactly when the new count equals the total and `finished` is a function |
| AssetLoader.CountReachesTotal | public_html/game.js:24-43 | while the counter counts loaded images, it never passes the total, and it equals the total exactly when every image is loaded |
| AssetLoader.AssetLoadedCounts | public_html/game.js:32-43 | one call keeps the counter equal to the number of loaded images and at most the total; it fires exactly when it loads the last image |
| AssetLoader.AssetLoadedIdempotent | public_html/game.js:33-36 | a second call for the same image changes nothing and does not fire |
| AssetLoader.Run | public_html/game.js:32-59 | a sequence of `onload` calls succeeds exactly when every event names a key of `images` or an inherited property |
| AssetLoader.RunFiresOnce | public_html/game.js:32-43 | over any sequence of events, `finished` fires once if the events take the loader from not all loaded to all loaded, and otherwise not at all; loaded images stay loaded, and every loading image named by an event ends up loaded |
| AssetLoader.FinishedExactlyOnce | public_html/game.js:17-62 | the game's loader has `totalAssets = 5`; after `downloadAll`, once every image has had an `onload`, in any order and with repeats, `finished` has fired exactly once and every image is loaded |

## Left out

- `downloadAll`'s `new Image()`, `onload` binding and `src` assignment are browser I/O. Only the status change is modelled (`AssetLoader.DownloadAll`). Each `onload` is an element of the event sequence given to `AssetLoader.Run`.
- The `dic` argument of `assetLoaded`: it is always `"images"`, so the model has a single dictionary.
- The body of `finished` (`console.log` and `startGame()`): it is modelled only as the `fired` flag.
- Every `ctx.drawImage` call, `Animation.draw` and the `requestAnimFrame` polyfill: rendering and frame scheduling.
- The parallax `background` (`draw`, `reset`): it scrolls by the fractional speed 0.2 and depends on the sky image's width.
- `SpriteSheet` and its `framesPerRow`: they depend on the size of an image that loads asynchronously.
- The row heights `canvas.height - platformWidth`, `canvas.height*(2/3) - platformWidth` and `canvas.height*(1/3) - platformWidth`, and `platformHeight`: these are fractional. Each row's y is an opaque constant (`Ground.Layout`).
- The function at game.js lines 1-14: it only declares local variables and does nothing.
- The player's `width` and `height`: they are only used for drawing.
- FrameAnimation.Update: the model does not cover `frameSpeed == 0` or an empty frame sequence. In JavaScript both make a remainder `NaN`, and the game never builds such an animation.
- Ground.RunFromSeed: it is proved only for speeds in `[0, platformWidth]`. With a faster speed, more than one tile would have to leave per frame, but the code recycles at most one. The game's speed is 6.
- Obstacles, lanes, collision, score and acceleration: this file contains no code for them.

## Findings

| source | as written | input that shows it | evidently intended | confidence | as-written member | corrected member |
|---|---|---|---|---|---|---|
| public_html/game.js:214-224 | `shift()` drops the front tile, and then the new tile's x is read from `ground[ground.length-1]` of the already shortened row | `canvas.width = 20`: each row has one tile, which reaches x = -36 on the sixth frame. After the shift the row is empty, so reading `.x` of `undefined` throws a `TypeError` | the new tile goes one `platformWidth` past the old last tile | low (only canvases narrower than 32 px); not executed | Conveyor.RecycleAsWritten | Conveyor.Recycle |
