# falling — a Dafny model of the game core

`falling` is a SpriteKit game. A player bar sits near the top of the screen. Rows of platforms rise from below, each row with a hole in it, sometimes with a small pillar as well. The player taps to slide sideways and swipes to turn the bar by a quarter turn, or back. Touching an obstacle ends the game and shows a "Game Over" overlay, and its OK button restarts the game.

This project models the logic of `falling/GameScene.swift` and the frame slicing of `falling/PlayerNode.swift`:

- `common.dfy`
  - `Wrappers`: an `Option` type.
  - `Geometry`: points, sizes, and rectangles given by their lower-left corner.
  - `Physics`: the contact categories `PhysicsCategory.player = 1 << 0` and `obstacle = 1 << 1` as `bv32`, plus a physics body's masks and flags.
- `gestures.dfy` (`Gestures`): how a touch-up is read.
  - It is a tap when the squared distance is below 30² or more than 0.6 s passed, otherwise a swipe.
  - A swipe is vertical exactly when |dy| > |dx|.
  - A tap target x is clamped to `[pw/2, W − pw/2]`.
- `spawner.dfy` (`Spawner`): the geometry of one spawned row.
  - The random draws of `spawnObstacleRow` arrive as a `RowDraws` value. They must lie in the ranges `CGFloat.random(in:)` draws from.
  - The row is a left segment, the hole, a right segment and an optional pillar.
  - Each obstacle's upward travel is the one `moveObstacleUp` gives it.
- `game_flow.dfy` (`GameFlow`): the scene's state as the value `SceneState`, with every transition as a function on it.
  - The transitions are `startGame`, `stopGame`, `showGameOver`, `restartFromGameOver`, `removeAllObstacles`, `setOrientation`, `didBegin`, `touchesBegan`, `touchesEnded`, one spawn tick, and an obstacle finishing its move.
  - `Valid` is the invariant kept by the event handlers (`didBegin`, `touchesBegan`, `touchesEnded`, the spawn tick, the end of a move) and by `showGameOver`, `restartFromGameOver`, `removeAllObstacles` and `setOrientation`. `startGame` and `stopGame` are steps inside `didMove`, `showGameOver` and `restartFromGameOver` (falling/GameScene.swift:47, 145, 208). On their own they break `Valid`: `stopGame` on a running game leaves it neither running nor over. The invariant says:
    - exactly one player;
    - an overlay node exactly while the game is over;
    - spawning exactly while running;
    - both speeds 0 exactly while over;
    - the player's size matches its orientation;
    - every obstacle lies within the scene's width (obstacles start below the bottom edge).
  - `Run` applies a sequence of engine events. `PlayedGameFacts` states what holds after any sequence of events that follows `didMove`.
- `game_scene.dfy` (`GameScene.Scene`): the scene as a class.
  - Its fields are the ones the Swift methods update in place: the children, `runningGame`, `isGameOver`, the overlay, the `"spawning"` action, the scene and physics speeds, `spawnInterval` and `scrollDuration`, the player's position, orientation and size, and the remembered touch-down.
  - The postcondition of each method that has a GameFlow counterpart is `State() == GameFlow.X(old(State()))`. `SetupPlayer`, `StartSpawning` and `StopSpawning` state their new state as an update of the old one instead. The event handlers also keep `Valid`.
  - `removeAllObstacles` is a loop over the children.
- `player_node.dfy` (`PlayerNode`): the sprite sheet and the player node.
  - The nested `for row` / `for col` loop of `buildAppearance` builds the frame rectangles. It is a method with loop invariants, proved equal to a closed form `FrameRect`.
  - `prefix(8)` is modelled, as are both placeholder fallbacks.
  - `stopAnimation` and `setVisualScaleFor` are methods of the class `Player`.

Two details follow the code:

- `distance < minDistance` (falling/GameScene.swift:347) makes a displacement of exactly 30 a swipe, not a tap.
- The doc comment at falling/PlayerNode.swift:3 says the sheet is 4 × 2 with 8 frames, but the code slices `rows = 1`, `cols = 4`. That gives 4 frames (`SourceSheetFrames`).

## Model

| member | source | states |
|---|---|---|
| `Geometry.Min` | falling/GameScene.swift:349 | the result is one of the two arguments and no larger than either |
| `Geometry.Max` | falling/GameScene.swift:349 | the result is one of the two arguments and no smaller than either |
| `Geometry.Abs` | falling/GameScene.swift:371 | the result is non-negative and is the argument or its negation |
| `Gestures.TapIffShortOrSlow` | falling/GameScene.swift:343-347 | for any length d ≥ 0 of (dx, dy), the squared test is a tap iff d < 30 or dt > 0.6; d = 30 with dt ≤ 0.6 is a swipe; dt = 0.6 with d ≥ 30 is a swipe |
| `Gestures.TapTargetX` | falling/GameScene.swift:349 | the target is at least pw/2, and at most W − pw/2 when pw ≤ W; an x already in range is kept; an x past either edge becomes that edge |
| `Gestures.TapTargetIdempotent` | falling/GameScene.swift:349 | clamping a clamped target changes nothing |
| `Gestures.Interpret` | falling/GameScene.swift:337-377 | a tap exactly when the tap test holds on the touch-down/touch-up deltas, with the clamped target; otherwise a swipe that is vertical iff abs(dy) > abs(dx) |
| `Gestures.InterpretByDistance` | falling/GameScene.swift:343-377 | stated against the Euclidean distance: tap iff distance < 30 or dt > 0.6; a tap lands in [pw/2, W − pw/2]; an equal-axes swipe is horizontal |
| `Gestures.IsTap` | falling/GameScene.swift:343-347 | the tap test on the squared distance; its agreement with the hypot test of the Swift code is stated by TapIffShortOrSlow |
| `Gestures.SwipeIsVertical` | falling/GameScene.swift:371-377 | a swipe turns the player vertical iff abs(dy) > abs(dx); ties go horizontal, as stated by Interpret and InterpretByDistance |
| `Spawner.ValidDraws` | falling/GameScene.swift:238-240 | the ranges `random(in:)` draws the hole width and centre from, and (at :283-284) the pillar height and x; what they imply is stated by RowPartition, RowObstacles and PillarObstacles |
| `Spawner.PillarPlaced` | falling/GameScene.swift:281 | the pillar condition `Bool.random() && W > 200` on the drawn coin; its consequences are stated by PillarObstacles |
| `Spawner.LeftWidth` | falling/GameScene.swift:243 | `holeX − holeWidth/2`; its properties are stated by RowPartition |
| `Spawner.RightStart` | falling/GameScene.swift:266 | `holeX + holeWidth/2`, where the right segment starts; its properties are stated by RowPartition |
| `Spawner.RightWidth` | falling/GameScene.swift:262 | `W − (holeX + holeWidth/2)`; its properties are stated by RowPartition |
| `Spawner.TravelDistance` | falling/GameScene.swift:304 | `H + height + 200`; its use is stated by MoveUp and RowObstacles |
| `Spawner.SegmentBox` | falling/GameScene.swift:245-247 | the box of a segment anchored at (0, 0.5) and placed at y = −30, also the right one at :264-266; its use is stated by RowObstacles and MoveUp |
| `Spawner.RowPartition` | falling/GameScene.swift:238-266 | for draws in range the left width, the hole and the right width are non-negative and add up to W; the right segment starts at holeX + h/2; h ≤ W |
| `Spawner.MoveUp` | falling/GameScene.swift:302-308 | the obstacle keeps its box and duration and travels until its bottom is H + 200 above where its top started |
| `Spawner.RowObstacles` | falling/GameScene.swift:242-278 | one obstacle per segment wider than 1; each is inside the scene's width, clear of the hole, 30 high, starts below the screen and travels H + 30 + 200 to end above the top; a left segment exists iff an obstacle starts at x = 0 with width leftWidth, and it is first with box (0, −45, leftWidth, 30); a right segment exists iff an obstacle spans holeX + h/2 to W, and it is last with box (holeX + h/2, −45, rightWidth, 30) |
| `Spawner.PillarObstacles` | falling/GameScene.swift:280-299 | a pillar exactly when the coin is true and W > 200; its box is (pillarX, −pillarHeight, 20, pillarHeight): 20 wide, 40 to 140 high, inside the scene's width, its top at the bottom edge; it travels H + its height + 200 |
| `Spawner.SpawnedObstacles` | falling/GameScene.swift:232-300 | at most three obstacles, each wider than 1, inside the scene's width, travelling H + its height + 200 over the current scroll duration to end above the top |
| `GameFlow.SetupPlayer` | falling/GameScene.swift:51-75 | the property initialisers of :21-38 plus the horizontal 60×24 player at (W/2, H − 120); its properties are stated by DidMoveValid |
| `GameFlow.DidMove` | falling/GameScene.swift:40-48 | setupPlayer followed by startGame; its properties are stated by DidMoveValid and PlayedGameFacts |
| `GameFlow.RemoveOverlay` | falling/GameScene.swift:190-191 | the overlay node leaves the children when set, and the overlay is cleared; its properties are stated by RestartSpec |
| `GameFlow.ContactOther` | falling/GameScene.swift:413-420 | the body that is not the player, bodyA checked first; its properties are stated by DidBeginSpec |
| `GameFlow.PlayerHitsObstacle` | falling/GameScene.swift:413-422 | the contact is player against obstacle; DidBeginSpec states it holds iff the two categories are player and obstacle in either order |
| `GameFlow.Valid` | falling/GameScene.swift:19-38 | the invariant over the scene's fields; its preservation is stated by the Spec lemmas, ApplyPreservesValid and RunPreservesValid |
| `GameFlow.StartGame` | falling/GameScene.swift:101-106 | the startGame transition; its properties are stated by StartStopTieSpawningToRunning |
| `GameFlow.StopGame` | falling/GameScene.swift:108-111 | the stopGame transition; its properties are stated by StartStopTieSpawningToRunning |
| `GameFlow.ShowGameOver` | falling/GameScene.swift:140-184 | the showGameOver transition; its properties are stated by ShowGameOverSpec |
| `GameFlow.RemoveAllObstacles` | falling/GameScene.swift:211-216 | the removeAllObstacles transition; its properties are stated by RemoveAllObstaclesSpec |
| `GameFlow.SetOrientation` | falling/GameScene.swift:385-408 | the setOrientation transition; its properties are stated by SetOrientationSpec |
| `GameFlow.RestartFromGameOver` | falling/GameScene.swift:187-209 | the restartFromGameOver transition; its properties are stated by RestartSpec |
| `GameFlow.DidBegin` | falling/GameScene.swift:411-429 | the didBegin transition; its properties are stated by DidBeginSpec |
| `GameFlow.TouchesBegan` | falling/GameScene.swift:311-316 | the touchesBegan transition: the first touch, if any, becomes the remembered touch-down |
| `GameFlow.TouchesEnded` | falling/GameScene.swift:318-382 | the touchesEnded transition; its properties are stated by TouchUpWhileOver, TouchUpGesture and TouchUpIgnored |
| `GameFlow.SpawnObstacleRow` | falling/GameScene.swift:232-300 | one firing of the spawn action; its properties are stated by SpawnSpec |
| `GameFlow.ObstacleMoveFinished` | falling/GameScene.swift:305-307 | the removeFromParent ending an obstacle's move; its properties are stated by MoveFinishedSpec |
| `GameFlow.Sprites` | falling/GameScene.swift:248-256 | one obstacle sprite per spawned obstacle, in spawn order |
| `GameFlow.OrientationSize` | falling/GameScene.swift:389 | 24×60 when vertical, 60×24 otherwise; its use is stated by SetOrientationSpec and OrientationSizesTransposed |
| `GameFlow.StartPosition` | falling/GameScene.swift:56 | (W/2, H − 120), also used at :203; its use is stated by RestartSpec |
| `GameFlow.RemoveKind` | falling/GameScene.swift:212-215 | the children without those of one kind, in order; its properties are stated by RemoveKindSpec and RemoveKindIdempotent |
| `GameFlow.SceneExtent` | falling/GameScene.swift:389-395 | the player's extent in the scene: the local size, transposed when the node is turned; its properties are stated by TurnKeepsSceneExtent |
| `GameFlow.TurnKeepsSceneExtent` | falling/GameScene.swift:389-395 | in every valid state the player covers 60 × 24 of the scene, turned or not |
| `GameFlow.TurnedTapOverhangs` | falling/GameScene.swift:349 | for a turned player tapped at or past the right edge the clamp stops the centre at W − 12, and the 60-wide extent reaches W + 18 |
| `GameFlow.OrientationSizesTransposed` | falling/GameScene.swift:389 | the horizontal and vertical player sizes are each other's transpose, 60 wide horizontally and 24 wide vertically |
| `GameFlow.CountAppend` | falling/GameScene.swift:212-214 | counting a kind of child distributes over concatenation |
| `GameFlow.RemoveKindSpec` | falling/GameScene.swift:211-216 | after removing every child of a kind none is left, every other kind keeps its count, and the children left are exactly the old ones of other kinds |
| `GameFlow.RemoveKindIdempotent` | falling/GameScene.swift:211-216 | removing a kind twice is removing it once |
| `GameFlow.SpritesSpec` | falling/GameScene.swift:248-256 | the new sprites are all obstacles, one per spawned obstacle, and no player or overlay |
| `GameFlow.DidMoveValid` | falling/GameScene.swift:40-75 | the scene after didMove satisfies the invariant and is running and spawning |
| `GameFlow.StartStopTieSpawningToRunning` | falling/GameScene.swift:101-111 | startGame sets running and spawning, interval 0.9 and duration 3.5 and nothing else; stopGame clears running and spawning and nothing else |
| `GameFlow.StartStopAloneBreakValid` | falling/GameScene.swift:101-111 | startGame and stopGame are only steps: stopGame right after didMove leaves a game neither running nor over, and startGame on a game that is over leaves it running and over, both outside the invariant |
| `GameFlow.ShowGameOverSpec` | falling/GameScene.swift:140-184 | keeps the invariant; is idempotent and a no-op once over; the first call sets over, clears running and spawning, sets both speeds to 0 and appends exactly one overlay, changing nothing else |
| `GameFlow.RemoveAllObstaclesSpec` | falling/GameScene.swift:211-216 | keeps the invariant; leaves no obstacle and every other child; is idempotent; changes only the children |
| `GameFlow.SetOrientationSpec` | falling/GameScene.swift:385-408 | keeps the invariant; ends with the requested orientation and size 24×60 or 60×24; is a no-op when the orientation is unchanged; changes nothing else |
| `GameFlow.RestartSpec` | falling/GameScene.swift:187-209 | keeps the invariant; is a no-op unless over; otherwise ends not over, with no overlay, speeds 1, no obstacles, one player at (W/2, H − 120), horizontal, running and spawning with interval 0.9 and duration 3.5 |
| `GameFlow.DidBeginSpec` | falling/GameScene.swift:411-429 | a contact counts as a hit iff it is player against obstacle in either order; a hit while running shows game over; any other contact changes nothing; keeps the invariant |
| `GameFlow.TouchUpWhileOver` | falling/GameScene.swift:320-335 | with the overlay up, a touch-up restarts only on a button hit and always forgets the touch-down; without a hit nothing else changes; keeps the invariant |
| `GameFlow.TouchUpGesture` | falling/GameScene.swift:337-382 | with no overlay, after a touch-down a tap moves only the player's x to the clamped target and a swipe only sets the orientation; the touch-down is forgotten; keeps the invariant |
| `GameFlow.TouchUpIgnored` | falling/GameScene.swift:337 | a touch-up with no touch, or with no remembered touch-down while playing, changes nothing |
| `GameFlow.SpawnSpec` | falling/GameScene.swift:232-300 | a spawn tick adds exactly one obstacle per segment wider than 1 plus the pillar, changes only the children, and keeps the invariant |
| `GameFlow.CountAround` | falling/GameScene.swift:306 | removing one child lowers the count of its kind by one and no other |
| `GameFlow.MoveFinishedSpec` | falling/GameScene.swift:305-307 | an obstacle removing itself at the end of its move lowers the obstacle count by one, changes only the children, and keeps the invariant |
| `GameFlow.ApplyPreservesValid` | falling/GameScene.swift:219-429 | every event the engine can deliver keeps the invariant |
| `GameFlow.RunPreservesValid` | falling/GameScene.swift:219-429 | every run of deliverable events keeps the invariant |
| `GameFlow.PlayedGameFacts` | falling/GameScene.swift:40-429 | after didMove and any run of events there is one player, at most one overlay (exactly one while over), spawning iff running iff not over, and speeds 0 while over and 1 otherwise |
| `GameScene.Scene.constructor` | falling/GameScene.swift:40-48 | the scene is in the didMove state and satisfies the invariant |
| `GameScene.Scene.SetupPlayer` | falling/GameScene.swift:51-75 | adds the player sprite, horizontal, 60×24, at (W/2, H − 120) |
| `GameScene.Scene.StartGame` | falling/GameScene.swift:101-106 | the new state is GameFlow.StartGame of the old |
| `GameScene.Scene.StopGame` | falling/GameScene.swift:108-111 | the new state is GameFlow.StopGame of the old |
| `GameScene.Scene.StartSpawning` | falling/GameScene.swift:219-226 | installs the spawning action and changes nothing else |
| `GameScene.Scene.StopSpawning` | falling/GameScene.swift:228-230 | removes the spawning action and changes nothing else |
| `GameScene.Scene.ShowGameOver` | falling/GameScene.swift:140-184 | the new state is GameFlow.ShowGameOver of the old; the invariant is kept |
| `GameScene.Scene.RestartFromGameOver` | falling/GameScene.swift:187-209 | the new state is GameFlow.RestartFromGameOver of the old; the invariant is kept |
| `GameScene.Scene.RemoveAllObstacles` | falling/GameScene.swift:211-216 | the loop over the children leaves GameFlow.RemoveAllObstacles of the old state |
| `GameScene.Scene.SetOrientation` | falling/GameScene.swift:385-408 | the new state is GameFlow.SetOrientation of the old |
| `GameScene.Scene.SpawnObstacleRow` | falling/GameScene.swift:232-300 | the new state is GameFlow.SpawnObstacleRow of the old for the given draws; the invariant is kept |
| `GameScene.Scene.RowNodes` | falling/GameScene.swift:242-299 | the obstacles built are exactly Spawner.SpawnedObstacles for the draws |
| `GameScene.Scene.ObstacleMoveFinished` | falling/GameScene.swift:305-307 | the new state is GameFlow.ObstacleMoveFinished of the old; the invariant is kept |
| `GameScene.Scene.DidBegin` | falling/GameScene.swift:411-429 | the new state is GameFlow.DidBegin of the old; the invariant is kept |
| `GameScene.Scene.TouchesBegan` | falling/GameScene.swift:311-316 | the new state is GameFlow.TouchesBegan of the old; the invariant is kept |
| `GameScene.Scene.TouchesEnded` | falling/GameScene.swift:318-382 | the new state is GameFlow.TouchesEnded of the old; the invariant is kept |
| `PlayerNode.FrameRect` | falling/PlayerNode.swift:50-55 | the rectangle of cell (row, col); its properties are stated by FrameRectInUnitSquare, FrameRectsDisjoint and SliceSheet |
| `PlayerNode.FrameBody` | falling/PlayerNode.swift:78-87 | the body buildAppearance assigns: dynamic, no gravity or rotation, precise, every mask 0; its use is stated by BuildAppearance |
| `PlayerNode.CellEndsBefore` | falling/PlayerNode.swift:50-54 | cell i of n equal cells of the unit interval ends no later than cell j starts when i < j |
| `PlayerNode.FrameRectInUnitSquare` | falling/PlayerNode.swift:50-55 | every frame rectangle lies inside the unit square and has positive size |
| `PlayerNode.FrameRectsDisjoint` | falling/PlayerNode.swift:48-55 | frame rectangles of distinct cells do not overlap |
| `PlayerNode.IndexIsRowMajor` | falling/PlayerNode.swift:48-57 | the index a cell gets by appending row after row is row · cols + col |
| `PlayerNode.IndexOffset` | falling/PlayerNode.swift:49-57 | within a row, a cell's index is the row's first index plus its column |
| `PlayerNode.IndexRowAfter` | falling/PlayerNode.swift:48-57 | a later row starts at least one full row after an earlier one |
| `PlayerNode.IndexBefore` | falling/PlayerNode.swift:48-49 | cells earlier in row-major order have smaller indices |
| `PlayerNode.IndexNextRow` | falling/PlayerNode.swift:48-59 | the index just past a row's last cell is the next row's first index |
| `PlayerNode.SlicedStep` | falling/PlayerNode.swift:55-57 | appending the rectangle of cell (row, col) extends the row-major prefix by that cell |
| `PlayerNode.SlicedRow` | falling/PlayerNode.swift:48-59 | a finished row is the prefix up to the start of the next row |
| `PlayerNode.SlicedAll` | falling/PlayerNode.swift:48-59 | once every row is sliced there are rows × cols rectangles, the one for (row, col) at index row · cols + col |
| `PlayerNode.SliceSheet` | falling/PlayerNode.swift:43-59 | the loop builds exactly rows × cols rectangles, the one for (row, col) at index row·cols + col and equal to FrameRect |
| `PlayerNode.FirstFrames` | falling/PlayerNode.swift:62 | the frames are the first min(8, texs.count) rectangles, in order |
| `PlayerNode.SourceSheetFrames` | falling/PlayerNode.swift:43-44 | the 1 × 4 sheet gives 4 frames, the quarters of the sheet from left to right |
| `PlayerNode.VisualScale` | falling/PlayerNode.swift:113-121 | scale (0.7, 1.25) when vertical and (1, 1) otherwise |
| `PlayerNode.Player.constructor` | falling/PlayerNode.swift:10-17 | with a missing sheet the placeholder path is taken: no frames, no texture, no body, tinted, pulsing; otherwise 4 frames, the first shown and animated, and a body with every mask 0 |
| `PlayerNode.Player.BuildAppearance` | falling/PlayerNode.swift:23-89 | a zero sheet, or an empty grid, takes the placeholder path and assigns no body; otherwise the frames are the grid's first eight cells in order, the first one is the texture, the falling animation runs, and the body has category, contact and collision masks 0 |
| `PlayerNode.Player.StartSpriteAnimation` | falling/PlayerNode.swift:91-98 | adds the falling animation unless there are no frames, and changes nothing else |
| `PlayerNode.Player.StartPlaceholderAnimation` | falling/PlayerNode.swift:100-104 | adds the placeholder pulse and changes nothing else |
| `PlayerNode.Player.StopAnimation` | falling/PlayerNode.swift:106-109 | removes both keyed animations, leaving none, and changes nothing else |
| `PlayerNode.Player.SetVisualScaleFor` | falling/PlayerNode.swift:113-121 | the sprite's target scale becomes VisualScale of the orientation, and nothing else changes |

## Left out

- SpriteKit action timing is not modelled: waits, `moveBy`, the rotate/resize group in `setOrientation`, and the 0.15 s velocity move of a tap with its delayed snap. Each is modelled by its end state. A tap sets the player's x to the target, and a turn sets the size at once.
- The snap of a tap is scheduled on the scene, not on the player. `showGameOver` only pauses it, and `restartFromGameOver` removes only the obstacles and their actions (falling/GameScene.swift:199, 212-215). So a tap made just before a hit can, after the restart, keep the player moving at its tap velocity and then snap it to the old target. The model drops the pending snap and the velocity. `GameFlow.RestartSpec` states the player's position at (W/2, H − 120) only as the restart returns.
- The player's rotation angle (`zRotation`, π/2 when vertical, falling/GameScene.swift:390) is not part of the state. Only the orientation flag and the size are. `playerSize` is the node's local size, not its extent in the scene. The node is turned, so a turn leaves the scene footprint at 60 × 24, as `GameFlow.TurnKeepsSceneExtent` states. The tap clamp uses the local width 24 of a turned bar, so the bar can overhang either edge by 18 (`GameFlow.TurnedTapOverhangs`).
- The physics engine's contact detection and the construction of `SKPhysicsBody` shapes are left out. A contact arrives as an event carrying the two category masks.
- `debugPrint` in `didBegin` is left out because it is output only.
- Randomness (`CGFloat.random`, `Bool.random`) arrives as parameters (`RowDraws`), restricted to the drawn ranges. An empty range traps in Swift, so no draw exists for a scene narrower than the hole.
- Node hit-testing (`nodes(at:)`) becomes the boolean `buttonHit`: the touch lies on `gameOverButton` or its label.
- The overlay's layout, fonts and colours are left out, and so is every `zPosition`, colour and z-order.
- `didChangeSize` is left out. The scene's size is fixed for the life of the model.
- The empty `update` loop is left out.
- `resetGame(after:)` is left out because nothing calls it. It is timer-driven and repeats the restart steps.
- `falling/GameViewController.swift` is not part of this model. It is view-controller lifecycle and debug toggles.
- Texture loading and animation playback are left out: `SKTexture(imageNamed:)`, `animate`, `fadeAlpha` and the frame durations. A texture is its sub-rectangle of the sheet. A missing sheet is a zero sheet size. A running animation is its key in a set.
- The child `sprite` that `buildAppearance` adds to the player node is folded into the `Player` fields.
- `PlayerNode.Player.BuildAppearance` takes the grid as parameters, and the constructor passes the 1 × 4 of falling/PlayerNode.swift:43-44. This makes the empty-frames fallback reachable in the model.
- Floating point: `CGFloat` and `TimeInterval` are `real`, with no rounding.
- The touch location conversion (`location(in:)`) is left out. A touch is given in scene coordinates.
- `GameFlow.Allowed` limits when the engine delivers events:
  - a spawn tick only while the spawning action is installed;
  - a move end only while actions run (speed above 0) and only for an existing obstacle.
  The wait between spawn ticks is not modelled.
