/**
 * The game-flow state of GameScene as a value, and every transition of falling/GameScene.swift
 * as a function on it: start and stop, game over, restart, obstacle removal, orientation,
 * contacts, touches and the spawn tick. The class GameScene.Scene is tied to these functions
 * method by method. `Valid` is what the event handlers, showGameOver, restartFromGameOver,
 * removeAllObstacles and setOrientation keep: exactly one player sprite, an overlay exactly while
 * the game is over, spawning exactly while running, a frozen world exactly while over, and every
 * obstacle within the scene's width. startGame and stopGame are steps inside those and, on
 * their own, leave a state that is neither running nor over, or both.
 */
module GameFlow {
  import opened Wrappers
  import opened Geometry
  import opened Physics
  import opened Gestures
  import opened Spawner

  /** The scene's direct children, told apart as GameScene.swift tells them apart (by node name). */
  datatype NodeKind = PlayerKind | OverlayKind | ObstacleKind

  datatype Node = PlayerSprite | GameOverOverlay | ObstacleSprite(obstacle: Obstacle)

  function KindOf(n: Node): NodeKind
  {
    match n
    case PlayerSprite => PlayerKind
    case GameOverOverlay => OverlayKind
    case ObstacleSprite(_) => ObstacleKind
  }

  /**
   * The scene's mutable state: its children, the flags runningGame and isGameOver, whether
   * gameOverNode is set, whether the "spawning" action is installed, the scene and physics
   * speeds, the spawn timings, the player's position, orientation and size, and the
   * remembered touch-down (touchStartPoint with touchStartTime).
   */
  datatype SceneState = SceneState(
    children: seq<Node>,
    running: bool,
    gameOver: bool,
    overlay: bool,
    spawning: bool,
    speed: real,
    physicsSpeed: real,
    spawnInterval: real,
    scrollDuration: real,
    playerPos: Point,
    isVertical: bool,
    playerSize: Size,
    touchStart: Option<Touch>)

  /** Value of spawnInterval before the first startGame. */
  const InitialSpawnInterval: real := 1.0
  const StartSpawnInterval: real := 0.9
  const StartScrollDuration: real := 3.5
  /** The player is placed this far below the top edge. */
  const PlayerTopInset: real := 120.0
  const HorizontalSize: Size := Size(60.0, 24.0)
  const VerticalSize: Size := Size(24.0, 60.0)

  function OrientationSize(vertical: bool): Size
  {
    if vertical then VerticalSize else HorizontalSize
  }

  /** The two player sizes are each other's transpose. */
  lemma OrientationSizesTransposed(vertical: bool)
    ensures OrientationSize(!vertical) == Size(OrientationSize(vertical).height, OrientationSize(vertical).width)
    ensures OrientationSize(vertical).width == (if vertical then 24.0 else 60.0)
  {
  }

  /** The player's anchor: horizontally centred, PlayerTopInset below the top. */
  function StartPosition(sceneWidth: real, sceneHeight: real): Point
  {
    Point(sceneWidth / 2.0, sceneHeight - PlayerTopInset)
  }

  // ---------------------------------------------------------------------------
  // Counting and removing children

  function Count(ns: seq<Node>, k: NodeKind): nat
    decreases |ns|
  {
    if ns == [] then 0
    else Count(ns[..|ns| - 1], k) + (if KindOf(ns[|ns| - 1]) == k then 1 else 0)
  }

  /** The children left after every node of kind `k` is removed, in their order. */
  function RemoveKind(ns: seq<Node>, k: NodeKind): seq<Node>
    decreases |ns|
  {
    if ns == [] then []
    else RemoveKind(ns[..|ns| - 1], k) + (if KindOf(ns[|ns| - 1]) == k then [] else [ns[|ns| - 1]])
  }

  lemma {:induction false} CountAppend(a: seq<Node>, b: seq<Node>, k: NodeKind)
    ensures Count(a + b, k) == Count(a, k) + Count(b, k)
    decreases |b|
  {
    if b == [] {
      assert a + b == a;
    } else {
      var b' := b[..|b| - 1];
      assert (a + b)[..|a + b| - 1] == a + b';
      assert (a + b)[|a + b| - 1] == b[|b| - 1];
      CountAppend(a, b', k);
    }
  }

  lemma CountSingle(n: Node, k: NodeKind)
    ensures Count([n], k) == if KindOf(n) == k then 1 else 0
  {
    assert [n][..0] == [];
  }

  /** Removing a kind leaves none of it, every other kind as often as before, and nothing new. */
  lemma {:induction false} RemoveKindSpec(ns: seq<Node>, k: NodeKind)
    ensures Count(RemoveKind(ns, k), k) == 0
    ensures forall k' :: k' != k ==> Count(RemoveKind(ns, k), k') == Count(ns, k')
    ensures forall n :: n in RemoveKind(ns, k) <==> n in ns && KindOf(n) != k
    decreases |ns|
  {
    if ns != [] {
      var init, last := ns[..|ns| - 1], ns[|ns| - 1];
      assert ns == init + [last];
      RemoveKindSpec(init, k);
      var tail := if KindOf(last) == k then [] else [last];
      forall k': NodeKind
        ensures Count(RemoveKind(ns, k), k') == Count(RemoveKind(init, k), k') + Count(tail, k')
      {
        CountAppend(RemoveKind(init, k), tail, k');
      }
      if tail != [] {
        forall k': NodeKind { CountSingle(last, k'); }
      }
    }
  }

  lemma {:induction false} RemoveKindIdempotent(ns: seq<Node>, k: NodeKind)
    ensures RemoveKind(RemoveKind(ns, k), k) == RemoveKind(ns, k)
    decreases |ns|
  {
    if ns != [] {
      var init, last := ns[..|ns| - 1], ns[|ns| - 1];
      assert ns[..|ns| - 1] == init;
      var kept := RemoveKind(init, k);
      RemoveKindIdempotent(init, k);
      if KindOf(last) == k {
        assert RemoveKind(ns, k) == kept;
      } else {
        var r := kept + [last];
        assert RemoveKind(ns, k) == r;
        assert r[..|r| - 1] == kept && r[|r| - 1] == last;
        assert RemoveKind(r, k) == RemoveKind(kept, k) + [last];
      }
    }
  }

  /** The sprites of newly spawned obstacles, in spawn order. */
  function Sprites(os: seq<Obstacle>): (ns: seq<Node>)
    ensures |ns| == |os| && forall i :: 0 <= i < |os| ==> ns[i] == ObstacleSprite(os[i])
  {
    seq(|os|, i requires 0 <= i < |os| => ObstacleSprite(os[i]))
  }

  lemma {:induction false} SpritesSpec(os: seq<Obstacle>)
    ensures Count(Sprites(os), ObstacleKind) == |os|
    ensures Count(Sprites(os), PlayerKind) == 0 && Count(Sprites(os), OverlayKind) == 0
    ensures forall n :: n in Sprites(os) ==> n.ObstacleSprite? && n.obstacle in os
    decreases |os|
  {
    if os != [] {
      var init := os[..|os| - 1];
      SpritesSpec(init);
      assert Sprites(os)[..|os| - 1] == Sprites(init);
    }
  }

  // ---------------------------------------------------------------------------
  // The invariant

  /** An obstacle that is wider than a degenerate sliver and lies horizontally inside the scene. */
  predicate WellPlaced(o: Obstacle, sceneWidth: real)
  {
    MinSegmentWidth < o.box.width && InsideScene(o.box, sceneWidth)
  }

  predicate Valid(s: SceneState, sceneWidth: real)
  {
    && Count(s.children, PlayerKind) == 1
    && Count(s.children, OverlayKind) == (if s.overlay then 1 else 0)
    && (s.overlay <==> s.gameOver)
    && (s.running <==> !s.gameOver)
    && (s.spawning <==> s.running)
    && s.speed == (if s.gameOver then 0.0 else 1.0)
    && s.physicsSpeed == s.speed
    && s.spawnInterval == StartSpawnInterval
    && s.scrollDuration == StartScrollDuration
    && s.playerSize == OrientationSize(s.isVertical)
    && forall n :: n in s.children && n.ObstacleSprite? ==> WellPlaced(n.obstacle, sceneWidth)
  }

  // ---------------------------------------------------------------------------
  // Transitions

  /** The state after setupPlayer: property initialisers plus the horizontal player at its anchor. */
  function SetupPlayer(sceneWidth: real, sceneHeight: real): SceneState
  {
    SceneState(
      children := [PlayerSprite],
      running := false, gameOver := false, overlay := false, spawning := false,
      speed := 1.0, physicsSpeed := 1.0,
      spawnInterval := InitialSpawnInterval, scrollDuration := StartScrollDuration,
      playerPos := StartPosition(sceneWidth, sceneHeight),
      isVertical := false, playerSize := HorizontalSize,
      touchStart := None)
  }

  /** didMove(to:): set up the player, then start the game. */
  function DidMove(sceneWidth: real, sceneHeight: real): SceneState
  {
    StartGame(SetupPlayer(sceneWidth, sceneHeight))
  }

  function StartGame(s: SceneState): SceneState
  {
    s.(running := true, spawnInterval := StartSpawnInterval, scrollDuration := StartScrollDuration,
       spawning := true)
  }

  function StopGame(s: SceneState): SceneState
  {
    s.(running := false, spawning := false)
  }

  function ShowGameOver(s: SceneState): SceneState
  {
    if s.gameOver then s
    else
      StopGame(s.(gameOver := true)).(speed := 0.0, physicsSpeed := 0.0,
                                      children := s.children + [GameOverOverlay], overlay := true)
  }

  function RemoveAllObstacles(s: SceneState): SceneState
  {
    s.(children := RemoveKind(s.children, ObstacleKind))
  }

  function SetOrientation(s: SceneState, vertical: bool): SceneState
  {
    if vertical == s.isVertical then s
    else s.(isVertical := vertical, playerSize := OrientationSize(vertical))
  }

  /** `gameOverNode?.removeFromParent()`: the overlay node leaves the children if it is set. */
  function RemoveOverlay(s: SceneState): SceneState
  {
    s.(children := if s.overlay then RemoveKind(s.children, OverlayKind) else s.children, overlay := false)
  }

  function RestartFromGameOver(s: SceneState, sceneWidth: real, sceneHeight: real): SceneState
  {
    if !s.gameOver then s
    else
      var unfrozen := RemoveOverlay(s).(gameOver := false, speed := 1.0, physicsSpeed := 1.0);
      var cleared := RemoveAllObstacles(unfrozen).(playerPos := StartPosition(sceneWidth, sceneHeight));
      StartGame(SetOrientation(cleared, false))
  }

  /** The body that is not the player, when one of the two is the player (bodyA checked first). */
  function ContactOther(categoryA: bv32, categoryB: bv32): Option<bv32>
  {
    if categoryA == PlayerCategory then Some(categoryB)
    else if categoryB == PlayerCategory then Some(categoryA)
    else None
  }

  predicate PlayerHitsObstacle(categoryA: bv32, categoryB: bv32)
  {
    var other := ContactOther(categoryA, categoryB);
    other.Some? && other.value == ObstacleCategory
  }

  function DidBegin(s: SceneState, categoryA: bv32, categoryB: bv32): SceneState
  {
    if PlayerHitsObstacle(categoryA, categoryB) && s.running then ShowGameOver(s) else s
  }

  function TouchesBegan(s: SceneState, touch: Option<Touch>): SceneState
  {
    if touch.Some? then s.(touchStart := touch) else s
  }

  /**
   * touchesEnded: with the overlay up, a touch restarts on a button hit and is otherwise
   * ignored; without it, a remembered touch-down and this touch make a tap (move the
   * player's x to the clamped target) or a swipe (set the orientation).
   */
  function TouchesEnded(s: SceneState, sceneWidth: real, sceneHeight: real, touch: Option<Touch>, buttonHit: bool): SceneState
  {
    if s.overlay && touch.Some? then
      (if buttonHit then RestartFromGameOver(s, sceneWidth, sceneHeight) else s).(touchStart := None)
    else if s.touchStart.None? || touch.None? then
      s
    else
      var g := Interpret(s.touchStart.value, touch.value, s.playerSize.width, sceneWidth);
      var moved := if g.Tap? then s.(playerPos := Point(g.targetX, s.playerPos.y)) else SetOrientation(s, g.vertical);
      moved.(touchStart := None)
  }

  /** One firing of the "spawning" action: the new obstacles join the children after the existing ones. */
  function SpawnObstacleRow(s: SceneState, d: RowDraws, sceneWidth: real, sceneHeight: real): SceneState
    requires ValidDraws(d, sceneWidth)
  {
    s.(children := s.children + Sprites(SpawnedObstacles(d, sceneWidth, sceneHeight, s.scrollDuration)))
  }

  /** The end of an obstacle's move: it removes itself from the scene. */
  function ObstacleMoveFinished(s: SceneState, i: nat): SceneState
    requires i < |s.children| && s.children[i].ObstacleSprite?
  {
    s.(children := s.children[..i] + s.children[i + 1..])
  }

  // ---------------------------------------------------------------------------
  // Properties of the transitions

  lemma DidMoveValid(sceneWidth: real, sceneHeight: real)
    ensures Valid(DidMove(sceneWidth, sceneHeight), sceneWidth)
    ensures DidMove(sceneWidth, sceneHeight).running && DidMove(sceneWidth, sceneHeight).spawning
  {
    CountSingle(PlayerSprite, PlayerKind);
    CountSingle(PlayerSprite, OverlayKind);
  }

  /** startGame turns running and spawning on together, stopGame turns both off; nothing else moves. */
  lemma StartStopTieSpawningToRunning(s: SceneState)
    ensures StartGame(s).running && StartGame(s).spawning
    ensures StartGame(s).spawnInterval == 0.9 && StartGame(s).scrollDuration == 3.5
    ensures StartGame(s).(running := s.running, spawning := s.spawning,
                          spawnInterval := s.spawnInterval, scrollDuration := s.scrollDuration) == s
    ensures !StopGame(s).running && !StopGame(s).spawning
    ensures StopGame(s).(running := s.running, spawning := s.spawning) == s
  {
  }

  /** startGame and stopGame are steps of larger transitions: on their own they leave the invariant. */
  lemma StartStopAloneBreakValid(sceneWidth: real, sceneHeight: real)
    ensures !Valid(StopGame(DidMove(sceneWidth, sceneHeight)), sceneWidth)
    ensures !Valid(StartGame(ShowGameOver(DidMove(sceneWidth, sceneHeight))), sceneWidth)
  {
  }

  /**
   * The player's extent in the scene. setOrientation also turns the node by π/2 when vertical,
   * and the size it sets is the node's local size, so the scene sees that size transposed.
   */
  function SceneExtent(s: SceneState): Size
  {
    if s.isVertical then Size(s.playerSize.height, s.playerSize.width) else s.playerSize
  }

  /** Turning the player does not change what it covers in the scene: always 60 wide and 24 high. */
  lemma TurnKeepsSceneExtent(s: SceneState, sceneWidth: real)
    requires Valid(s, sceneWidth)
    ensures SceneExtent(s) == HorizontalSize
  {
  }

  /**
   * The tap clamp uses the local width, so a turned player tapped at or past the right edge
   * stops with its centre 12 from the edge while its 60-wide extent reaches 18 past it.
   */
  lemma TurnedTapOverhangs(x: real, sceneWidth: real)
    requires VerticalSize.width <= sceneWidth && sceneWidth - VerticalSize.width / 2.0 <= x
    ensures TapTargetX(x, VerticalSize.width, sceneWidth) == sceneWidth - 12.0
    ensures TapTargetX(x, VerticalSize.width, sceneWidth) + HorizontalSize.width / 2.0 == sceneWidth + 18.0
  {
  }

  lemma ShowGameOverSpec(s: SceneState, sceneWidth: real)
    requires Valid(s, sceneWidth)
    ensures Valid(ShowGameOver(s), sceneWidth)
    ensures ShowGameOver(ShowGameOver(s)) == ShowGameOver(s)
    ensures s.gameOver ==> ShowGameOver(s) == s
    ensures !s.gameOver ==>
              var r := ShowGameOver(s);
              && r.gameOver && !r.running && !r.spawning
              && r.speed == 0.0 && r.physicsSpeed == 0.0
              && r.overlay && r.children == s.children + [GameOverOverlay]
              && Count(r.children, OverlayKind) == 1
              && r.(gameOver := false, running := true, spawning := true, speed := 1.0, physicsSpeed := 1.0,
                    overlay := false, children := s.children) == s
  {
    if !s.gameOver {
      forall k: NodeKind
        ensures Count(s.children + [GameOverOverlay], k) == Count(s.children, k) + Count([GameOverOverlay], k)
      {
        CountAppend(s.children, [GameOverOverlay], k);
      }
      CountSingle(GameOverOverlay, OverlayKind);
      CountSingle(GameOverOverlay, PlayerKind);
    }
  }

  lemma RemoveAllObstaclesSpec(s: SceneState, sceneWidth: real)
    requires Valid(s, sceneWidth)
    ensures Valid(RemoveAllObstacles(s), sceneWidth)
    ensures Count(RemoveAllObstacles(s).children, ObstacleKind) == 0
    ensures forall n :: n in RemoveAllObstacles(s).children <==> n in s.children && !n.ObstacleSprite?
    ensures RemoveAllObstacles(RemoveAllObstacles(s)) == RemoveAllObstacles(s)
    ensures RemoveAllObstacles(s).(children := s.children) == s
  {
    RemoveKindSpec(s.children, ObstacleKind);
    RemoveKindIdempotent(s.children, ObstacleKind);
  }

  lemma SetOrientationSpec(s: SceneState, vertical: bool, sceneWidth: real)
    requires Valid(s, sceneWidth)
    ensures Valid(SetOrientation(s, vertical), sceneWidth)
    ensures SetOrientation(s, vertical).isVertical == vertical
    ensures SetOrientation(s, vertical).playerSize == OrientationSize(vertical)
    ensures vertical == s.isVertical ==> SetOrientation(s, vertical) == s
    ensures SetOrientation(s, vertical).(isVertical := s.isVertical, playerSize := s.playerSize) == s
  {
  }

  lemma RestartSpec(s: SceneState, sceneWidth: real, sceneHeight: real)
    requires Valid(s, sceneWidth)
    ensures Valid(RestartFromGameOver(s, sceneWidth, sceneHeight), sceneWidth)
    ensures !s.gameOver ==> RestartFromGameOver(s, sceneWidth, sceneHeight) == s
    ensures s.gameOver ==>
              var r := RestartFromGameOver(s, sceneWidth, sceneHeight);
              && !r.gameOver && !r.overlay && Count(r.children, OverlayKind) == 0
              && r.speed == 1.0 && r.physicsSpeed == 1.0
              && Count(r.children, ObstacleKind) == 0 && Count(r.children, PlayerKind) == 1
              && r.playerPos == StartPosition(sceneWidth, sceneHeight)
              && !r.isVertical && r.playerSize == HorizontalSize
              && r.running && r.spawning
              && r.spawnInterval == 0.9 && r.scrollDuration == 3.5
              && r.touchStart == s.touchStart
  {
    if s.gameOver {
      var unfrozen := RemoveOverlay(s).(gameOver := false, speed := 1.0, physicsSpeed := 1.0);
      RemoveKindSpec(s.children, OverlayKind);
      RemoveKindSpec(unfrozen.children, ObstacleKind);
    }
  }

  /** A contact ends the game exactly when it is player against obstacle, in either order, while running. */
  lemma DidBeginSpec(s: SceneState, categoryA: bv32, categoryB: bv32, sceneWidth: real)
    requires Valid(s, sceneWidth)
    ensures PlayerHitsObstacle(categoryA, categoryB) <==>
              (categoryA == PlayerCategory && categoryB == ObstacleCategory) ||
              (categoryA == ObstacleCategory && categoryB == PlayerCategory)
    ensures Valid(DidBegin(s, categoryA, categoryB), sceneWidth)
    ensures PlayerHitsObstacle(categoryA, categoryB) && s.running ==>
              DidBegin(s, categoryA, categoryB) == ShowGameOver(s) &&
              DidBegin(s, categoryA, categoryB).gameOver && DidBegin(s, categoryA, categoryB).overlay
    ensures !(PlayerHitsObstacle(categoryA, categoryB) && s.running) ==> DidBegin(s, categoryA, categoryB) == s
    ensures s.gameOver ==> DidBegin(s, categoryA, categoryB) == s
  {
    ShowGameOverSpec(s, sceneWidth);
  }

  /** With the overlay up, a touch-up restarts only on a button hit, and either way forgets the touch-down. */
  lemma TouchUpWhileOver(s: SceneState, sceneWidth: real, sceneHeight: real, touch: Option<Touch>, buttonHit: bool)
    requires Valid(s, sceneWidth) && s.overlay && touch.Some?
    ensures Valid(TouchesEnded(s, sceneWidth, sceneHeight, touch, buttonHit), sceneWidth)
    ensures TouchesEnded(s, sceneWidth, sceneHeight, touch, buttonHit).touchStart == None
    ensures !buttonHit ==> TouchesEnded(s, sceneWidth, sceneHeight, touch, buttonHit) == s.(touchStart := None)
    ensures buttonHit ==>
              var r := TouchesEnded(s, sceneWidth, sceneHeight, touch, buttonHit);
              && r == RestartFromGameOver(s, sceneWidth, sceneHeight).(touchStart := None)
              && !r.gameOver && !r.overlay && r.running && r.spawning
              && Count(r.children, ObstacleKind) == 0
              && r.playerPos == StartPosition(sceneWidth, sceneHeight) && !r.isVertical
  {
    RestartSpec(s, sceneWidth, sceneHeight);
  }

  /** Without the overlay, a touch-up after a touch-down moves the player (tap) or turns it (swipe), and nothing else. */
  lemma TouchUpGesture(s: SceneState, sceneWidth: real, sceneHeight: real, touch: Option<Touch>, buttonHit: bool)
    requires Valid(s, sceneWidth) && !s.overlay && s.touchStart.Some? && touch.Some?
    ensures Valid(TouchesEnded(s, sceneWidth, sceneHeight, touch, buttonHit), sceneWidth)
    ensures var r := TouchesEnded(s, sceneWidth, sceneHeight, touch, buttonHit);
            var g := Interpret(s.touchStart.value, touch.value, s.playerSize.width, sceneWidth);
            && r.touchStart == None
            && r.(touchStart := s.touchStart, playerPos := s.playerPos, isVertical := s.isVertical,
                  playerSize := s.playerSize) == s
            && (g.Tap? ==> r.playerPos == Point(g.targetX, s.playerPos.y) && r.isVertical == s.isVertical)
            && (g.Tap? && s.playerSize.width <= sceneWidth ==>
                  s.playerSize.width / 2.0 <= r.playerPos.x <= sceneWidth - s.playerSize.width / 2.0)
            && (g.Swipe? ==> r.playerPos == s.playerPos && r.isVertical == g.vertical &&
                             r.playerSize == OrientationSize(g.vertical))
  {
  }

  /** A touch-up without a touch, or without a remembered touch-down while playing, changes nothing. */
  lemma TouchUpIgnored(s: SceneState, sceneWidth: real, sceneHeight: real, touch: Option<Touch>, buttonHit: bool)
    requires touch.None? || (!s.overlay && s.touchStart.None?)
    ensures TouchesEnded(s, sceneWidth, sceneHeight, touch, buttonHit) == s
  {
  }

  /** A spawn tick adds exactly the non-degenerate segments and the pillar, as obstacles, and nothing else. */
  lemma SpawnSpec(s: SceneState, d: RowDraws, sceneWidth: real, sceneHeight: real)
    requires Valid(s, sceneWidth) && ValidDraws(d, sceneWidth)
    ensures Valid(SpawnObstacleRow(s, d, sceneWidth, sceneHeight), sceneWidth)
    ensures Count(SpawnObstacleRow(s, d, sceneWidth, sceneHeight).children, ObstacleKind)
         == Count(s.children, ObstacleKind)
          + (if LeftWidth(d) > MinSegmentWidth then 1 else 0)
          + (if RightWidth(d, sceneWidth) > MinSegmentWidth then 1 else 0)
          + (if PillarPlaced(d, sceneWidth) then 1 else 0)
    ensures SpawnObstacleRow(s, d, sceneWidth, sceneHeight).(children := s.children) == s
  {
    var os := SpawnedObstacles(d, sceneWidth, sceneHeight, s.scrollDuration);
    SpritesSpec(os);
    forall k: NodeKind
      ensures Count(s.children + Sprites(os), k) == Count(s.children, k) + Count(Sprites(os), k)
    {
      CountAppend(s.children, Sprites(os), k);
    }
  }

  lemma CountAround(a: seq<Node>, n: Node, b: seq<Node>, k: NodeKind)
    ensures Count(a + [n] + b, k) == Count(a + b, k) + (if KindOf(n) == k then 1 else 0)
  {
    CountAppend(a + [n], b, k);
    CountAppend(a, [n], k);
    CountAppend(a, b, k);
    CountSingle(n, k);
  }

  lemma MoveFinishedSpec(s: SceneState, i: nat, sceneWidth: real)
    requires Valid(s, sceneWidth) && i < |s.children| && s.children[i].ObstacleSprite?
    ensures Valid(ObstacleMoveFinished(s, i), sceneWidth)
    ensures Count(ObstacleMoveFinished(s, i).children, ObstacleKind) + 1 == Count(s.children, ObstacleKind)
    ensures ObstacleMoveFinished(s, i).(children := s.children) == s
  {
    var a, n, b := s.children[..i], s.children[i], s.children[i + 1..];
    assert s.children == a + [n] + b;
    assert ObstacleMoveFinished(s, i).children == a + b;
    CountAround(a, n, b, PlayerKind);
    CountAround(a, n, b, OverlayKind);
    CountAround(a, n, b, ObstacleKind);
    assert forall m :: m in a + b ==> m in s.children;
  }

  // ---------------------------------------------------------------------------
  // Runs of events

  /** What the engine can deliver to the scene. */
  datatype Event =
    | Contact(categoryA: bv32, categoryB: bv32)
    | TouchDown(touch: Option<Touch>)
    | TouchUp(touch: Option<Touch>, buttonHit: bool)
    | SpawnTick(draws: RowDraws)
    | MoveFinished(index: nat)

  /**
   * When the engine can deliver an event: the spawn action fires only while installed and
   * draws from non-empty ranges; a move finishes only for an existing obstacle and only
   * while actions run (speed not 0).
   */
  predicate Allowed(s: SceneState, e: Event, sceneWidth: real)
  {
    match e
    case SpawnTick(d) => s.spawning && ValidDraws(d, sceneWidth)
    case MoveFinished(i) => 0.0 < s.speed && i < |s.children| && s.children[i].ObstacleSprite?
    case _ => true
  }

  function Apply(s: SceneState, e: Event, sceneWidth: real, sceneHeight: real): SceneState
    requires Allowed(s, e, sceneWidth)
  {
    match e
    case Contact(a, b) => DidBegin(s, a, b)
    case TouchDown(t) => TouchesBegan(s, t)
    case TouchUp(t, hit) => TouchesEnded(s, sceneWidth, sceneHeight, t, hit)
    case SpawnTick(d) => SpawnObstacleRow(s, d, sceneWidth, sceneHeight)
    case MoveFinished(i) => ObstacleMoveFinished(s, i)
  }

  lemma ApplyPreservesValid(s: SceneState, e: Event, sceneWidth: real, sceneHeight: real)
    requires Valid(s, sceneWidth) && Allowed(s, e, sceneWidth)
    ensures Valid(Apply(s, e, sceneWidth, sceneHeight), sceneWidth)
  {
    match e
    case Contact(a, b) => DidBeginSpec(s, a, b, sceneWidth);
    case TouchDown(t) =>
    case TouchUp(t, hit) =>
      if s.overlay && t.Some? {
        TouchUpWhileOver(s, sceneWidth, sceneHeight, t, hit);
      } else if s.touchStart.Some? && t.Some? {
        TouchUpGesture(s, sceneWidth, sceneHeight, t, hit);
      }
    case SpawnTick(d) => SpawnSpec(s, d, sceneWidth, sceneHeight);
    case MoveFinished(i) => MoveFinishedSpec(s, i, sceneWidth);
  }

  predicate AllowedRun(s: SceneState, es: seq<Event>, sceneWidth: real, sceneHeight: real)
    decreases |es|
  {
    |es| == 0 || (Allowed(s, es[0], sceneWidth) && AllowedRun(Apply(s, es[0], sceneWidth, sceneHeight), es[1..], sceneWidth, sceneHeight))
  }

  function Run(s: SceneState, es: seq<Event>, sceneWidth: real, sceneHeight: real): SceneState
    requires AllowedRun(s, es, sceneWidth, sceneHeight)
    decreases |es|
  {
    if |es| == 0 then s else Run(Apply(s, es[0], sceneWidth, sceneHeight), es[1..], sceneWidth, sceneHeight)
  }

  lemma {:induction false} RunPreservesValid(s: SceneState, es: seq<Event>, sceneWidth: real, sceneHeight: real)
    requires Valid(s, sceneWidth) && AllowedRun(s, es, sceneWidth, sceneHeight)
    ensures Valid(Run(s, es, sceneWidth, sceneHeight), sceneWidth)
    decreases |es|
  {
    if |es| > 0 {
      ApplyPreservesValid(s, es[0], sceneWidth, sceneHeight);
      RunPreservesValid(Apply(s, es[0], sceneWidth, sceneHeight), es[1..], sceneWidth, sceneHeight);
    }
  }

  /**
   * Whatever happens after didMove: one player, at most one overlay (and one exactly while
   * over), spawning exactly while running, and a frozen world exactly while over.
   */
  lemma PlayedGameFacts(es: seq<Event>, sceneWidth: real, sceneHeight: real)
    requires AllowedRun(DidMove(sceneWidth, sceneHeight), es, sceneWidth, sceneHeight)
    ensures var r := Run(DidMove(sceneWidth, sceneHeight), es, sceneWidth, sceneHeight);
            && Count(r.children, PlayerKind) == 1
            && Count(r.children, OverlayKind) <= 1
            && (r.gameOver <==> Count(r.children, OverlayKind) == 1)
            && (r.spawning <==> r.running) && (r.running <==> !r.gameOver)
            && (r.gameOver ==> r.speed == 0.0 && r.physicsSpeed == 0.0)
            && (!r.gameOver ==> r.speed == 1.0 && r.physicsSpeed == 1.0)
  {
    DidMoveValid(sceneWidth, sceneHeight);
    RunPreservesValid(DidMove(sceneWidth, sceneHeight), es, sceneWidth, sceneHeight);
  }
}
