/**
 * The GameScene class of falling/GameScene.swift with the fields its methods update in place.
 * Each method's postcondition ties the new state to the matching GameFlow transition of the
 * old state; the event handlers also keep GameFlow.Valid.
 */
module GameScene {
  import opened Wrappers
  import opened Geometry
  import opened Gestures
  import opened Spawner
  import opened GameFlow

  class Scene {
    /** self.size, fixed for the life of the model. */
    const width: real
    const height: real

    var children: seq<Node>
    var runningGame: bool
    var isGameOver: bool
    /** gameOverNode != nil */
    var hasOverlay: bool
    /** an action with key "spawning" is installed on the scene */
    var spawning: bool
    var speed: real
    var physicsSpeed: real
    var spawnInterval: real
    var scrollDuration: real
    var playerPos: Point
    var isVertical: bool
    var playerSize: Size
    /** touchStartPoint together with touchStartTime */
    var touchStart: Option<Touch>

    ghost function State(): SceneState
      reads this
    {
      SceneState(children, runningGame, isGameOver, hasOverlay, spawning, speed, physicsSpeed,
                 spawnInterval, scrollDuration, playerPos, isVertical, playerSize, touchStart)
    }

    ghost predicate Valid()
      reads this
    {
      GameFlow.Valid(State(), width)
    }

    /** The scene as didMove(to:) leaves it: player set up, game started. */
    constructor (width: real, height: real)
      ensures this.width == width && this.height == height
      ensures State() == DidMove(width, height)
      ensures Valid()
    {
      this.width, this.height := width, height;
      children := [];
      runningGame, isGameOver, hasOverlay, spawning := false, false, false, false;
      speed, physicsSpeed := 1.0, 1.0;
      spawnInterval, scrollDuration := InitialSpawnInterval, StartScrollDuration;
      playerPos, isVertical, playerSize := Point(0.0, 0.0), false, HorizontalSize;
      touchStart := None;
      new;
      SetupPlayer();
      StartGame();
      DidMoveValid(width, height);
    }

    method SetupPlayer()
      modifies this
      ensures State() == old(State()).(children := old(children) + [PlayerSprite],
                                       playerPos := StartPosition(width, height),
                                       isVertical := false, playerSize := HorizontalSize)
    {
      playerSize := HorizontalSize;
      playerPos := StartPosition(width, height);
      children := children + [PlayerSprite];
      isVertical := false;
    }

    method StartGame()
      modifies this
      ensures State() == GameFlow.StartGame(old(State()))
    {
      runningGame := true;
      spawnInterval := StartSpawnInterval;
      scrollDuration := StartScrollDuration;
      StartSpawning();
    }

    method StopGame()
      modifies this
      ensures State() == GameFlow.StopGame(old(State()))
    {
      runningGame := false;
      StopSpawning();
    }

    /** run(repeatForever, withKey: "spawning") replaces any action under that key. */
    method StartSpawning()
      modifies this
      ensures State() == old(State()).(spawning := true)
    {
      spawning := true;
    }

    method StopSpawning()
      modifies this
      ensures State() == old(State()).(spawning := false)
    {
      spawning := false;
    }

    method ShowGameOver()
      modifies this
      ensures State() == GameFlow.ShowGameOver(old(State()))
      ensures old(Valid()) ==> Valid()
    {
      ghost var before := State();
      if isGameOver {
        return;
      }
      isGameOver := true;
      StopGame();
      speed := 0.0;
      physicsSpeed := 0.0;
      children := children + [GameOverOverlay];
      hasOverlay := true;
      if GameFlow.Valid(before, width) {
        ShowGameOverSpec(before, width);
      }
    }

    method RestartFromGameOver()
      modifies this
      ensures State() == GameFlow.RestartFromGameOver(old(State()), width, height)
      ensures old(Valid()) ==> Valid()
    {
      ghost var before := State();
      if !isGameOver {
        return;
      }
      if hasOverlay {
        children := RemoveKind(children, OverlayKind);
      }
      hasOverlay := false;
      isGameOver := false;
      speed := 1.0;
      physicsSpeed := 1.0;
      ghost var unfrozen := RemoveOverlay(before).(gameOver := false, speed := 1.0, physicsSpeed := 1.0);
      assert State() == unfrozen;
      RemoveAllObstacles();
      playerPos := StartPosition(width, height);
      assert State() == GameFlow.RemoveAllObstacles(unfrozen).(playerPos := StartPosition(width, height));
      SetOrientation(false);
      StartGame();
      if GameFlow.Valid(before, width) {
        RestartSpec(before, width, height);
      }
    }

    /** enumerateChildNodes(withName: "obstacle"): every obstacle child is removed, the rest kept in order. */
    method RemoveAllObstacles()
      modifies this
      ensures State() == GameFlow.RemoveAllObstacles(old(State()))
    {
      var kept: seq<Node> := [];
      var i := 0;
      while i < |children|
        invariant 0 <= i <= |children|
        invariant kept == RemoveKind(children[..i], ObstacleKind)
      {
        assert children[..i + 1][..i] == children[..i];
        if KindOf(children[i]) != ObstacleKind {
          kept := kept + [children[i]];
        }
        i := i + 1;
      }
      assert children[..i] == children;
      children := kept;
    }

    /** The orientation and, at the end of the resize, the player's size; unchanged orientation returns early. */
    method SetOrientation(vertical: bool)
      modifies this
      ensures State() == GameFlow.SetOrientation(old(State()), vertical)
    {
      if vertical == isVertical {
        return;
      }
      isVertical := vertical;
      playerSize := if vertical then VerticalSize else HorizontalSize;
    }

    /** One firing of the spawn action with the given random draws: left, right, pillar, each if present. */
    method SpawnObstacleRow(d: RowDraws)
      requires ValidDraws(d, width)
      modifies this
      ensures State() == GameFlow.SpawnObstacleRow(old(State()), d, width, height)
      ensures old(Valid()) ==> Valid()
    {
      ghost var before := State();
      var added := RowNodes(d);
      children := children + Sprites(added);
      assert State() == GameFlow.SpawnObstacleRow(before, d, width, height);
      if GameFlow.Valid(before, width) {
        SpawnSpec(before, d, width, height);
      }
    }

    /** The obstacles spawnObstacleRow adds, built in its order with the current scrollDuration. */
    method RowNodes(d: RowDraws) returns (added: seq<Obstacle>)
      requires ValidDraws(d, width)
      ensures added == SpawnedObstacles(d, width, height, scrollDuration)
    {
      var left: seq<Obstacle> := [];
      var leftWidth := d.holeX - d.holeWidth / 2.0;
      if leftWidth > MinSegmentWidth {
        left := [MoveUp(SegmentBox(0.0, leftWidth), height, scrollDuration)];
      }
      var right: seq<Obstacle> := [];
      var rightWidth := width - (d.holeX + d.holeWidth / 2.0);
      if rightWidth > MinSegmentWidth {
        right := [MoveUp(SegmentBox(d.holeX + d.holeWidth / 2.0, rightWidth), height, scrollDuration)];
      }
      var pillar: seq<Obstacle> := [];
      if d.pillarCoin && width > PillarSceneWidthMin {
        pillar := [MoveUp(Rect(d.pillarX, -d.pillarHeight, PillarWidth, d.pillarHeight), height, scrollDuration)];
      }
      added := left + right + pillar;
    }

    /** The removeFromParent that ends an obstacle's move. */
    method ObstacleMoveFinished(i: nat)
      requires i < |children| && children[i].ObstacleSprite?
      modifies this
      ensures State() == GameFlow.ObstacleMoveFinished(old(State()), i)
      ensures old(Valid()) ==> Valid()
    {
      ghost var before := State();
      children := children[..i] + children[i + 1..];
      if GameFlow.Valid(before, width) {
        MoveFinishedSpec(before, i, width);
      }
    }

    /** didBegin(_:) for a contact between bodies of the two given categories. */
    method DidBegin(categoryA: bv32, categoryB: bv32)
      modifies this
      ensures State() == GameFlow.DidBegin(old(State()), categoryA, categoryB)
      ensures old(Valid()) ==> Valid()
    {
      ghost var before := State();
      var other: bv32;
      if categoryA == Physics.PlayerCategory {
        other := categoryB;
      } else if categoryB == Physics.PlayerCategory {
        other := categoryA;
      } else {
        return;
      }
      if other == Physics.ObstacleCategory {
        if runningGame {
          ShowGameOver();
        }
      }
      if GameFlow.Valid(before, width) {
        DidBeginSpec(before, categoryA, categoryB, width);
      }
    }

    method TouchesBegan(touch: Option<Touch>)
      modifies this
      ensures State() == GameFlow.TouchesBegan(old(State()), touch)
      ensures old(Valid()) ==> Valid()
    {
      if touch.Some? {
        touchStart := touch;
      }
    }

    /** touchesEnded(_:with:); `buttonHit` says whether the touch lies on the OK button or its label. */
    method TouchesEnded(touch: Option<Touch>, buttonHit: bool)
      modifies this
      ensures State() == GameFlow.TouchesEnded(old(State()), width, height, touch, buttonHit)
      ensures old(Valid()) ==> Valid()
    {
      ghost var before := State();
      if hasOverlay && touch.Some? {
        if buttonHit {
          RestartFromGameOver();
        }
        touchStart := None;
        if GameFlow.Valid(before, width) {
          TouchUpWhileOver(before, width, height, touch, buttonHit);
        }
        return;
      }
      if touchStart.None? || touch.None? {
        return;
      }
      var start, end := touchStart.value, touch.value;
      var dt := end.timestamp - start.timestamp;
      var dx := end.location.x - start.location.x;
      var dy := end.location.y - start.location.y;
      if IsTap(dx, dy, dt) {
        var targetX := TapTargetX(end.location.x, playerSize.width, width);
        playerPos := Point(targetX, playerPos.y);
      } else {
        SetOrientation(SwipeIsVertical(dx, dy));
      }
      touchStart := None;
      if GameFlow.Valid(before, width) {
        TouchUpGesture(before, width, height, touch, buttonHit);
      }
    }
  }
}
