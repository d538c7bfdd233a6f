/**
 * How GameScene.touchesEnded reads a finished touch: a tap (move the player to the
 * touched x, kept inside the scene) or a swipe (turn the player vertical or horizontal).
 */
module Gestures {
  import opened Geometry

  /** A touch as the scene sees it: location in scene coordinates and timestamp in seconds. */
  datatype Touch = Touch(location: Point, timestamp: real)

  datatype Gesture = Tap(targetX: real) | Swipe(vertical: bool)

  const MinSwipeDistance: real := 30.0
  const MaxSwipeTime: real := 0.6

  /**
   * The tap test `hypot(dx, dy) < 30 || dt > 0.6`, with the distance compared
   * squared so that no square root is needed.
   */
  predicate IsTap(dx: real, dy: real, dt: real)
  {
    dx * dx + dy * dy < MinSwipeDistance * MinSwipeDistance || dt > MaxSwipeTime
  }

  /**
   * For any Euclidean length `distance` of (dx, dy), the squared test agrees with the
   * test of GameScene.swift on the length itself; both boundaries are swipes.
   */
  lemma TapIffShortOrSlow(dx: real, dy: real, dt: real, distance: real)
    requires 0.0 <= distance && distance * distance == dx * dx + dy * dy
    ensures IsTap(dx, dy, dt) <==> distance < MinSwipeDistance || dt > MaxSwipeTime
    ensures distance == MinSwipeDistance && dt <= MaxSwipeTime ==> !IsTap(dx, dy, dt)
    ensures dt == MaxSwipeTime && MinSwipeDistance <= distance ==> !IsTap(dx, dy, dt)
  {
    if distance < MinSwipeDistance {
      assert distance * distance <= distance * MinSwipeDistance;
      assert distance * MinSwipeDistance < MinSwipeDistance * MinSwipeDistance;
    } else {
      assert MinSwipeDistance * MinSwipeDistance <= distance * MinSwipeDistance;
      assert distance * MinSwipeDistance <= distance * distance;
    }
  }

  /** A swipe turns the player vertical exactly when its vertical travel dominates; ties stay horizontal. */
  predicate SwipeIsVertical(dx: real, dy: real)
  {
    Abs(dy) > Abs(dx)
  }

  /** The tap target `max(0 + pw/2, min(W - pw/2, x))`: the touched x kept inside the scene. */
  function TapTargetX(x: real, playerWidth: real, sceneWidth: real): (r: real)
    ensures playerWidth / 2.0 <= r
    ensures playerWidth <= sceneWidth ==> r <= sceneWidth - playerWidth / 2.0
    ensures playerWidth / 2.0 <= x <= sceneWidth - playerWidth / 2.0 ==> r == x
    ensures x <= playerWidth / 2.0 ==> r == playerWidth / 2.0
    ensures playerWidth <= sceneWidth && sceneWidth - playerWidth / 2.0 <= x ==> r == sceneWidth - playerWidth / 2.0
  {
    Max(0.0 + playerWidth / 2.0, Min(sceneWidth - playerWidth / 2.0, x))
  }

  /** Clamping an already clamped target changes nothing. */
  lemma TapTargetIdempotent(x: real, playerWidth: real, sceneWidth: real)
    ensures TapTargetX(TapTargetX(x, playerWidth, sceneWidth), playerWidth, sceneWidth)
         == TapTargetX(x, playerWidth, sceneWidth)
  {
  }

  /** The classification of touchesEnded, from the remembered touch-down to the touch-up. */
  function Interpret(start: Touch, end: Touch, playerWidth: real, sceneWidth: real): (g: Gesture)
    ensures g.Tap? <==> IsTap(end.location.x - start.location.x, end.location.y - start.location.y,
                              end.timestamp - start.timestamp)
    ensures g.Tap? ==> g.targetX == TapTargetX(end.location.x, playerWidth, sceneWidth)
    ensures g.Swipe? ==> (g.vertical <==> Abs(end.location.y - start.location.y) > Abs(end.location.x - start.location.x))
  {
    var dt := end.timestamp - start.timestamp;
    var dx := end.location.x - start.location.x;
    var dy := end.location.y - start.location.y;
    if IsTap(dx, dy, dt) then
      Tap(TapTargetX(end.location.x, playerWidth, sceneWidth))
    else
      Swipe(SwipeIsVertical(dx, dy))
  }

  /**
   * Stated against the Euclidean distance of the two touch points: a tap exactly when the
   * distance is under 30 or more than 0.6 s passed; a tap lands inside the scene; a swipe
   * with equal horizontal and vertical travel is horizontal.
   */
  lemma InterpretByDistance(start: Touch, end: Touch, playerWidth: real, sceneWidth: real, distance: real)
    requires 0.0 <= distance
    requires distance * distance
          == (end.location.x - start.location.x) * (end.location.x - start.location.x)
           + (end.location.y - start.location.y) * (end.location.y - start.location.y)
    ensures Interpret(start, end, playerWidth, sceneWidth).Tap?
        <==> distance < MinSwipeDistance || end.timestamp - start.timestamp > MaxSwipeTime
    ensures playerWidth <= sceneWidth && Interpret(start, end, playerWidth, sceneWidth).Tap? ==>
              playerWidth / 2.0 <= Interpret(start, end, playerWidth, sceneWidth).targetX <= sceneWidth - playerWidth / 2.0
    ensures Abs(end.location.y - start.location.y) == Abs(end.location.x - start.location.x) &&
            Interpret(start, end, playerWidth, sceneWidth).Swipe? ==>
              !Interpret(start, end, playerWidth, sceneWidth).vertical
  {
    TapIffShortOrSlow(end.location.x - start.location.x, end.location.y - start.location.y,
                      end.timestamp - start.timestamp, distance);
  }
}
