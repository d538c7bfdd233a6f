/** Optional values, standing in for Swift optionals. */
module Wrappers {

  datatype Option<+T> = None | Some(value: T)
}

/** Plain 2-D value types standing in for CGPoint, CGSize and CGRect (CGFloat is `real`). */
module Geometry {

  datatype Point = Point(x: real, y: real)

  datatype Size = Size(width: real, height: real)

  /** A rectangle given by its lower-left corner and its size. */
  datatype Rect = Rect(x: real, y: real, width: real, height: real)

  function Min(a: real, b: real): (r: real)
    ensures r <= a && r <= b && (r == a || r == b)
  {
    if a <= b then a else b
  }

  function Max(a: real, b: real): (r: real)
    ensures a <= r && b <= r && (r == a || r == b)
  {
    if a <= b then b else a
  }

  function Abs(a: real): (r: real)
    ensures 0.0 <= r && (r == a || r == -a)
  {
    if a < 0.0 then -a else a
  }
}

/** The physics categories of falling/GameScene.swift (PhysicsCategory) and a physics body's settings. */
module Physics {

  const NoCategory: bv32 := 0
  const PlayerCategory: bv32 := 1 << 0
  const ObstacleCategory: bv32 := 1 << 1

  /** The settings the game gives an SKPhysicsBody; the shape itself is the engine's business. */
  datatype PhysicsBody = PhysicsBody(
    category: bv32,
    contactTest: bv32,
    collision: bv32,
    isDynamic: bool,
    affectedByGravity: bool,
    allowsRotation: bool,
    preciseCollisions: bool)
}
