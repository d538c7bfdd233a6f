/**
 * The geometry of GameScene.spawnObstacleRow and moveObstacleUp: a 30-unit platform row
 * with a hole, split into a left and a right segment, an optional 20-unit pillar, and the
 * upward travel each obstacle is given. The random draws come in as a RowDraws value.
 */
module Spawner {
  import opened Geometry

  const RowHeight: real := 30.0
  const HoleWidthMin: real := 70.0
  const HoleWidthMax: real := 160.0
  const PillarWidth: real := 20.0
  const PillarHeightMin: real := 40.0
  const PillarHeightMax: real := 140.0
  /** A pillar is only considered when the scene is wider than this. */
  const PillarSceneWidthMin: real := 200.0
  /** Extra distance past the top edge that every obstacle travels. */
  const TravelMargin: real := 200.0
  /** A segment this wide or narrower is not emitted. */
  const MinSegmentWidth: real := 1.0

  /**
   * An obstacle sprite: its box in scene coordinates when spawned (just below the
   * visible area), how far up it is moved, and over how many seconds, before it removes itself.
   */
  datatype Obstacle = Obstacle(box: Rect, travel: real, duration: real)

  /**
   * The random values one call of spawnObstacleRow draws: the hole width and centre,
   * the pillar coin, and the pillar height and x (only drawn when a pillar is placed).
   */
  datatype RowDraws = RowDraws(holeWidth: real, holeX: real, pillarCoin: bool, pillarHeight: real, pillarX: real)

  predicate PillarPlaced(d: RowDraws, sceneWidth: real)
  {
    d.pillarCoin && sceneWidth > PillarSceneWidthMin
  }

  /**
   * The ranges `CGFloat.random(in:)` draws from. Swift stops the program on an empty range,
   * so a scene narrower than the hole admits no draw at all.
   */
  predicate ValidDraws(d: RowDraws, sceneWidth: real)
  {
    && HoleWidthMin <= d.holeWidth <= HoleWidthMax
    && d.holeWidth / 2.0 <= d.holeX <= sceneWidth - d.holeWidth / 2.0
    && (PillarPlaced(d, sceneWidth) ==>
          PillarHeightMin <= d.pillarHeight <= PillarHeightMax && 0.0 <= d.pillarX <= sceneWidth - PillarWidth)
  }

  function LeftWidth(d: RowDraws): real
  {
    d.holeX - d.holeWidth / 2.0
  }

  function RightStart(d: RowDraws): real
  {
    d.holeX + d.holeWidth / 2.0
  }

  function RightWidth(d: RowDraws, sceneWidth: real): real
  {
    sceneWidth - RightStart(d)
  }

  /** The row is cut exactly into left segment, hole and right segment, none negative. */
  lemma RowPartition(d: RowDraws, sceneWidth: real)
    requires ValidDraws(d, sceneWidth)
    ensures 0.0 <= LeftWidth(d) && 0.0 <= RightWidth(d, sceneWidth)
    ensures LeftWidth(d) + d.holeWidth + RightWidth(d, sceneWidth) == sceneWidth
    ensures RightStart(d) == LeftWidth(d) + d.holeWidth
    ensures d.holeWidth <= sceneWidth
  {
  }

  predicate InsideScene(box: Rect, sceneWidth: real)
  {
    0.0 <= box.x && box.x + box.width <= sceneWidth
  }

  /** The box does not reach into the hole of the row drawn with `d`. */
  predicate ClearOfHole(box: Rect, d: RowDraws)
  {
    box.x + box.width <= LeftWidth(d) || RightStart(d) <= box.x
  }

  /** The distance moveObstacleUp moves a node of the given height. */
  function TravelDistance(sceneHeight: real, height: real): real
  {
    sceneHeight + height + TravelMargin
  }

  /**
   * moveObstacleUp: the move ends with the obstacle's bottom a scene height plus
   * TravelMargin above where its top started.
   */
  function MoveUp(box: Rect, sceneHeight: real, duration: real): (o: Obstacle)
    ensures o.box == box && o.duration == duration
    ensures o.box.y + o.travel == sceneHeight + TravelMargin + (box.y + box.height)
  {
    Obstacle(box, TravelDistance(sceneHeight, box.height), duration)
  }

  /**
   * A segment's box: the sprite is anchored at (0, 0.5) and placed at y = -RowHeight,
   * so its box spans 1.5 to 0.5 row heights below the bottom edge.
   */
  function SegmentBox(x: real, width: real): Rect
  {
    Rect(x, -RowHeight - RowHeight / 2.0, width, RowHeight)
  }

  /**
   * The left and right segments of one row, in the order they are added.
   */
  function RowObstacles(d: RowDraws, sceneWidth: real, sceneHeight: real, duration: real): (r: seq<Obstacle>)
    requires ValidDraws(d, sceneWidth)
    ensures |r| == (if LeftWidth(d) > MinSegmentWidth then 1 else 0)
                 + (if RightWidth(d, sceneWidth) > MinSegmentWidth then 1 else 0)
    ensures forall o :: o in r ==>
              && MinSegmentWidth < o.box.width
              && InsideScene(o.box, sceneWidth)
              && ClearOfHole(o.box, d)
              && o.box.height == RowHeight
              && o.box.y + o.box.height < 0.0
              && o.travel == TravelDistance(sceneHeight, o.box.height)
              && o.box.y + o.travel > sceneHeight
              && o.duration == duration
    ensures (LeftWidth(d) > MinSegmentWidth) <==>
              exists o :: o in r && o.box.x == 0.0 && o.box.width == LeftWidth(d)
    ensures (RightWidth(d, sceneWidth) > MinSegmentWidth) <==>
              exists o :: o in r && o.box.x == RightStart(d) && o.box.x + o.box.width == sceneWidth
    ensures LeftWidth(d) > MinSegmentWidth ==> r[0].box == SegmentBox(0.0, LeftWidth(d))
    ensures RightWidth(d, sceneWidth) > MinSegmentWidth ==>
              r[|r| - 1].box == SegmentBox(RightStart(d), RightWidth(d, sceneWidth))
  {
    var left := if LeftWidth(d) > MinSegmentWidth
                then [MoveUp(SegmentBox(0.0, LeftWidth(d)), sceneHeight, duration)] else [];
    var right := if RightWidth(d, sceneWidth) > MinSegmentWidth
                 then [MoveUp(SegmentBox(RightStart(d), RightWidth(d, sceneWidth)), sceneHeight, duration)] else [];
    left + right
  }

  /** The optional pillar, anchored at (0, 0) and placed at (pillarX, -pillarHeight). */
  function PillarObstacles(d: RowDraws, sceneWidth: real, sceneHeight: real, duration: real): (r: seq<Obstacle>)
    requires ValidDraws(d, sceneWidth)
    ensures |r| == if PillarPlaced(d, sceneWidth) then 1 else 0
    ensures forall o :: o in r ==>
              && o.box == Rect(d.pillarX, -d.pillarHeight, PillarWidth, d.pillarHeight)
              && o.box.width == PillarWidth
              && PillarHeightMin <= o.box.height <= PillarHeightMax
              && InsideScene(o.box, sceneWidth)
              && o.box.y + o.box.height == 0.0
              && o.travel == TravelDistance(sceneHeight, o.box.height)
              && o.box.y + o.travel > sceneHeight
              && o.duration == duration
  {
    if PillarPlaced(d, sceneWidth) then
      [MoveUp(Rect(d.pillarX, -d.pillarHeight, PillarWidth, d.pillarHeight), sceneHeight, duration)]
    else
      []
  }

  /** Everything one spawnObstacleRow call adds: left segment, right segment, pillar, each when present. */
  function SpawnedObstacles(d: RowDraws, sceneWidth: real, sceneHeight: real, duration: real): (r: seq<Obstacle>)
    requires ValidDraws(d, sceneWidth)
    ensures |r| <= 3
    ensures forall o :: o in r ==>
              MinSegmentWidth < o.box.width && InsideScene(o.box, sceneWidth) &&
              o.travel == TravelDistance(sceneHeight, o.box.height) &&
              o.box.y + o.travel > sceneHeight && o.duration == duration
  {
    RowObstacles(d, sceneWidth, sceneHeight, duration) + PillarObstacles(d, sceneWidth, sceneHeight, duration)
  }
}
