/**
 * The sprite-sheet slicing and the visual state of falling/PlayerNode.swift. Textures are
 * modelled by the sub-rectangle of the sheet they show, in unit texture coordinates with the
 * origin at the bottom left.
 */
module PlayerNode {
  import opened Wrappers
  import opened Geometry
  import opened Physics

  /** The grid PlayerNode.swift slices (`cols = 4`, `rows = 1`, whatever its doc comment says). */
  const SheetCols: nat := 4
  const SheetRows: nat := 1
  /** `texs.prefix(8)` */
  const MaxFrames: nat := 8

  /** Frame (row, col) of a rows × cols sheet, rows counted from the top. */
  function FrameRect(rows: nat, cols: nat, row: nat, col: nat): Rect
    requires row < rows && col < cols
  {
    Rect(col as real / cols as real, (rows - 1 - row) as real / rows as real,
         1.0 / cols as real, 1.0 / rows as real)
  }

  predicate InUnitSquare(r: Rect)
  {
    0.0 <= r.x && 0.0 <= r.y && 0.0 < r.width && 0.0 < r.height &&
    r.x + r.width <= 1.0 && r.y + r.height <= 1.0
  }

  /** The interiors of the two rectangles meet. */
  predicate Overlap(a: Rect, b: Rect)
  {
    a.x < b.x + b.width && b.x < a.x + a.width && a.y < b.y + b.height && b.y < a.y + a.height
  }

  /** Cell i of n equal cells of the unit interval ends where cell j starts, or before, when i < j. */
  lemma CellEndsBefore(i: nat, j: nat, n: nat)
    requires i < j <= n
    ensures i as real / n as real + 1.0 / n as real <= j as real / n as real
  {
    var q := 1.0 / n as real;
    assert i as real / n as real == i as real * q;
    assert j as real / n as real == j as real * q;
    assert 0.0 < q;
    assert (i + 1) as real * q <= j as real * q;
  }

  lemma FrameRectInUnitSquare(rows: nat, cols: nat, row: nat, col: nat)
    requires row < rows && col < cols
    ensures InUnitSquare(FrameRect(rows, cols, row, col))
  {
    CellEndsBefore(col, cols, cols);
    CellEndsBefore(rows - 1 - row, rows, rows);
    assert cols as real / cols as real == 1.0;
    assert rows as real / rows as real == 1.0;
  }

  /** Different cells of the grid never overlap. */
  lemma FrameRectsDisjoint(rows: nat, cols: nat, row1: nat, col1: nat, row2: nat, col2: nat)
    requires row1 < rows && col1 < cols && row2 < rows && col2 < cols
    requires row1 != row2 || col1 != col2
    ensures !Overlap(FrameRect(rows, cols, row1, col1), FrameRect(rows, cols, row2, col2))
  {
    if col1 < col2 {
      CellEndsBefore(col1, col2, cols);
    } else if col2 < col1 {
      CellEndsBefore(col2, col1, cols);
    } else if row1 < row2 {
      CellEndsBefore(rows - 1 - row2, rows - 1 - row1, rows);
    } else {
      CellEndsBefore(rows - 1 - row1, rows - 1 - row2, rows);
    }
  }

  /** The row-major index of cell (r, c) in a grid `cols` wide, counted up row by row. */
  function Index(cols: nat, r: nat, c: nat): nat
    decreases r
  {
    if r == 0 then c else cols + Index(cols, r - 1, c)
  }

  lemma {:induction false} IndexIsRowMajor(cols: nat, r: nat, c: nat)
    ensures Index(cols, r, c) == r * cols + c
    decreases r
  {
    if r > 0 {
      IndexIsRowMajor(cols, r - 1, c);
      assert (r - 1) * cols + cols == r * cols;
    }
  }

  /** Within a row, the column is an offset from the row's first index. */
  lemma {:induction false} IndexOffset(cols: nat, r: nat, c: nat)
    ensures Index(cols, r, c) == Index(cols, r, 0) + c
    decreases r
  {
    if r > 0 {
      IndexOffset(cols, r - 1, c);
    }
  }

  /** A later row starts at least a full row after an earlier one. */
  lemma {:induction false} IndexRowAfter(cols: nat, r: nat, row: nat)
    requires r < row
    ensures Index(cols, r, 0) + cols <= Index(cols, row, 0)
    decreases row
  {
    if r < row - 1 {
      IndexRowAfter(cols, r, row - 1);
    }
  }

  /** Cells before (row, col) in row-major order have smaller indices. */
  lemma IndexBefore(r: nat, c: nat, row: nat, col: nat, cols: nat)
    requires c < cols && (r < row || (r == row && c < col))
    ensures Index(cols, r, c) < Index(cols, row, col)
  {
    IndexOffset(cols, r, c);
    IndexOffset(cols, row, col);
    if r < row {
      IndexRowAfter(cols, r, row);
    }
  }

  /** The index past the end of a row is the start of the next row. */
  lemma IndexNextRow(cols: nat, row: nat)
    ensures Index(cols, row, cols) == Index(cols, row + 1, 0)
  {
    IndexOffset(cols, row, cols);
    IndexOffset(cols, row + 1, 0);
  }

  /** `texs` holds, in row-major order, every cell before (row, col): the rows above and the row's first `col` cells. */
  ghost predicate Sliced(texs: seq<Rect>, rows: nat, cols: nat, row: nat, col: nat)
  {
    && col <= cols && (row < rows || (row == rows && col == 0))
    && |texs| == Index(cols, row, col)
    && forall r: nat, c: nat :: (r < row && c < cols) || (r == row && c < col) ==>
         Index(cols, r, c) < |texs| && texs[Index(cols, r, c)] == FrameRect(rows, cols, r, c)
  }

  /** Appending cell (row, col) extends the sliced prefix by one cell. */
  lemma SlicedStep(texs: seq<Rect>, rows: nat, cols: nat, row: nat, col: nat)
    requires row < rows && col < cols && Sliced(texs, rows, cols, row, col)
    ensures Sliced(texs + [FrameRect(rows, cols, row, col)], rows, cols, row, col + 1)
  {
    var t := texs + [FrameRect(rows, cols, row, col)];
    IndexOffset(cols, row, col);
    IndexOffset(cols, row, col + 1);
    forall r: nat, c: nat | (r < row && c < cols) || (r == row && c < col + 1)
      ensures Index(cols, r, c) < |t| && t[Index(cols, r, c)] == FrameRect(rows, cols, r, c)
    {
      if r == row && c == col {
        assert Index(cols, r, c) == |texs|;
      } else {
        IndexBefore(r, c, row, col, cols);
        assert (r < row && c < cols) || (r == row && c < col);
        assert t[Index(cols, r, c)] == texs[Index(cols, r, c)];
      }
    }
  }

  /** A completed row is the start of the next one. */
  lemma SlicedRow(texs: seq<Rect>, rows: nat, cols: nat, row: nat)
    requires row < rows && Sliced(texs, rows, cols, row, cols)
    ensures Sliced(texs, rows, cols, row + 1, 0)
  {
    IndexNextRow(cols, row);
    forall r: nat, c: nat | r < row + 1 && c < cols
      ensures Index(cols, r, c) < |texs| && texs[Index(cols, r, c)] == FrameRect(rows, cols, r, c)
    {
      assert (r < row && c < cols) || (r == row && c < cols);
    }
  }

  /** Once every row is done, every cell is at its row-major index. */
  lemma SlicedAll(texs: seq<Rect>, rows: nat, cols: nat)
    requires Sliced(texs, rows, cols, rows, 0)
    ensures |texs| == rows * cols
    ensures forall row: nat, col: nat :: row < rows && col < cols ==>
              row * cols + col < |texs| && texs[row * cols + col] == FrameRect(rows, cols, row, col)
  {
    IndexIsRowMajor(cols, rows, 0);
    forall row: nat, col: nat | row < rows && col < cols
      ensures row * cols + col < |texs| && texs[row * cols + col] == FrameRect(rows, cols, row, col)
    {
      IndexIsRowMajor(cols, row, col);
      assert row < rows && col < cols;
    }
  }

  /**
   * The nested loop of buildAppearance: one rectangle per cell, left to right within a
   * row, rows from the top down.
   */
  method SliceSheet(rows: nat, cols: nat) returns (texs: seq<Rect>)
    ensures |texs| == rows * cols
    ensures forall row: nat, col: nat :: row < rows && col < cols ==>
              row * cols + col < |texs| && texs[row * cols + col] == FrameRect(rows, cols, row, col)
  {
    texs := [];
    for row := 0 to rows
      invariant Sliced(texs, rows, cols, row, 0)
    {
      for col := 0 to cols
        invariant Sliced(texs, rows, cols, row, col)
      {
        var x := col as real / cols as real;
        var y := (rows - 1 - row) as real / rows as real;
        var w := 1.0 / cols as real;
        var h := 1.0 / rows as real;
        var rect := Rect(x, y, w, h);
        assert rect == FrameRect(rows, cols, row, col);
        SlicedStep(texs, rows, cols, row, col);
        texs := texs + [rect];
      }
      SlicedRow(texs, rows, cols, row);
    }
    SlicedAll(texs, rows, cols);
  }

  /** `Array(texs.prefix(8))`: the first frames, at most eight, in their order. */
  function FirstFrames(texs: seq<Rect>): (frames: seq<Rect>)
    ensures |frames| == if |texs| < MaxFrames then |texs| else MaxFrames
    ensures forall i :: 0 <= i < |frames| ==> frames[i] == texs[i]
  {
    texs[..if |texs| < MaxFrames then |texs| else MaxFrames]
  }

  /** The sheet as PlayerNode.swift slices it gives four frames, the quarters of the sheet from left to right. */
  lemma SourceSheetFrames(texs: seq<Rect>)
    requires |texs| == SheetRows * SheetCols
    ensures FirstFrames(texs) == texs && |FirstFrames(texs)| == 4
    ensures forall col: nat :: col < SheetCols ==>
              FrameRect(SheetRows, SheetCols, 0, col) == Rect(col as real / 4.0, 0.0, 0.25, 1.0)
  {
  }

  datatype AnimationKey = FallingAnimation | PlaceholderPulse

  /** The x and y scale a scale action drives the sprite to. */
  datatype Scale = Scale(x: real, y: real)

  /** setVisualScaleFor: squeezed and stretched when vertical, natural size otherwise. */
  function VisualScale(vertical: bool): (s: Scale)
    ensures vertical ==> s.x < 1.0 < s.y && s == Scale(0.7, 1.25)
    ensures !vertical ==> s == Scale(1.0, 1.0)
  {
    if vertical then Scale(0.7, 1.25) else Scale(1.0, 1.0)
  }

  /** The body buildAppearance gives the node: dynamic, no gravity or rotation, every mask 0. */
  const FrameBody: PhysicsBody := PhysicsBody(NoCategory, NoCategory, NoCategory, true, false, false, true)

  class Player {
    const bodySize: Size
    /** sprite.size */
    var spriteSize: Size
    var frames: seq<Rect>
    /** sprite.texture */
    var texture: Option<Rect>
    /** sprite.color is the teal placeholder colour at full blend */
    var tinted: bool
    /** keys of the actions running on the sprite */
    var animations: set<AnimationKey>
    /** the node's physicsBody */
    var body: Option<PhysicsBody>
    /** where the last scale action takes the sprite */
    var spriteScale: Scale

    /** init(size:), with `sheet` the size of the loaded sheet texture (zero when it is missing). */
    constructor (size: Size, sheet: Size)
      ensures bodySize == size && spriteSize == size && spriteScale == Scale(1.0, 1.0)
      ensures sheet == Size(0.0, 0.0) ==>
                frames == [] && texture == None && body == None && tinted && animations == {PlaceholderPulse}
      ensures sheet != Size(0.0, 0.0) ==>
                |frames| == 4 && (forall col: nat :: col < 4 ==> frames[col] == FrameRect(SheetRows, SheetCols, 0, col))
                && texture == Some(frames[0]) && body == Some(FrameBody) && !tinted
                && animations == {FallingAnimation}
    {
      bodySize := size;
      spriteSize := size;
      frames := [];
      texture := None;
      tinted := false;
      animations := {};
      body := None;
      spriteScale := Scale(1.0, 1.0);
      new;
      BuildAppearance(sheet, SheetRows, SheetCols);
    }

    /**
     * buildAppearance with the grid as parameters: a missing sheet or an empty grid takes the
     * placeholder path and returns before any body is assigned; otherwise the frames are the
     * grid's first eight cells, the first one is shown and animated, and a body with all
     * masks 0 is assigned.
     */
    method BuildAppearance(sheet: Size, rows: nat, cols: nat)
      modifies this
      ensures spriteSize == bodySize && spriteScale == old(spriteScale)
      ensures sheet == Size(0.0, 0.0) ==>
                frames == old(frames) && texture == old(texture) && body == old(body)
                && tinted && animations == old(animations) + {PlaceholderPulse}
      ensures sheet != Size(0.0, 0.0) ==>
                && |frames| == (if rows * cols < MaxFrames then rows * cols else MaxFrames)
                && forall row: nat, col: nat :: row < rows && col < cols && row * cols + col < |frames| ==>
                     frames[row * cols + col] == FrameRect(rows, cols, row, col)
      ensures sheet != Size(0.0, 0.0) && rows * cols == 0 ==>
                frames == [] && texture == old(texture) && body == old(body)
                && tinted && animations == old(animations) + {PlaceholderPulse}
      ensures sheet != Size(0.0, 0.0) && rows * cols != 0 ==>
                && texture == Some(FrameRect(rows, cols, 0, 0))
                && body == Some(FrameBody)
                && body.value.category == 0 && body.value.contactTest == 0 && body.value.collision == 0
                && tinted == old(tinted) && animations == old(animations) + {FallingAnimation}
    {
      spriteSize := bodySize;
      if sheet == Size(0.0, 0.0) {
        tinted := true;
        StartPlaceholderAnimation();
        return;
      }
      var texs := SliceSheet(rows, cols);
      frames := FirstFrames(texs);
      if |frames| == 0 {
        tinted := true;
        StartPlaceholderAnimation();
        return;
      }
      texture := Some(frames[0]);
      StartSpriteAnimation();
      body := Some(FrameBody);
    }

    method StartSpriteAnimation()
      modifies this
      ensures animations == if frames == [] then old(animations) else old(animations) + {FallingAnimation}
      ensures frames == old(frames) && texture == old(texture) && body == old(body) && tinted == old(tinted)
      ensures spriteSize == old(spriteSize) && spriteScale == old(spriteScale)
    {
      if frames == [] {
        return;
      }
      animations := animations + {FallingAnimation};
    }

    method StartPlaceholderAnimation()
      modifies this
      ensures animations == old(animations) + {PlaceholderPulse}
      ensures frames == old(frames) && texture == old(texture) && body == old(body) && tinted == old(tinted)
      ensures spriteSize == old(spriteSize) && spriteScale == old(spriteScale)
    {
      animations := animations + {PlaceholderPulse};
    }

    /** stopAnimation: both keyed animations are removed, nothing else changes. */
    method StopAnimation()
      modifies this
      ensures animations == old(animations) - {FallingAnimation, PlaceholderPulse}
      ensures animations == {}
      ensures frames == old(frames) && texture == old(texture) && body == old(body) && tinted == old(tinted)
      ensures spriteSize == old(spriteSize) && spriteScale == old(spriteScale)
    {
      animations := animations - {FallingAnimation, PlaceholderPulse};
      forall k: AnimationKey
        ensures k !in animations
      {
        assert k == FallingAnimation || k == PlaceholderPulse;
      }
    }

    method SetVisualScaleFor(vertical: bool)
      modifies this
      ensures spriteScale == VisualScale(vertical)
      ensures frames == old(frames) && texture == old(texture) && body == old(body) && tinted == old(tinted)
      ensures spriteSize == old(spriteSize) && animations == old(animations)
    {
      spriteScale := VisualScale(vertical);
    }
  }
}
