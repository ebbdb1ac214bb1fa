/**
 * Placement geometry of `create_dynamic_collage`: the layout is chosen by the
 * number of images and each image is fitted into an integer rectangle of the
 * canvas, in arrival order.
 */
module Geometry {
  import opened Images

  /** `A4_SIZE`: A4 at 300 DPI. */
  const CanvasWidth: nat := 2480
  const CanvasHeight: nat := 3508

  /** A cell of the canvas: top-left corner `(x, y)`, width `w`, height `h`. */
  datatype Rect = Rect(x: int, y: int, w: int, h: int)

  ghost predicate InCanvas(r: Rect, width: nat, height: nat)
  {
    0 <= r.x && 0 <= r.y && 0 <= r.w && 0 <= r.h && r.x + r.w <= width && r.y + r.h <= height
  }

  /** Pixel `(px, py)` lies in `r`. */
  ghost predicate Covers(r: Rect, px: int, py: int)
  {
    r.x <= px < r.x + r.w && r.y <= py < r.y + r.h
  }

  /** `a` and `b` share no pixel: one is entirely left of, right of, above or below the other. */
  ghost predicate Disjoint(a: Rect, b: Rect)
  {
    a.x + a.w <= b.x || b.x + b.w <= a.x || a.y + a.h <= b.y || b.y + b.h <= a.y
  }

  ghost predicate CoveredBy(cells: seq<Rect>, px: int, py: int)
  {
    exists i :: 0 <= i < |cells| && Covers(cells[i], px, py)
  }

  /** Every cell lies on the canvas and no two cells overlap. */
  ghost predicate Packed(cells: seq<Rect>, width: nat, height: nat)
  {
    (forall i :: 0 <= i < |cells| ==> InCanvas(cells[i], width, height)) &&
    (forall i, j :: 0 <= i < j < |cells| ==> Disjoint(cells[i], cells[j]))
  }

  /** The cells are packed and together cover every pixel of the canvas. */
  ghost predicate Tiles(cells: seq<Rect>, width: nat, height: nat)
  {
    Packed(cells, width, height) &&
    forall px, py :: 0 <= px < width && 0 <= py < height ==> CoveredBy(cells, px, py)
  }

  /**
   * `Disjoint` is stated by separation along an axis; this lemma records that
   * it means what the layout lemmas need: the two cells share no pixel.
   */
  lemma DisjointSharesNoPixel(a: Rect, b: Rect, px: int, py: int)
    requires Disjoint(a, b)
    ensures !(Covers(a, px, py) && Covers(b, px, py))
  {
  }

  /** The least `g` with `n <= g * g`; stands for `int(np.ceil(np.sqrt(n)))`. */
  function CeilSqrt(n: nat): (g: nat)
    ensures n <= g * g
    ensures g == 0 || (g - 1) * (g - 1) < n
  {
    CeilSqrtFrom(n, 0)
  }

  /** Search upwards from `g`, every smaller candidate being too small. */
  function CeilSqrtFrom(n: nat, g: nat): (r: nat)
    requires g == 0 || (g - 1) * (g - 1) < n
    ensures n <= r * r
    ensures r == 0 || (r - 1) * (r - 1) < n
    decreases n - g
  {
    if n <= g * g then g
    else
      assert g <= g * g;
      CeilSqrtFrom(n, g + 1)
  }

  lemma SquareMonotone(a: nat, b: nat)
    requires a <= b
    ensures a * a <= b * b
  {
    assert a * a <= a * b <= b * b;
  }

  /** The two bounds of `CeilSqrt` single out one number. */
  lemma CeilSqrtUnique(n: nat, g: nat)
    requires 1 <= n && (g - 1) * (g - 1) < n <= g * g
    ensures g == CeilSqrt(n)
  {
    var c := CeilSqrt(n);
    if g < c {
      SquareMonotone(g, c - 1);
    } else if c < g {
      SquareMonotone(c, g - 1);
    }
  }

  /** Grid cell `i`: row `i // g`, column `i % g`, cells of `width // g` by `height // g`. */
  function GridCell(width: nat, height: nat, g: nat, i: nat): (cell: Rect)
    requires g > 0
    ensures cell.w == width / g && cell.h == height / g
    ensures i < g * g ==> InCanvas(cell, width, height)
  {
    var col, row := i % g, i / g;
    var cell := Rect(col * (width / g), row * (height / g), width / g, height / g);
    assert i < g * g ==> InCanvas(cell, width, height) by {
      if i < g * g {
        RowBelowGrid(i, g);
        CellEndsInside(col, g, width);
        CellEndsInside(row, g, height);
      }
    }
    cell
  }

  /** The rectangle of each image, in arrival order, for `n` images on a `width` by `height` canvas. */
  function Layout(width: nat, height: nat, n: nat): (cells: seq<Rect>)
    ensures |cells| == n
  {
    if n == 0 then []
    else if n == 1 then [Rect(0, 0, width, height)]
    else if n == 2 then
      var half := width / 2;
      [Rect(0, 0, half, height), Rect(half, 0, width - half, height)]
    else if n == 3 then
      var topWidth := width / 2;
      var topHeight := height * 2 / 3;
      [Rect(0, 0, topWidth, topHeight), Rect(topWidth, 0, width - topWidth, topHeight),
       Rect(0, topHeight, width, height - topHeight)]
    else
      var g := CeilSqrt(n);
      seq(n, i requires 0 <= i < n => GridCell(width, height, g, i))
  }

  /** One image fills the whole canvas. */
  lemma LayoutOneTiles(width: nat, height: nat)
    ensures Layout(width, height, 1) == [Rect(0, 0, width, height)]
    ensures Tiles(Layout(width, height, 1), width, height)
  {
    var cells := Layout(width, height, 1);
    forall px, py | 0 <= px < width && 0 <= py < height
      ensures CoveredBy(cells, px, py)
    {
      assert Covers(cells[0], px, py);
    }
  }

  /** Two images: columns split at `width // 2`, covering the canvas without overlap. */
  lemma LayoutTwoTiles(width: nat, height: nat)
    ensures Layout(width, height, 2) == [Rect(0, 0, width / 2, height), Rect(width / 2, 0, width - width / 2, height)]
    ensures Tiles(Layout(width, height, 2), width, height)
  {
    var cells := Layout(width, height, 2);
    forall px, py | 0 <= px < width && 0 <= py < height
      ensures CoveredBy(cells, px, py)
    {
      if px < width / 2 {
        assert Covers(cells[0], px, py);
      } else {
        assert Covers(cells[1], px, py);
      }
    }
  }

  /** Three images: two top cells of height `2 * height // 3`, one full-width bottom cell. */
  lemma LayoutThreeTiles(width: nat, height: nat)
    ensures var t := height * 2 / 3;
      Layout(width, height, 3) ==
        [Rect(0, 0, width / 2, t), Rect(width / 2, 0, width - width / 2, t), Rect(0, t, width, height - t)]
    ensures Tiles(Layout(width, height, 3), width, height)
  {
    var cells := Layout(width, height, 3);
    var t := height * 2 / 3;
    assert t <= height;
    forall px, py | 0 <= px < width && 0 <= py < height
      ensures CoveredBy(cells, px, py)
    {
      if py >= t {
        assert Covers(cells[2], px, py);
      } else if px < width / 2 {
        assert Covers(cells[0], px, py);
      } else {
        assert Covers(cells[1], px, py);
      }
    }
  }

  lemma MulLeq(a: nat, b: nat, c: nat)
    requires a <= b
    ensures a * c <= b * c
  {
  }

  /** A grid index below `g * g` lands in a row below `g`. */
  lemma RowBelowGrid(i: nat, g: nat)
    requires g > 0 && i < g * g
    ensures i / g < g
  {
    if i / g >= g {
      MulLeq(g, i / g, g);
      assert false;
    }
  }

  /** Cells of `side // g` laid `index < g` apart end no later than `side`. */
  lemma CellEndsInside(index: nat, g: nat, side: nat)
    requires index < g
    ensures 0 <= index * (side / g)
    ensures index * (side / g) + side / g <= side
  {
    MulLeq(index + 1, g, side / g);
    assert (index + 1) * (side / g) == index * (side / g) + side / g;
    assert g * (side / g) <= side;
  }

  /** Distinct rows or columns `a < b` give cells that end before the next one starts. */
  lemma CellsApart(a: nat, b: nat, size: nat)
    requires a < b
    ensures a * size + size <= b * size
  {
    MulLeq(a + 1, b, size);
  }

  /** Row-major order: a later index sits in a later row, or further right in the same row. */
  lemma RowMajorOrder(i: nat, j: nat, g: nat)
    requires 0 < g && i < j
    ensures i / g < j / g || (i / g == j / g && i % g < j % g)
  {
    var ri, rj := i / g, j / g;
    if ri > rj {
      MulLeq(rj + 1, ri, g);
      assert false;
    }
  }

  /** Distinct grid indices get disjoint cells. */
  lemma GridCellsApart(width: nat, height: nat, g: nat, i: nat, j: nat)
    requires 0 < g && i < j
    ensures Disjoint(GridCell(width, height, g, i), GridCell(width, height, g, j))
  {
    var ci, ri, cj, rj := i % g, i / g, j % g, j / g;
    RowMajorOrder(i, j, g);
    if ri < rj {
      CellsApart(ri, rj, height / g);
    } else {
      CellsApart(ci, cj, width / g);
    }
  }

  /** For four or more images cell `i` is the grid cell of `i` with `g = CeilSqrt(n)`, on the canvas. */
  lemma GridCellInCanvas(width: nat, height: nat, n: nat, i: nat)
    requires 4 <= n && i < n
    ensures Layout(width, height, n)[i] == GridCell(width, height, CeilSqrt(n), i)
    ensures InCanvas(Layout(width, height, n)[i], width, height)
  {
  }

  /** For four or more images distinct indices get disjoint cells. */
  lemma GridCellsDisjoint(width: nat, height: nat, n: nat, i: nat, j: nat)
    requires 4 <= n && i < j < n
    ensures Disjoint(Layout(width, height, n)[i], Layout(width, height, n)[j])
  {
    GridCellsApart(width, height, CeilSqrt(n), i, j);
  }

  /** Whatever the count, every image gets a cell on the canvas and no two cells overlap. */
  lemma LayoutPacked(width: nat, height: nat, n: nat)
    ensures Packed(Layout(width, height, n), width, height)
  {
    if n == 1 {
      LayoutOneTiles(width, height);
    } else if n == 2 {
      LayoutTwoTiles(width, height);
    } else if n == 3 {
      LayoutThreeTiles(width, height);
    } else if n >= 4 {
      var cells := Layout(width, height, n);
      forall i | 0 <= i < n
        ensures InCanvas(cells[i], width, height)
      {
        GridCellInCanvas(width, height, n, i);
      }
      forall i, j | 0 <= i < j < n
        ensures Disjoint(cells[i], cells[j])
      {
        GridCellsDisjoint(width, height, n, i, j);
      }
    }
  }

  /** Five images on the A4 canvas: a 3 by 3 grid of 826 by 1169 cells, the fifth in the middle. */
  lemma FiveImageGrid()
    ensures CeilSqrt(5) == 3
    ensures Layout(CanvasWidth, CanvasHeight, 5)[4] == Rect(826, 1169, 826, 1169)
  {
    CeilSqrtUnique(5, 3);
  }

  /** One image pasted: the stored path of the image and the cell it is fitted into. */
  datatype Placement = Placement(path: string, cell: Rect)

  /**
   * The pasting step of `create_dynamic_collage`: each image of the window,
   * in arrival order, is fitted to its cell; the grid case walks the images
   * computing row and column as the source's loop does.
   */
  method Compose(width: nat, height: nat, window: seq<Record>) returns (placed: seq<Placement>)
    ensures |placed| == |window|
    ensures forall i :: 0 <= i < |window| ==>
      placed[i] == Placement(window[i].path, Layout(width, height, |window|)[i])
  {
    var n := |window|;
    if n == 0 {
      placed := [];
    } else if n == 1 {
      placed := [Placement(window[0].path, Rect(0, 0, width, height))];
    } else if n == 2 {
      var halfWidth := width / 2;
      placed := [Placement(window[0].path, Rect(0, 0, halfWidth, height)),
                 Placement(window[1].path, Rect(halfWidth, 0, width - halfWidth, height))];
    } else if n == 3 {
      var topHeight := height * 2 / 3;
      var topWidth := width / 2;
      placed := [Placement(window[0].path, Rect(0, 0, topWidth, topHeight)),
                 Placement(window[1].path, Rect(topWidth, 0, width - topWidth, topHeight)),
                 Placement(window[2].path, Rect(0, topHeight, width, height - topHeight))];
    } else {
      var gridSize := CeilSqrt(n);
      var cellWidth := width / gridSize;
      var cellHeight := height / gridSize;
      placed := [];
      for i := 0 to n
        invariant |placed| == i
        invariant forall k :: 0 <= k < i ==> placed[k] == Placement(window[k].path, Layout(width, height, n)[k])
      {
        var row := i / gridSize;
        var col := i % gridSize;
        var x := col * cellWidth;
        var y := row * cellHeight;
        placed := placed + [Placement(window[i].path, Rect(x, y, cellWidth, cellHeight))];
      }
    }
  }
}
