/** Pictures as values: the pixels of a screen in row-major order, one value a
    pixel, addressed by column and row. */
module Pictures {
  import opened Geometry
  import opened Grids

  /** One RGBA8888 pixel. */
  type Pixel = p: int | 0 <= p < 0x1_0000_0000

  const OPAQUE_BLACK: Pixel := 0xFF

  datatype Picture = Picture(width: u16, height: u16, pixels: seq<Pixel>) {
    predicate Ok() {
      |pixels| == width * height
    }

    predicate InBounds(x: int, y: int) {
      0 <= x < width && 0 <= y < height
    }

    function At(x: int, y: int): Pixel
      requires Ok() && InBounds(x, y)
    {
      IndexOfCell(x, y, width, height);
      pixels[y * width + x]
    }

    function Bounds(): Rect {
      Rect(0, 0, width, height)
    }
  }

  /** Two pictures of one size that agree at every pixel are the same. */
  lemma SamePixels(a: Picture, b: Picture)
    requires a.Ok() && b.Ok() && a.width == b.width && a.height == b.height
    requires forall x, y :: a.InBounds(x, y) ==> a.At(x, y) == b.At(x, y)
    ensures a == b
  {
    forall i | 0 <= i < |a.pixels|
      ensures a.pixels[i] == b.pixels[i]
    {
      CellOfIndex(i, a.width, a.height);
      assert a.At(Col(i, a.width), Row(i, a.width)) == b.At(Col(i, a.width), Row(i, a.width));
    }
  }

  /** The picture with this value at every pixel. */
  ghost function Painted(width: u16, height: u16, f: (int, int) -> Pixel): (p: Picture)
    ensures p.Ok() && p.width == width && p.height == height
  {
    Picture(width, height, seq(width * height, i requires 0 <= i < width * height =>
      CellOfIndex(i, width, height);
      f(Col(i, width), Row(i, width))))
  }

  lemma PaintedAt(width: u16, height: u16, f: (int, int) -> Pixel, x: int, y: int)
    requires 0 <= x < width && 0 <= y < height
    ensures Painted(width, height, f).At(x, y) == f(x, y)
  {
    IndexOfCell(x, y, width, height);
  }

  /** One row, from column `x`, replaced by `row`. */
  function WithRow(p: Picture, x: nat, y: nat, row: seq<Pixel>): (q: Picture)
    requires p.Ok() && x + |row| <= p.width && y < p.height
    ensures q.Ok() && q.width == p.width && q.height == p.height
  {
    RowFits(p, x, y, |row|);
    var d := y * p.width + x;
    p.(pixels := p.pixels[..d] + row + p.pixels[d + |row|..])
  }

  lemma RowFits(p: Picture, x: nat, y: nat, n: nat)
    requires p.Ok() && x + n <= p.width && y < p.height
    ensures 0 <= y * p.width + x <= y * p.width + x + n <= |p.pixels|
  {
    MulMono(y + 1, p.height, p.width);
    Distributes(y, 1, p.width);
  }

  lemma WithRowAt(p: Picture, x: nat, y: nat, row: seq<Pixel>, px: int, py: int)
    requires p.Ok() && x + |row| <= p.width && y < p.height && p.InBounds(px, py)
    ensures WithRow(p, x, y, row).At(px, py) == if py == y && x <= px < x + |row| then row[px - x] else p.At(px, py)
  {
    RowFits(p, x, y, |row|);
    IndexOfCell(px, py, p.width, p.height);
    if py < y {
      MulMono(py + 1, y, p.width);
      Distributes(py, 1, p.width);
    } else if py > y {
      MulMono(y + 1, py, p.width);
      Distributes(y, 1, p.width);
    }
  }

  /** `n` pixels of row `y` from column `x`. */
  function RowOf(p: Picture, x: nat, y: nat, n: nat): (row: seq<Pixel>)
    requires p.Ok() && x + n <= p.width && y < p.height
    ensures |row| == n
  {
    RowFits(p, x, y, n);
    p.pixels[y * p.width + x..y * p.width + x + n]
  }

  lemma RowOfAt(p: Picture, x: nat, y: nat, n: nat, k: nat)
    requires p.Ok() && x + n <= p.width && y < p.height && k < n
    ensures RowOf(p, x, y, n)[k] == p.At(x + k, y)
  {
    RowFits(p, x, y, n);
    IndexOfCell(x + k, y, p.width, p.height);
  }
}
