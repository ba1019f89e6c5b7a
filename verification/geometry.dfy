/** Rectangles with 16-bit edges (crates/remote-core/src/geometry.rs). The far
    edge `x + width` is computed in 16 bits and wraps when it does not fit. */
module Geometry {

  const U16_MAX := 0xFFFF

  type u16 = x: int | 0 <= x <= U16_MAX

  datatype Point = Point(x: u16, y: u16)

  function Wrap(n: int): u16 {
    n % 0x1_0000
  }

  function Min(a: int, b: int): int {
    if a < b then a else b
  }

  function Max(a: int, b: int): int {
    if a < b then b else a
  }

  datatype Rect = Rect(x: u16, y: u16, width: u16, height: u16) {
    function Area(): nat {
      width * height
    }

    predicate IsEmpty() {
      width == 0 || height == 0
    }

    /** The far edges fit in 16 bits. */
    predicate Fits() {
      x + width < 0x1_0000 && y + height < 0x1_0000
    }

    /** The half-open rectangle. */
    predicate Has(px: int, py: int) {
      x <= px < x + width && y <= py < y + height
    }

    /** Every pixel of `this` is a pixel of `outer`. */
    predicate Within(outer: Rect) {
      outer.x <= x && outer.y <= y && x + width <= outer.x + outer.width && y + height <= outer.y + outer.height
    }
  }

  const EMPTY := Rect(0, 0, 0, 0)

  /** The overlap of both, or an empty rectangle. */
  function Intersect(a: Rect, b: Rect): Rect {
    var x0 := Max(a.x, b.x);
    var y0 := Max(a.y, b.y);
    var x1 := Min(Wrap(a.x + a.width), Wrap(b.x + b.width));
    var y1 := Min(Wrap(a.y + a.height), Wrap(b.y + b.height));
    if x1 <= x0 || y1 <= y0 then EMPTY else Rect(x0, y0, x1 - x0, y1 - y0)
  }

  /** The smallest rectangle covering both. */
  function Union(a: Rect, b: Rect): Rect {
    if a.IsEmpty() then b
    else if b.IsEmpty() then a
    else
      var x0 := Min(a.x, b.x);
      var y0 := Min(a.y, b.y);
      var x1 := Max(Wrap(a.x + a.width), Wrap(b.x + b.width));
      var y1 := Max(Wrap(a.y + a.height), Wrap(b.y + b.height));
      Rect(x0, y0, Wrap(x1 - x0), Wrap(y1 - y0))
  }

  /** Overlapping with a rectangle that fits is exact for one that fits, and
      empty for one whose far edge wraps: the wrapped edge lies before the near
      one, so an overlap is never invented. */
  lemma IntersectExact(a: Rect, b: Rect)
    requires b.Fits()
    ensures forall px, py :: Intersect(a, b).Has(px, py) <==> a.Fits() && a.Has(px, py) && b.Has(px, py)
    ensures Intersect(a, b).Fits()
    ensures !Intersect(a, b).IsEmpty() ==> Intersect(a, b).Within(a) && Intersect(a, b).Within(b)
    ensures Intersect(a, b).IsEmpty() ==> Intersect(a, b) == Rect(0, 0, 0, 0)
  {
    if a.Fits() {
      assert Wrap(a.x + a.width) == a.x + a.width && Wrap(a.y + a.height) == a.y + a.height;
    } else if a.x + a.width >= 0x1_0000 {
      assert Wrap(a.x + a.width) == a.x + a.width - 0x1_0000;
    } else {
      assert Wrap(a.y + a.height) == a.y + a.height - 0x1_0000;
    }
    assert Wrap(b.x + b.width) == b.x + b.width && Wrap(b.y + b.height) == b.y + b.height;
  }

  /** Two rectangles that fit have an exact bounding box: whatever holds both
      holds it. */
  lemma UnionExact(a: Rect, b: Rect, outer: Rect)
    requires a.Fits() && b.Fits() && !a.IsEmpty() && !b.IsEmpty()
    ensures Union(a, b).Fits() && a.Within(Union(a, b)) && b.Within(Union(a, b))
    ensures a.Within(outer) && b.Within(outer) ==> Union(a, b).Within(outer)
  {
    hide Wrap;
    FitsUnwrapped(a);
    FitsUnwrapped(b);
    var x0, x1 := Min(a.x, b.x), Max(a.x + a.width, b.x + b.width);
    var y0, y1 := Min(a.y, b.y), Max(a.y + a.height, b.y + b.height);
    WrapSmall(x1 - x0);
    WrapSmall(y1 - y0);
    assert Union(a, b) == Rect(x0, y0, x1 - x0, y1 - y0);
  }

  lemma WrapSmall(n: u16)
    ensures Wrap(n) == n
  {
  }

  lemma FitsUnwrapped(r: Rect)
    requires r.Fits()
    ensures Wrap(r.x + r.width) == r.x + r.width && Wrap(r.y + r.height) == r.y + r.height
  {
  }

  lemma AreaGrows(w: nat, h: nat, w2: nat, h2: nat)
    requires w <= w2 && h <= h2
    ensures w * h <= w2 * h2
  {
    assert w * h <= w2 * h;
    assert w2 * h <= w2 * h2;
  }
}
