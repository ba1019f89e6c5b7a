/** What one decoded rectangle does to a picture and to its coverage, pixel by
    pixel: the meaning of crates/agent-perception/src/mirror.rs:377-538. */
module Compositing {
  import opened CoverageMarks
  import opened Geometry
  import opened Pictures
  import opened RegionCounts
  import opened StaleTilings
  import opened Wrappers

  /** What a JPEG decoder returns: exactly as many pixels as its size says. */
  datatype Image = Image(width: nat, height: nat, pixels: seq<Pixel>)

  type Decoded = i: Image | |i.pixels| == i.width * i.height witness Image(0, 0, [])

  /** A JPEG carries what decoding it yields, `None` when it does not decode; an
      H.264 payload only whether it is a pure control message. */
  datatype Payload =
    | Rgba(pixels: seq<Pixel>)
    | Jpeg(decoded: Option<Decoded>)
    | CopyRect(srcX: u16, srcY: u16)
    | H264(control: bool)

  datatype DecodedRect = DecodedRect(rect: Rect, payload: Payload)

  /** A tightly packed block; a short one stops at its last complete row. */
  function Blitted(p: Picture, rect: Rect, pixels: seq<Pixel>, x: int, y: int): Pixel
    requires p.Ok() && p.InBounds(x, y)
  {
    if !rect.Has(x, y) then p.At(x, y)
    else
      RowInBlock(rect, x, y);
      var start := (y - rect.y) * rect.width;
      if start + Min(rect.width, p.width - rect.x) <= |pixels| then pixels[start + (x - rect.x)] else p.At(x, y)
  }

  lemma RowInBlock(rect: Rect, x: int, y: int)
    requires rect.Has(x, y)
    ensures (y - rect.y) * rect.width >= 0
    ensures (y - rect.y) * rect.width + rect.width <= rect.width * rect.height
  {
    assert (y - rect.y + 1) * rect.width <= rect.height * rect.width;
    assert (y - rect.y + 1) * rect.width == (y - rect.y) * rect.width + rect.width;
  }

  /** The part of a rectangle that a decoded image fills. */
  function Filled(rect: Rect, image: Decoded): Rect {
    rect.(width := Min(rect.width, image.width), height := Min(rect.height, image.height))
  }

  function Decompressed(p: Picture, rect: Rect, image: Decoded, x: int, y: int): Pixel
    requires p.Ok() && p.InBounds(x, y)
  {
    if !Filled(rect, image).Has(x, y) then p.At(x, y)
    else
      RowInImage(image, x - rect.x, y - rect.y);
      image.pixels[(y - rect.y) * image.width + (x - rect.x)]
  }

  lemma RowInImage(image: Decoded, u: int, v: int)
    requires 0 <= u < image.width && 0 <= v < image.height
    ensures 0 <= v * image.width + u < |image.pixels|
  {
    assert (v + 1) * image.width <= image.height * image.width;
    assert (v + 1) * image.width == v * image.width + image.width;
  }

  /** Every pixel at once: sources are read before anything is written. */
  function Copied(p: Picture, srcX: u16, srcY: u16, dst: Rect, x: int, y: int): Pixel
    requires p.Ok() && p.InBounds(x, y)
  {
    if dst.Has(x, y) && p.InBounds(srcX + (x - dst.x), srcY + (y - dst.y))
    then p.At(srcX + (x - dst.x), srcY + (y - dst.y))
    else p.At(x, y)
  }

  function Composited(p: Picture, d: DecodedRect, x: int, y: int): Pixel
    requires p.Ok() && p.InBounds(x, y)
  {
    if d.rect.IsEmpty() then p.At(x, y)
    else
      match d.payload
      case Rgba(pixels) => Blitted(p, d.rect, pixels, x, y)
      case Jpeg(None) => p.At(x, y)
      case Jpeg(Some(image)) => Decompressed(p, d.rect, image, x, y)
      case CopyRect(srcX, srcY) => Copied(p, srcX, srcY, d.rect, x, y)
      case H264(_) => p.At(x, y)
  }

  /** A picture and the history of its coverage. */
  datatype MirrorState = MirrorState(picture: Picture, marks: seq<Mark>) {
    predicate Ok() {
      picture.Ok()
    }

    ghost function SceneOf(region: Rect): Scene {
      Scene(marks, picture.width, picture.height, region)
    }
  }

  /** What the rectangle does to the coverage. */
  ghost function MarkFor(s: MirrorState, d: DecodedRect): seq<Mark> {
    var r := d.rect;
    if r.IsEmpty() then []
    else
      match d.payload
      case Rgba(pixels) => if |pixels| < r.width * r.height then [StaleMark(r)] else [WriteMark(r)]
      case Jpeg(None) => [StaleMark(r)]
      case Jpeg(Some(image)) => [WriteMark(Filled(r, image))]
      case CopyRect(srcX, srcY) =>
        if AllWritten(s.SceneOf(Rect(srcX, srcY, r.width, r.height))) then [WriteMark(r)] else [StaleMark(r)]
      case H264(control) => if control then [] else [StaleMark(r)]
  }

  /** Pixels that cannot be compared count as changed. */
  predicate Unknowable(d: DecodedRect) {
    && !d.rect.IsEmpty()
    && match d.payload
       case Rgba(pixels) => |pixels| < d.rect.width * d.rect.height
       case Jpeg(decoded) => decoded.None?
       case CopyRect(_, _) => false
       case H264(control) => !control
  }

  ghost function CompositedPicture(p: Picture, d: DecodedRect): (q: Picture)
    requires p.Ok()
    ensures q.Ok() && q.width == p.width && q.height == p.height
  {
    Painted(p.width, p.height, (x, y) => if p.InBounds(x, y) then Composited(p, d, x, y) else 0)
  }

  lemma CompositedAt(p: Picture, d: DecodedRect, x: int, y: int)
    requires p.Ok() && p.InBounds(x, y)
    ensures CompositedPicture(p, d).At(x, y) == Composited(p, d, x, y)
  {
    PaintedAt(p.width, p.height, (u, v) => if p.InBounds(u, v) then Composited(p, d, u, v) else 0, x, y);
  }

  ghost function ApplyRect(s: MirrorState, d: DecodedRect): (t: MirrorState)
    requires s.Ok()
    ensures t.Ok() && t.picture.width == s.picture.width && t.picture.height == s.picture.height
  {
    MirrorState(CompositedPicture(s.picture, d), s.marks + MarkFor(s, d))
  }

  ghost function ApplyAll(s: MirrorState, rects: seq<DecodedRect>): (t: MirrorState)
    requires s.Ok()
    ensures t.Ok() && t.picture.width == s.picture.width && t.picture.height == s.picture.height
  {
    if rects == [] then s else ApplyRect(ApplyAll(s, rects[..|rects| - 1]), rects[|rects| - 1])
  }

  /** Pixels that overlap are kept, anchored at the top left. */
  ghost function ResizedPicture(p: Picture, width: u16, height: u16): (q: Picture)
    requires p.Ok()
    ensures q.Ok() && q.width == width && q.height == height
  {
    Painted(width, height, (x, y) => if p.InBounds(x, y) then p.At(x, y) else OPAQUE_BLACK)
  }

  /** The overlap keeps its pixels and nothing stays covered, unless the size is the
      one there was. */
  ghost function Resize(s: MirrorState, width: u16, height: u16): (t: MirrorState)
    requires s.Ok()
    ensures t.Ok() && t.picture.width == width && t.picture.height == height
  {
    if width == s.picture.width && height == s.picture.height then s
    else MirrorState(ResizedPicture(s.picture, width, height), [])
  }

  ghost function Fresh(width: u16, height: u16): (s: MirrorState)
    ensures s.Ok() && s.picture.width == width && s.picture.height == height
  {
    MirrorState(Painted(width, height, (_, _) => OPAQUE_BLACK), [])
  }
}
