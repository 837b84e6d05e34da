/** Where things go on the 1080 × 1080 canvas: the four tiles, the caption and its backing
    rectangle. Pixels are not modelled; instead `Owner` and `Paint` say which pasted tile or
    drawn shape a canvas pixel shows. */
module Layout {
  import opened Options
  import opened Imaging

  const CanvasSize: nat := 1080
  /** Half the canvas, with Python's floor division. */
  const TileSize: nat := CanvasSize / 2
  /** Space between the measured caption box and the edge of its backing rectangle. */
  const Padding: int := 10
  /** Space between the bottom of the measured caption box and the bottom of the canvas. */
  const BottomMargin: int := 30

  datatype Point = Point(x: int, y: int)

  /** An image stretched (not cropped) to `side` × `side` and pasted with its top-left corner at `at`. */
  datatype Placement = Placement(image: Image, at: Point, side: nat)

  /** Top-left, top-right, bottom-left, bottom-right. */
  const Positions: seq<Point> :=
    [Point(0, 0), Point(TileSize, 0), Point(0, TileSize), Point(TileSize, TileSize)]

  predicate OnCanvas(x: int, y: int) {
    0 <= x < CanvasSize && 0 <= y < CanvasSize
  }

  /** A paste at (x0, y0) of a `side`-square image sets the pixels x0 <= x < x0 + side, y0 <= y < y0 + side. */
  predicate Covers(p: Placement, x: int, y: int) {
    p.at.x <= x < p.at.x + p.side && p.at.y <= y < p.at.y + p.side
  }

  /** `zip(images, positions)`: image k goes to position k, and the shorter input bounds the pairing. */
  function Place(images: seq<Image>): (tiles: seq<Placement>)
    ensures |tiles| == if |images| < |Positions| then |images| else |Positions|
    ensures forall k :: 0 <= k < |tiles| ==> tiles[k] == Placement(images[k], Positions[k], TileSize)
  {
    var n := if |images| < |Positions| then |images| else |Positions|;
    seq(n, k requires 0 <= k < n => Placement(images[k], Positions[k], TileSize))
  }

  /** The tile a pixel shows after the pastes, in order: the last paste covering it wins;
      `None` leaves the white background. */
  function Owner(tiles: seq<Placement>, x: int, y: int): (r: Option<nat>)
    ensures r.Some? ==>
      && r.value < |tiles|
      && Covers(tiles[r.value], x, y)
      && forall j :: r.value < j < |tiles| ==> !Covers(tiles[j], x, y)
    ensures r.None? ==> forall j :: 0 <= j < |tiles| ==> !Covers(tiles[j], x, y)
  {
    if tiles == [] then None
    else if Covers(tiles[|tiles| - 1], x, y) then Some(|tiles| - 1)
    else Owner(tiles[..|tiles| - 1], x, y)
  }

  /** The quadrant of a canvas pixel in reading order: left to right, then top to bottom. */
  function Quadrant(x: int, y: int): (k: nat)
    requires OnCanvas(x, y)
    ensures k < 4
  {
    var row := if y < TileSize then 0 else 1;
    var column := if x < TileSize then 0 else 1;
    2 * row + column
  }

  /** The four tiles lie on the canvas, and each canvas pixel is covered by exactly one of
      them, the one of its quadrant: the tiles are pairwise disjoint and their union is the canvas. */
  lemma TilesPartitionCanvas(images: seq<Image>)
    requires |images| == 4
    ensures TileSize == 540
    ensures Positions == [Point(0, 0), Point(540, 0), Point(0, 540), Point(540, 540)]
    ensures forall k, x, y :: 0 <= k < 4 && Covers(Place(images)[k], x, y) ==> OnCanvas(x, y)
    ensures forall k, x, y :: 0 <= k < 4 && OnCanvas(x, y) ==>
              (Covers(Place(images)[k], x, y) <==> k == Quadrant(x, y))
  {
  }

  /** Every canvas pixel shows the tile of its quadrant, that is the image with the same
      index in the input; nothing off the canvas is covered. */
  lemma OwnerIsQuadrant(images: seq<Image>, x: int, y: int)
    requires |images| == 4
    ensures OnCanvas(x, y) ==>
              && Owner(Place(images), x, y) == Some(Quadrant(x, y))
              && Place(images)[Quadrant(x, y)].image == images[Quadrant(x, y)]
    ensures !OnCanvas(x, y) ==> Owner(Place(images), x, y) == None
  {
    TilesPartitionCanvas(images);
    var r := Owner(Place(images), x, y);
    if OnCanvas(x, y) {
      assert Covers(Place(images)[Quadrant(x, y)], x, y);
    }
  }

  /** The caption's measured box, `draw.textbbox((0, 0), text, font)` = (left, top, right, bottom),
      held as its offset and its size (right - left, bottom - top). Relative to the point the text
      is drawn at, the glyph bitmap covers columns left <= x < right and rows top <= y < bottom. */
  datatype TextBox = TextBox(left: int, top: int, width: nat, height: nat)

  /** A rectangle by its corners, as `draw.rectangle` takes them; both corners are painted. */
  datatype Rect = Rect(x0: int, y0: int, x1: int, y1: int)

  predicate InRect(r: Rect, x: int, y: int) {
    r.x0 <= x <= r.x1 && r.y0 <= y <= r.y1
  }

  /** Where the caption is drawn and the rectangle drawn behind it. */
  datatype CaptionLayout = CaptionLayout(anchor: Point, backing: Rect)

  /** The box of the measured size at the draw point: what the layout centres and pads. */
  function MeasuredRect(anchor: Point, box: TextBox): Rect {
    Rect(anchor.x, anchor.y, anchor.x + box.width, anchor.y + box.height)
  }

  /** The pixels the glyph bitmap covers: the measured size placed at the draw point shifted by
      the box's own offset, right and bottom edges excluded. */
  predicate Inks(anchor: Point, box: TextBox, x: int, y: int) {
    && anchor.x + box.left <= x < anchor.x + box.left + box.width
    && anchor.y + box.top <= y < anchor.y + box.top + box.height
  }

  function LayoutCaption(box: TextBox): (c: CaptionLayout)
    // horizontally centred to within one pixel: the right margin exceeds the left by 0 or 1
    ensures var left := c.anchor.x;
            var right := CanvasSize - (c.anchor.x + box.width);
            right - left == (CanvasSize - box.width) % 2 && 0 <= right - left <= 1
    // the measured box ends BottomMargin pixels above the bottom edge
    ensures c.anchor.y + box.height == CanvasSize - BottomMargin
    // the backing rectangle surrounds the measured box with Padding on every side
    ensures var m := MeasuredRect(c.anchor, box);
            && c.backing.x0 == m.x0 - Padding && c.backing.x1 == m.x1 + Padding
            && c.backing.y0 == m.y0 - Padding && c.backing.y1 == m.y1 + Padding
    // so the rectangle's bottom edge is fixed, whatever the text height
    ensures c.backing.y1 == 1060
  {
    var x := (CanvasSize - box.width) / 2;  // floor division: Dafny's `/` by a positive divisor floors
    var y := CanvasSize - box.height - BottomMargin;
    CaptionLayout(Point(x, y), Rect(x - Padding, y - Padding, x + box.width + Padding, y + box.height + Padding))
  }

  /** Every pixel the glyphs cover lies on the backing rectangle exactly when the text inks
      nothing or the measured box's offset is between -Padding and Padding + 1 in each
      direction: the rectangle's far corner is painted, the bitmap's far edge is not. */
  lemma InkWithinBackingIff(box: TextBox)
    ensures var c := LayoutCaption(box);
            (forall x, y :: Inks(c.anchor, box, x, y) ==> InRect(c.backing, x, y))
            <==> || box.width == 0 || box.height == 0
                 || (-Padding <= box.left <= Padding + 1 && -Padding <= box.top <= Padding + 1)
  {
    var c := LayoutCaption(box);
    var a := c.anchor;
    if box.width != 0 && box.height != 0 {
      var x0, y0 := a.x + box.left, a.y + box.top;
      var x1, y1 := x0 + box.width - 1, y0 + box.height - 1;
      assert Inks(a, box, x0, y0) && Inks(a, box, x1, y1);
      if box.left < -Padding {
        assert !InRect(c.backing, x0, y0);
      } else if box.left > Padding + 1 {
        assert !InRect(c.backing, x1, y1);
      } else if box.top < -Padding {
        assert !InRect(c.backing, x0, y0);
      } else if box.top > Padding + 1 {
        assert !InRect(c.backing, x1, y1);
      }
    }
  }

  /** The composed picture: pasted tiles in paste order, then the caption over its rectangle. */
  datatype Mosaic = Mosaic(tiles: seq<Placement>, caption: string, layout: CaptionLayout)

  function Compose(images: seq<Image>, caption: string, box: TextBox): (m: Mosaic)
    ensures m.caption == caption
    ensures |images| == 4 ==> |m.tiles| == 4
  {
    Mosaic(Place(images), caption, LayoutCaption(box))
  }

  /** What covers a pixel, topmost first; the glyphs themselves are the font's and are not modelled. */
  datatype Layer = Background | Tile(index: nat) | Backing

  function Paint(m: Mosaic, x: int, y: int): Layer {
    if InRect(m.layout.backing, x, y) then Backing
    else match Owner(m.tiles, x, y)
      case None => Background
      case Some(k) => Tile(k)
  }

  /** No canvas pixel is left white, and outside the caption's rectangle each pixel shows
      the input image of its quadrant. */
  lemma BackgroundFullyCovered(images: seq<Image>, caption: string, box: TextBox, x: int, y: int)
    requires |images| == 4
    requires OnCanvas(x, y)
    ensures var m := Compose(images, caption, box);
            && Paint(m, x, y) != Background
            && (!InRect(m.layout.backing, x, y) ==>
                  Paint(m, x, y) == Tile(Quadrant(x, y)) && m.tiles[Quadrant(x, y)].image == images[Quadrant(x, y)])
  {
    OwnerIsQuadrant(images, x, y);
  }

}
