// The main program's work split: the image is cut into TILE_SIZE x
// TILE_SIZE tiles, and each tile is rendered pixel by pixel into the frame
// buffer. The thread pool that runs the tiles concurrently is not modelled;
// each tile is rendered by one sequential call.
module ImageTiles {
  import opened Floats
  import opened Vectors
  import opened Tracing
  import opened Rendering
  import opened Frames

  const IMAGE_WIDTH: nat := 800
  const IMAGE_HEIGHT: nat := 800
  /** The edge length of a tile. */
  const TILE_SIZE: nat := 32

  /** A region of the screen: pixels minX <= x < maxX, minY <= y < maxY. */
  datatype Tile = Tile(minX: int, maxX: int, minY: int, maxY: int)

  predicate Contains(t: Tile, x: int, y: int)
  {
    t.minX <= x < t.maxX && t.minY <= y < t.maxY
  }

  function MinInt(a: int, b: int): int
  {
    if a < b then a else b
  }

  /** The tile whose corner is (x, y), clipped to the image. */
  function TileAt(width: nat, height: nat, x: int, y: int): Tile
  {
    Tile(x, MinInt(x + TILE_SIZE, width), y, MinInt(y + TILE_SIZE, height))
  }

  /** How many tiles fit along an edge of n pixels: ceil(n / TILE_SIZE). */
  function TilesAlong(n: nat): nat
  {
    (n + TILE_SIZE - 1) / TILE_SIZE
  }

  /** The first m tiles of the column at x = TILE_SIZE * a, top to bottom. */
  function ColumnTiles(width: nat, height: nat, a: nat, m: nat): (r: seq<Tile>)
    ensures |r| == m
  {
    if m == 0 then [] else ColumnTiles(width, height, a, m - 1) + [TileAt(width, height, TILE_SIZE * a, TILE_SIZE * (m - 1))]
  }

  /** The first n full columns, left to right. */
  function GridTiles(width: nat, height: nat, n: nat): (r: seq<Tile>)
    ensures |r| == n * TilesAlong(height)
  {
    if n == 0 then [] else GridTiles(width, height, n - 1) + ColumnTiles(width, height, n - 1, TilesAlong(height))
  }

  /** Every tile of the image, in the order the two loops push them. */
  function ImageTileList(width: nat, height: nat): (r: seq<Tile>)
    ensures |r| == TilesAlong(width) * TilesAlong(height)
  {
    GridTiles(width, height, TilesAlong(width))
  }

  /** How many tiles of a list contain pixel (x, y). */
  function CountContaining(ts: seq<Tile>, x: int, y: int): nat
  {
    if |ts| == 0 then 0 else CountContaining(ts[..|ts| - 1], x, y) + (if Contains(ts[|ts| - 1], x, y) then 1 else 0)
  }

  lemma {:induction false} CountAppend(s: seq<Tile>, t: seq<Tile>, x: int, y: int)
    ensures CountContaining(s + t, x, y) == CountContaining(s, x, y) + CountContaining(t, x, y)
  {
    if |t| > 0 {
      CountAppend(s, t[..|t| - 1], x, y);
      assert (s + t)[..|s + t| - 1] == s + t[..|t| - 1];
    } else {
      assert s + t == s;
    }
  }

  /** Within an image column, pixel (x, y) of the image lies in exactly the tile of its row band, once. */
  lemma {:induction false} ColumnCount(width: nat, height: nat, a: nat, m: nat, x: int, y: int)
    requires 0 <= y < height && TILE_SIZE * a <= x < MinInt(TILE_SIZE * a + TILE_SIZE, width)
    ensures CountContaining(ColumnTiles(width, height, a, m), x, y) == (if y < TILE_SIZE * m then 1 else 0)
  {
    if m > 0 {
      ColumnCount(width, height, a, m - 1, x, y);
    }
  }

  /** A column whose band does not hold x contains pixel (x, y) nowhere. */
  lemma {:induction false} ColumnMisses(width: nat, height: nat, a: nat, m: nat, x: int, y: int)
    requires !(TILE_SIZE * a <= x < MinInt(TILE_SIZE * a + TILE_SIZE, width))
    ensures CountContaining(ColumnTiles(width, height, a, m), x, y) == 0
  {
    if m > 0 {
      ColumnMisses(width, height, a, m - 1, x, y);
    }
  }

  /** The first n columns contain an image pixel once if its x is in their span, and not at all otherwise. */
  lemma {:induction false} GridCount(width: nat, height: nat, n: nat, x: int, y: int)
    requires 0 <= x < width && 0 <= y < height
    ensures CountContaining(GridTiles(width, height, n), x, y) == (if x < TILE_SIZE * n then 1 else 0)
  {
    if n > 0 {
      var a := n - 1;
      GridCount(width, height, a, x, y);
      CountAppend(GridTiles(width, height, a), ColumnTiles(width, height, a, TilesAlong(height)), x, y);
      if TILE_SIZE * a <= x < MinInt(TILE_SIZE * a + TILE_SIZE, width) {
        ColumnCount(width, height, a, TilesAlong(height), x, y);
      } else {
        ColumnMisses(width, height, a, TilesAlong(height), x, y);
      }
    }
  }

  /** The tiles cover every pixel of the image exactly once. */
  lemma TilesCoverOnce(width: nat, height: nat, x: int, y: int)
    requires 0 <= x < width && 0 <= y < height
    ensures CountContaining(ImageTileList(width, height), x, y) == 1
  {
    GridCount(width, height, TilesAlong(width), x, y);
  }

  /** A tile with min < max on both axes, at most TILE_SIZE across, inside the image. */
  predicate WellFormedTile(t: Tile, width: nat, height: nat)
  {
    0 <= t.minX < t.maxX <= width && t.maxX - t.minX <= TILE_SIZE
    && 0 <= t.minY < t.maxY <= height && t.maxY - t.minY <= TILE_SIZE
  }

  lemma {:induction false} ColumnWellFormed(width: nat, height: nat, a: nat, m: nat)
    requires TILE_SIZE * a < width && m <= TilesAlong(height)
    ensures forall k :: 0 <= k < m ==> WellFormedTile(ColumnTiles(width, height, a, m)[k], width, height)
  {
    if m > 0 {
      ColumnWellFormed(width, height, a, m - 1);
      var c := ColumnTiles(width, height, a, m);
      assert c[..m - 1] == ColumnTiles(width, height, a, m - 1);
    }
  }

  lemma {:induction false} GridWellFormed(width: nat, height: nat, n: nat)
    requires n <= TilesAlong(width)
    ensures forall k :: 0 <= k < |GridTiles(width, height, n)| ==> WellFormedTile(GridTiles(width, height, n)[k], width, height)
  {
    if n > 0 {
      GridWellFormed(width, height, n - 1);
      var g, c := GridTiles(width, height, n - 1), ColumnTiles(width, height, n - 1, TilesAlong(height));
      ColumnWellFormed(width, height, n - 1, TilesAlong(height));
      forall k | 0 <= k < |g + c|
        ensures WellFormedTile((g + c)[k], width, height)
      {
        if k < |g| {
          assert (g + c)[k] == g[k];
        } else {
          assert (g + c)[k] == c[k - |g|];
        }
      }
    }
  }

  /** Every generated tile has min < max, extent at most TILE_SIZE and max within the image. */
  lemma TilesWellFormed(width: nat, height: nat)
    ensures forall k :: 0 <= k < |ImageTileList(width, height)| ==> WellFormedTile(ImageTileList(width, height)[k], width, height)
  {
    GridWellFormed(width, height, TilesAlong(width));
  }

  /** The tile loop of main: x in the outer loop, y in the inner loop, both stepping by TILE_SIZE. */
  method GenerateTiles(width: nat, height: nat) returns (tiles: seq<Tile>)
    ensures tiles == ImageTileList(width, height)
  {
    tiles := [];
    var x := 0;
    var a := 0;
    while x < width
      invariant x == TILE_SIZE * a && a <= TilesAlong(width)
      invariant tiles == GridTiles(width, height, a)
      decreases width - x
    {
      var y := 0;
      var b := 0;
      while y < height
        invariant y == TILE_SIZE * b && b <= TilesAlong(height)
        invariant tiles == GridTiles(width, height, a) + ColumnTiles(width, height, a, b)
        decreases height - y
      {
        var tile := Tile(x, MinInt(x + TILE_SIZE, width), y, MinInt(y + TILE_SIZE, height));
        tiles := tiles + [tile];
        y := y + TILE_SIZE;
        b := b + 1;
      }
      x := x + TILE_SIZE;
      a := a + 1;
    }
  }

  // ---------------------------------------------------------------- rendering a tile

  /** (u08)(255 * max(min(c, 1), 0)): the channel clamped to [0, 1], scaled and truncated. */
  function Quantize(c: real): (b: Byte)
    ensures c <= 0.0 ==> b == 0
    ensures c >= 1.0 ==> b == 255
    ensures 0.0 <= c <= 1.0 ==> b as real <= 255.0 * c < b as real + 1.0
  {
    var scaled := 255.0 * Max(Min(c, 1.0), 0.0);
    scaled.Floor as Byte
  }

  /** Quantisation preserves order. */
  lemma QuantizeMonotone(c: real, d: real)
    requires c <= d
    ensures Quantize(c) <= Quantize(d)
  {
    var sc := 255.0 * Max(Min(c, 1.0), 0.0);
    var sd := 255.0 * Max(Min(d, 1.0), 0.0);
    assert sc <= sd;
  }

  /** Component `c` of a colour: x, y, z for 0, 1, 2. */
  function Channel(v: Vector3, c: int): real
  {
    if c == 0 then v.x else if c == 1 then v.y else v.z
  }

  /** The colour the renderer gives pixel (x, y). */
  function RenderedColor(renderer: Renderer, x: nat, y: nat, imageWidth: nat, camera: Camera, draws: (nat, nat) -> Draws): Vector3
    reads renderer
    requires renderer.Valid() && PositiveIndices(renderer.world)
  {
    PixelColor(renderer.world, renderer.samplePatterns[PatternIndex(x, y, imageWidth, |renderer.samplePatterns|)],
               renderer.samplesPerPixel, x, y, camera, draws(x, y))
  }

  /** The three stores through getPixelPtr(i, j): the three bytes from its offset become r, g, b; no other byte changes. */
  method StorePixel(fb: FrameBuffer, i: nat, j: nat, r: Byte, g: Byte, b: Byte)
    requires fb.Valid() && i < fb.width && j < fb.height
    modifies fb.image
    ensures forall k :: 0 <= k < fb.image.Length ==>
      fb.image[k] ==
        if k == PixelByte(fb.width, i, j, 0) then r
        else if k == PixelByte(fb.width, i, j, 1) then g
        else if k == PixelByte(fb.width, i, j, 2) then b
        else old(fb.image[k])
  {
    var p := fb.GetPixelPtr(i, j);
    fb.image[p] := r;
    fb.image[p + 1] := g;
    fb.image[p + 2] := b;
  }

  /** Byte c of pixel (x, y) is one of the three bytes of pixel (i, j) exactly when the pixels are the same, and then it is byte c. */
  lemma PixelSlot(width: nat, height: nat, x: int, y: int, c: int, i: int, j: int)
    requires 0 <= x < width && 0 <= y < height && 0 <= c < 3
    requires 0 <= i < width && 0 <= j < height
    ensures 0 <= PixelByte(width, x, y, c) < width * height * 3
    ensures PixelByte(width, x, y, c) == PixelByte(width, i, j, 0) <==> x == i && y == j && c == 0
    ensures PixelByte(width, x, y, c) == PixelByte(width, i, j, 1) <==> x == i && y == j && c == 1
    ensures PixelByte(width, x, y, c) == PixelByte(width, i, j, 2) <==> x == i && y == j && c == 2
  {
    PixelByteInBounds(width, height, x, y, c);
    if PixelByte(width, x, y, c) == PixelByte(width, i, j, 0) {
      PixelBytesDistinct(width, x, y, c, i, j, 0);
    }
    if PixelByte(width, x, y, c) == PixelByte(width, i, j, 1) {
      PixelBytesDistinct(width, x, y, c, i, j, 1);
    }
    if PixelByte(width, x, y, c) == PixelByte(width, i, j, 2) {
      PixelBytesDistinct(width, x, y, c, i, j, 2);
    }
  }

  /** Pixel (x, y) of a tile has been rendered once the row loop is past row y, or on row y past column x. */
  predicate Rendered(t: Tile, x: int, y: int, i: int, j: int)
  {
    Contains(t, x, y) && (y < j || (y == j && x < i))
  }

  /** The byte renderTile stores for channel c of pixel (x, y). */
  function TileByte(renderer: Renderer, x: nat, y: nat, c: int, imageWidth: nat, camera: Camera, draws: (nat, nat) -> Draws): Byte
    reads renderer
    requires renderer.Valid() && PositiveIndices(renderer.world)
  {
    Quantize(Channel(RenderedColor(renderer, x, y, imageWidth, camera, draws), c))
  }

  /** The buffer `img` holds the colours of the tile's pixels rendered before (i, j), and `orig` everywhere else. */
  ghost predicate Painted(renderer: Renderer, imageWidth: nat, camera: Camera, draws: (nat, nat) -> Draws,
                          tile: Tile, width: nat, height: nat, img: seq<Byte>, orig: seq<Byte>, i: int, j: int)
    reads renderer
    requires renderer.Valid() && PositiveIndices(renderer.world)
  {
    |img| == |orig| == width * height * 3 &&
    forall x: nat, y: nat, c :: x < width && y < height && 0 <= c < 3 ==>
      (PixelByteInBounds(width, height, x, y, c);
       img[PixelByte(width, x, y, c)] ==
         if Rendered(tile, x, y, i, j) then TileByte(renderer, x, y, c, imageWidth, camera, draws)
         else orig[PixelByte(width, x, y, c)])
  }

  /** Storing the colour of pixel (i, j) of the tile moves the frontier one pixel to the right. */
  lemma PaintPixel(renderer: Renderer, imageWidth: nat, camera: Camera, draws: (nat, nat) -> Draws,
                   tile: Tile, width: nat, height: nat, img: seq<Byte>, img': seq<Byte>, orig: seq<Byte>, i: nat, j: nat)
    requires renderer.Valid() && PositiveIndices(renderer.world)
    requires Painted(renderer, imageWidth, camera, draws, tile, width, height, img, orig, i, j)
    requires Contains(tile, i, j) && i < width && j < height && |img'| == |img|
    requires forall k :: 0 <= k < |img| ==>
      img'[k] ==
        if k == PixelByte(width, i, j, 0) then TileByte(renderer, i, j, 0, imageWidth, camera, draws)
        else if k == PixelByte(width, i, j, 1) then TileByte(renderer, i, j, 1, imageWidth, camera, draws)
        else if k == PixelByte(width, i, j, 2) then TileByte(renderer, i, j, 2, imageWidth, camera, draws)
        else img[k]
    ensures Painted(renderer, imageWidth, camera, draws, tile, width, height, img', orig, i + 1, j)
  {
    forall x: nat, y: nat, c | x < width && y < height && 0 <= c < 3
      ensures (PixelByteInBounds(width, height, x, y, c);
               img'[PixelByte(width, x, y, c)] ==
                 if Rendered(tile, x, y, i + 1, j) then TileByte(renderer, x, y, c, imageWidth, camera, draws)
                 else orig[PixelByte(width, x, y, c)])
    {
      PixelSlot(width, height, x, y, c, i, j);
      var k := PixelByte(width, x, y, c);
      if x == i && y == j {
        assert img'[k] == TileByte(renderer, i, j, c, imageWidth, camera, draws);
      } else {
        assert img'[k] == img[k];
      }
    }
  }

  /** Finishing row j of the tile is starting row j + 1 at the tile's left edge. */
  lemma NextRow(renderer: Renderer, imageWidth: nat, camera: Camera, draws: (nat, nat) -> Draws,
                tile: Tile, width: nat, height: nat, img: seq<Byte>, orig: seq<Byte>, i: int, j: int)
    requires renderer.Valid() && PositiveIndices(renderer.world)
    requires Painted(renderer, imageWidth, camera, draws, tile, width, height, img, orig, i, j)
    requires tile.maxX <= i
    ensures Painted(renderer, imageWidth, camera, draws, tile, width, height, img, orig, tile.minX, j + 1)
  {
    forall x: nat, y: nat | true
      ensures Rendered(tile, x, y, i, j) == Rendered(tile, x, y, tile.minX, j + 1)
    {
    }
  }

  /** Once the row loop has passed the tile's last row, the buffer holds every pixel of the tile and `orig` elsewhere. */
  lemma PaintedTile(renderer: Renderer, imageWidth: nat, camera: Camera, draws: (nat, nat) -> Draws,
                    tile: Tile, width: nat, height: nat, img: seq<Byte>, orig: seq<Byte>, j: int)
    requires renderer.Valid() && PositiveIndices(renderer.world)
    requires Painted(renderer, imageWidth, camera, draws, tile, width, height, img, orig, tile.minX, j)
    requires tile.maxY <= j && (tile.minY < tile.maxY ==> j == tile.maxY) && tile.minY <= j
    ensures |img| == |orig| == width * height * 3
    ensures forall x: nat, y: nat, c :: x < width && y < height && 0 <= c < 3 ==>
      (PixelByteInBounds(width, height, x, y, c);
       img[PixelByte(width, x, y, c)] ==
         if Contains(tile, x, y) then TileByte(renderer, x, y, c, imageWidth, camera, draws)
         else orig[PixelByte(width, x, y, c)])
  {
    forall x: nat, y: nat | true
      ensures Rendered(tile, x, y, tile.minX, j) == Contains(tile, x, y)
    {
    }
  }

  /**
   * renderTile: rows of the tile top to bottom, pixels left to right; each
   * pixel's colour is quantised into its three bytes. Exactly the bytes of
   * the tile's pixels are written.
   */
  method RenderTile(renderer: Renderer, fb: FrameBuffer, tile: Tile, imageWidth: nat, camera: Camera, draws: (nat, nat) -> Draws)
    requires renderer.Valid() && PositiveIndices(renderer.world) && fb.Valid()
    requires 0 <= tile.minX && tile.maxX <= fb.width && 0 <= tile.minY && tile.maxY <= fb.height
    modifies fb.image
    ensures forall x: nat, y: nat, c :: x < fb.width && y < fb.height && 0 <= c < 3 ==>
      (PixelByteInBounds(fb.width, fb.height, x, y, c);
       fb.image[PixelByte(fb.width, x, y, c)] ==
         if Contains(tile, x, y) then TileByte(renderer, x, y, c, imageWidth, camera, draws)
         else old(fb.image[PixelByte(fb.width, x, y, c)]))
  {
    ghost var orig := fb.image[..];
    var j := tile.minY;
    while j < tile.maxY
      invariant tile.minY <= j && (tile.minY < tile.maxY ==> j <= tile.maxY)
      invariant Painted(renderer, imageWidth, camera, draws, tile, fb.width, fb.height, fb.image[..], orig, tile.minX, j)
    {
      var i := tile.minX;
      while i < tile.maxX
        invariant tile.minX <= i && (tile.minX < tile.maxX ==> i <= tile.maxX)
        invariant Painted(renderer, imageWidth, camera, draws, tile, fb.width, fb.height, fb.image[..], orig, i, j)
      {
        var color := renderer.ColorPixel(i, j, imageWidth, camera, draws(i, j));
        ghost var before := fb.image[..];
        assert Quantize(color.x) == TileByte(renderer, i, j, 0, imageWidth, camera, draws);
        assert Quantize(color.y) == TileByte(renderer, i, j, 1, imageWidth, camera, draws);
        assert Quantize(color.z) == TileByte(renderer, i, j, 2, imageWidth, camera, draws);
        StorePixel(fb, i, j, Quantize(color.x), Quantize(color.y), Quantize(color.z));
        PaintPixel(renderer, imageWidth, camera, draws, tile, fb.width, fb.height, before, fb.image[..], orig, i, j);
        i := i + 1;
      }
      NextRow(renderer, imageWidth, camera, draws, tile, fb.width, fb.height, fb.image[..], orig, i, j);
      j := j + 1;
    }
    PaintedTile(renderer, imageWidth, camera, draws, tile, fb.width, fb.height, fb.image[..], orig, j);
    forall x: nat, y: nat, c | x < fb.width && y < fb.height && 0 <= c < 3
      ensures (PixelByteInBounds(fb.width, fb.height, x, y, c);
               fb.image[PixelByte(fb.width, x, y, c)] ==
                 if Contains(tile, x, y) then TileByte(renderer, x, y, c, imageWidth, camera, draws)
                 else old(fb.image[PixelByte(fb.width, x, y, c)]))
    {
      PixelByteInBounds(fb.width, fb.height, x, y, c);
      var k := PixelByte(fb.width, x, y, c);
      assert fb.image[k] == fb.image[..][k] && old(fb.image[k]) == orig[k];
    }
  }
}
