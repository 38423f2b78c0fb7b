/** The tile grid and its viewport (`GameMap` in GameMap.h/GameMap.cpp):
    three flat index layers addressed by `x + y * stride`, an image table per
    layer, and a display window positioned by a clamped offset. Extents,
    display and tile sizes are `unsigned int`; offsets are `int`. */
module TileMap {
  import opened Wrappers
  import opened MachineInts
  import opened SdlTypes

  /** `TileIndex` is `int`. */
  type TileIndex = i32

  /** A flat buffer of tile indices with a row stride. */
  datatype IndexArray = IndexArray(vec: seq<TileIndex>, stride: int)

  // ---------------------------------------------------------------------
  // IndexArray
  // ---------------------------------------------------------------------

  /** The default constructor: no cells, stride 0. */
  function EmptyIndexArray(): (r: IndexArray)
    ensures |r.vec| == 0 && r.stride == 0
  {
    IndexArray([], 0)
  }

  /** `IndexArray(width, height)`: `width * height` zero cells, stride
      `width`. The `int` product must not overflow, and a negative product
      would be converted to a huge `size_t` and the allocation would fail.
      Two negative sizes give a positive product: `IndexArray(-2, -3)` holds
      six cells with stride -2. */
  function NewIndexArray(width: int, height: int): (r: IndexArray)
    requires 0 <= width * height && IsI32(width * height)
    ensures r.stride == width && |r.vec| == width * height
    ensures forall k :: 0 <= k < |r.vec| ==> r.vec[k] == 0
  {
    IndexArray(seq(width * height, _ => 0), width)
  }

  /** The buffer position of cell (x, y). */
  function Flat(ia: IndexArray, x: int, y: int): int {
    x + y * ia.stride
  }

  /** `operator[]` is unchecked: the position must lie inside the buffer. */
  predicate InBuffer(ia: IndexArray, x: int, y: int) {
    0 <= Flat(ia, x, y) < |ia.vec|
  }

  /** `At`: the index stored for cell (x, y). */
  function At(ia: IndexArray, x: int, y: int): TileIndex
    requires InBuffer(ia, x, y)
  {
    ia.vec[Flat(ia, x, y)]
  }

  /** `Set`: cell (x, y) now holds `index`; every other buffer position,
      the buffer length and the stride are unchanged. */
  function Set(ia: IndexArray, x: int, y: int, index: TileIndex): (r: IndexArray)
    requires InBuffer(ia, x, y)
    ensures r.stride == ia.stride && |r.vec| == |ia.vec|
    ensures At(r, x, y) == index
    ensures forall k :: 0 <= k < |ia.vec| && k != Flat(ia, x, y) ==> r.vec[k] == ia.vec[k]
  {
    ia.(vec := ia.vec[Flat(ia, x, y) := index])
  }

  /** `PointAt`: the buffer position of cell (x, y), which may be one past
      the end (a valid pointer that must not be read). It addresses exactly
      the cell that `At` reads and `Set` writes. */
  function PointAt(ia: IndexArray, x: int, y: int): (p: nat)
    requires 0 <= Flat(ia, x, y) <= |ia.vec|
    ensures p <= |ia.vec|
    ensures p < |ia.vec| <==> InBuffer(ia, x, y)
    ensures p < |ia.vec| ==> ia.vec[p] == At(ia, x, y)
    ensures forall v: TileIndex {:trigger Set(ia, x, y, v)} ::
      p < |ia.vec| ==> Set(ia, x, y, v).vec[p] == v
  {
    Flat(ia, x, y)
  }

  /** Cells whose column lies in [0, stride) have distinct buffer positions. */
  lemma FlatInjective(stride: int, x: int, y: int, x2: int, y2: int)
    requires 0 <= x < stride && 0 <= x2 < stride
    requires x + y * stride == x2 + y2 * stride
    ensures x == x2 && y == y2
  {
    RowOrder(stride, x, y, x2, y2);
    RowOrder(stride, x2, y2, x, y);
    assert y == y2;
  }

  /** Every cell of a lower row comes before every cell of a higher row. */
  lemma RowOrder(stride: int, x: int, y: int, x2: int, y2: int)
    requires 0 <= x < stride && 0 <= x2 < stride
    ensures y < y2 ==> x + y * stride < x2 + y2 * stride
  {
    if y < y2 {
      MulNonNegative(y2 - y - 1, stride);
      assert (y2 - y - 1) * stride == y2 * stride - y * stride - stride;
    }
  }

  /** A cell inside a width-by-height grid lies inside its buffer. */
  lemma GridBound(width: int, height: int, x: int, y: int)
    requires 0 <= x < width && 0 <= y < height
    ensures 0 <= x + y * width < width * height
  {
    MulNonNegative(height - 1 - y, width);
    assert (height - 1 - y) * width == height * width - y * width - width;
  }

  lemma MulNonNegative(a: int, b: int)
    requires 0 <= a && 0 <= b
    ensures 0 <= a * b
  {
  }

  /** Writing one cell and reading another with a column in range returns
      what was there before; reading the written cell returns the new value. */
  lemma SetThenAt(ia: IndexArray, x: int, y: int, v: TileIndex, x2: int, y2: int)
    requires 0 <= x < ia.stride && 0 <= x2 < ia.stride
    requires InBuffer(ia, x, y) && InBuffer(ia, x2, y2)
    ensures At(Set(ia, x, y, v), x2, y2) == if x == x2 && y == y2 then v else At(ia, x2, y2)
  {
    if Flat(ia, x, y) == Flat(ia, x2, y2) {
      FlatInjective(ia.stride, x, y, x2, y2);
    }
  }

  // ---------------------------------------------------------------------
  // The map and its viewport
  // ---------------------------------------------------------------------

  datatype GameMap = GameMap(
    xExtent: u32, yExtent: u32,
    displayWidth: u32, displayHeight: u32,
    tileWidth: u32, tileHeight: u32,
    xOffset: i32, yOffset: i32,
    tiles: IndexArray, decos: IndexArray, overs: IndexArray,
    tileSurf: seq<ImageId>, decoSurf: seq<ImageId>, overSurf: seq<ImageId>)

  /** The default constructor: every size and offset zero, empty layers and
      image tables. */
  function NewGameMap(): (r: GameMap)
    ensures ViewportFits(r) && OffsetValid(r)
    ensures r.xExtent == 0 && r.yExtent == 0 && r.displayWidth == 0 && r.displayHeight == 0
    ensures r.tileWidth == 0 && r.tileHeight == 0 && r.xOffset == 0 && r.yOffset == 0
    ensures forall l: Layer :: |LayerIndices(r, l).vec| == 0 && LayerIndices(r, l).stride == 0
    ensures forall l: Layer :: |LayerImages(r, l)| == 0
  {
    GameMap(0, 0, 0, 0, 0, 0, 0, 0,
            EmptyIndexArray(), EmptyIndexArray(), EmptyIndexArray(), [], [], [])
  }

  /** The display fits inside the extent on this axis, with room to spare
      for the largest offset to be an `int`. */
  predicate AxisFits(extent: u32, display: u32) {
    display <= extent && extent - display < TWO_31
  }

  predicate ViewportFits(m: GameMap) {
    AxisFits(m.xExtent, m.displayWidth) && AxisFits(m.yExtent, m.displayHeight)
  }

  /** The viewport invariant: 0 <= offset <= extent - display on each axis. */
  predicate OffsetValid(m: GameMap) {
    && 0 <= m.xOffset <= m.xExtent - m.displayWidth
    && 0 <= m.yOffset <= m.yExtent - m.displayHeight
  }

  /** One axis of `SetOffset` as written. The largest offset
      `extent - display` is an `unsigned int`; comparing the `int` request
      with it converts the request to `unsigned int`, so a negative request
      compares as a huge value and is pulled down to the largest offset. The
      comparison with zero is between two `int`s. */
  function ClampAxis(off: i32, extent: u32, display: u32): (r: i32)
    ensures AxisFits(extent, display) ==> 0 <= r <= extent - display
    ensures AxisFits(extent, display) && 0 <= off <= extent - display ==> r == off
    ensures AxisFits(extent, display) && extent - display < off ==> r == extent - display
    ensures AxisFits(extent, display) && off < 0 ==> r == extent - display
  {
    var maxOff: u32 := SubU32(extent, display);
    var minOff: i32 := 0;
    if ToU32(off) > maxOff then ToI32(maxOff)
    else if off < minOff then minOff
    else off
  }

  /** While the display fits, the branch that raises a negative request to
      zero is never taken: the unsigned comparison has already caught it. */
  lemma ZeroBranchUnreachable(off: i32, extent: u32, display: u32)
    requires AxisFits(extent, display) && off < 0
    ensures ToU32(off) > SubU32(extent, display)
  {
    NegativeAsUnsignedIsLarge(off);
  }

  /** When the display is wider than the extent, `extent - display` wraps
      around; a request of -1 then yields the negative offset -5 (extent 5,
      display 10), outside the grid. */
  lemma ClampWhenDisplayExceedsExtent()
    ensures ClampAxis(-1, 5, 10) == -5
    ensures ClampAxis(-5, 5, 10) == 0
  {
  }

  /** The evidently intended clamp: below zero goes to zero, above the
      largest offset goes to the largest offset, anything between is kept. */
  function ClampAxisIntended(off: int, extent: u32, display: u32): (r: int)
    requires display <= extent
    ensures 0 <= r <= extent - display
    ensures 0 <= off <= extent - display ==> r == off
    ensures off < 0 ==> r == 0
    ensures extent - display < off ==> r == extent - display
  {
    var maxOff := extent - display;
    if off > maxOff then maxOff
    else if off < 0 then 0
    else off
  }

  /** The intended clamp is monotone in the request. */
  lemma ClampIntendedMonotone(a: int, b: int, extent: u32, display: u32)
    requires display <= extent && a <= b
    ensures ClampAxisIntended(a, extent, display) <= ClampAxisIntended(b, extent, display)
  {
  }

  /** The clamp as written is not monotone: -1 lands above 0. */
  lemma ClampAsWrittenNotMonotone()
    ensures ClampAxis(-1, 10, 5) == 5
    ensures ClampAxis(0, 10, 5) == 0
    ensures ClampAxisIntended(-1, 10, 5) == 0
  {
    NegativeAsUnsignedIsLarge(-1);
  }

  /** The two clamps agree on every request that is not negative. */
  lemma ClampsAgreeOnNonNegative(off: i32, extent: u32, display: u32)
    requires AxisFits(extent, display) && 0 <= off
    ensures ClampAxis(off, extent, display) == ClampAxisIntended(off, extent, display)
  {
  }

  /** `SetOffset` as written: each axis clamped on its own against the
      current extent and display size; nothing but the offsets changes. */
  function SetOffset(m: GameMap, offX: i32, offY: i32): (r: GameMap)
    ensures r.(xOffset := m.xOffset, yOffset := m.yOffset) == m
    ensures ViewportFits(m) ==> OffsetValid(r)
    ensures ViewportFits(m) && 0 <= offX <= m.xExtent - m.displayWidth ==> r.xOffset == offX
    ensures ViewportFits(m) && 0 <= offY <= m.yExtent - m.displayHeight ==> r.yOffset == offY
    ensures ViewportFits(m) && !(0 <= offX <= m.xExtent - m.displayWidth) ==>
      r.xOffset == m.xExtent - m.displayWidth
    ensures ViewportFits(m) && !(0 <= offY <= m.yExtent - m.displayHeight) ==>
      r.yOffset == m.yExtent - m.displayHeight
    ensures r.xOffset == ClampAxis(offX, m.xExtent, m.displayWidth)
    ensures r.yOffset == ClampAxis(offY, m.yExtent, m.displayHeight)
  {
    m.(xOffset := ClampAxis(offX, m.xExtent, m.displayWidth),
       yOffset := ClampAxis(offY, m.yExtent, m.displayHeight))
  }

  /** Setting the offset to the current, clamped offset changes nothing. */
  lemma SetOffsetIdempotent(m: GameMap, offX: i32, offY: i32)
    requires ViewportFits(m)
    ensures var r := SetOffset(m, offX, offY); SetOffset(r, r.xOffset, r.yOffset) == r
  {
  }

  /** A negative request lands on the largest offset, not on zero: on a
      10-wide map with a 5-wide display, `SetOffset(-1, -1)` gives (5, 5). */
  lemma SetOffsetNegativeGoesToMax(m: GameMap)
    requires m.xExtent == 10 && m.displayWidth == 5 && m.yExtent == 10 && m.displayHeight == 5
    ensures SetOffset(m, -1, -1).xOffset == 5 && SetOffset(m, -1, -1).yOffset == 5
    ensures SetOffsetIntended(m, -1, -1).xOffset == 0 && SetOffsetIntended(m, -1, -1).yOffset == 0
  {
    NegativeAsUnsignedIsLarge(-1);
  }

  /** `SetOffset` with the intended clamp on both axes. */
  function SetOffsetIntended(m: GameMap, offX: i32, offY: i32): (r: GameMap)
    requires ViewportFits(m)
    ensures r.(xOffset := m.xOffset, yOffset := m.yOffset) == m
    ensures OffsetValid(r)
    ensures offX < 0 ==> r.xOffset == 0
    ensures offY < 0 ==> r.yOffset == 0
    ensures 0 <= offX <= m.xExtent - m.displayWidth ==> r.xOffset == offX
    ensures 0 <= offY <= m.yExtent - m.displayHeight ==> r.yOffset == offY
    ensures offX > m.xExtent - m.displayWidth ==> r.xOffset == m.xExtent - m.displayWidth
    ensures offY > m.yExtent - m.displayHeight ==> r.yOffset == m.yExtent - m.displayHeight
    ensures r.xOffset == ClampAxisIntended(offX, m.xExtent, m.displayWidth)
    ensures r.yOffset == ClampAxisIntended(offY, m.yExtent, m.displayHeight)
  {
    m.(xOffset := ClampAxisIntended(offX, m.xExtent, m.displayWidth),
       yOffset := ClampAxisIntended(offY, m.yExtent, m.displayHeight))
  }

  /** `DeltaOffset`: the request is the current offset plus the delta (an
      `int` sum, which must not overflow), clamped as by `SetOffset`. A delta
      that stays inside the valid range moves the offset by exactly that
      delta. */
  function DeltaOffset(m: GameMap, dx: i32, dy: i32): (r: GameMap)
    requires IsI32(m.xOffset + dx) && IsI32(m.yOffset + dy)
    ensures r == SetOffset(m, m.xOffset + dx, m.yOffset + dy)
    ensures ViewportFits(m) ==> OffsetValid(r)
    ensures ViewportFits(m) && 0 <= m.xOffset + dx <= m.xExtent - m.displayWidth ==> r.xOffset == m.xOffset + dx
    ensures ViewportFits(m) && 0 <= m.yOffset + dy <= m.yExtent - m.displayHeight ==> r.yOffset == m.yOffset + dy
  {
    var newX: i32 := m.xOffset + dx;
    var newY: i32 := m.yOffset + dy;
    SetOffset(m, newX, newY)
  }

  // ---------------------------------------------------------------------
  // LoadTestMap
  // ---------------------------------------------------------------------

  /** The exception thrown when no tile images are loaded. */
  datatype MapError = NoTilesLoaded

  /** Every stored index picks one of `count` images. */
  predicate IndicesBelow(ia: IndexArray, count: nat) {
    forall k :: 0 <= k < |ia.vec| ==> 0 <= ia.vec[k] < count
  }

  /** The inner loop of the generator from column `x` on: cell (x', y) for
      each remaining column x' receives the draw numbered `x' + y * nx`,
      the number of draws made before it. `rowStart` is `y * nx`. */
  function FillRow(ia: IndexArray, nx: nat, y: nat, rowStart: nat, x: nat, draws: seq<TileIndex>): (r: IndexArray)
    requires ia.stride == nx && |ia.vec| == |draws|
    requires rowStart == y * nx && rowStart + nx <= |ia.vec| && x <= nx
    ensures r.stride == nx && |r.vec| == |ia.vec|
    ensures forall k :: rowStart + x <= k < rowStart + nx ==> r.vec[k] == draws[k]
    ensures forall k :: 0 <= k < |ia.vec| && !(rowStart + x <= k < rowStart + nx) ==> r.vec[k] == ia.vec[k]
    decreases nx - x
  {
    if x == nx then ia
    else
      assert Flat(ia, x, y) == x + rowStart;
      FillRow(Set(ia, x, y, draws[x + rowStart]), nx, y, rowStart, x + 1, draws)
  }

  /** The outer loop of the generator from row `y` on. */
  function FillRows(ia: IndexArray, nx: nat, ny: nat, y: nat, draws: seq<TileIndex>): (r: IndexArray)
    requires ia.stride == nx && |ia.vec| == nx * ny && |draws| == nx * ny
    requires y <= ny
    ensures r.stride == nx && |r.vec| == nx * ny
    ensures forall k :: y * nx <= k < nx * ny ==> r.vec[k] == draws[k]
    ensures forall k :: 0 <= k < y * nx ==> r.vec[k] == ia.vec[k]
    decreases ny - y
  {
    if y == ny then ia
    else
      RowsFit(nx, ny, y);
      var row := FillRow(ia, nx, y, y * nx, 0, draws);
      FillRows(row, nx, ny, y + 1, draws)
  }

  /** Row `y` of an `nx`-wide, `ny`-high grid ends where row `y + 1`
      starts, inside the buffer. */
  lemma RowsFit(nx: nat, ny: nat, y: nat)
    requires y < ny
    ensures (y + 1) * nx == y * nx + nx
    ensures y * nx + nx <= nx * ny
  {
    MulNonNegative(ny - y - 1, nx);
    assert (ny - y - 1) * nx == nx * ny - y * nx - nx;
  }

  /** Filling a grid row by row, column by column, with the draws in the
      order they are made stores draw number `k` at buffer position `k`. */
  lemma FillStoresDrawsInOrder(ia: IndexArray, nx: nat, ny: nat, draws: seq<TileIndex>)
    requires ia.stride == nx && |ia.vec| == nx * ny && |draws| == nx * ny
    ensures FillRows(ia, nx, ny, 0, draws).vec == draws
  {
    var r := FillRows(ia, nx, ny, 0, draws);
    assert forall k :: 0 <= k < nx * ny ==> r.vec[k] == draws[k];
  }

  /** `LoadTestMap(nx, ny)`. The extents and the display size become
      (nx, ny), the tiles 32 by 32 pixels, and all three layers nx by ny zero
      cells; only then is the image table checked, so on failure the map is
      left resized. Otherwise the base layer is filled with one random draw
      per cell, row by row. After each row the first cell of the row is
      read for a log line; with no columns and at least one row that read
      is past the end of the empty buffer, hence the second precondition.
      The random engine is not modelled: `draws` are its results, each a
      valid image index. The sizes are handed to the `int` constructor of
      `IndexArray`, so they and their product must fit an `int`. */
  function LoadTestMap(m: GameMap, nx: u32, ny: u32, draws: seq<TileIndex>): (r: (GameMap, Outcome<MapError>))
    requires nx < TWO_31 && ny < TWO_31 && nx * ny < TWO_31
    requires |m.tileSurf| > 0 && ny > 0 ==> nx > 0
    requires |m.tileSurf| > 0 ==> |draws| == nx * ny
    requires |m.tileSurf| > 0 ==> forall k :: 0 <= k < |draws| ==> 0 <= draws[k] < |m.tileSurf|
    ensures var g := r.0;
      && g.xExtent == nx && g.yExtent == ny
      && g.displayWidth == nx && g.displayHeight == ny
      && g.tileWidth == 32 && g.tileHeight == 32
      && g.xOffset == m.xOffset && g.yOffset == m.yOffset
      && g.tileSurf == m.tileSurf && g.decoSurf == m.decoSurf && g.overSurf == m.overSurf
      && g.decos == NewIndexArray(nx, ny) && g.overs == NewIndexArray(nx, ny)
      && g.tiles.stride == nx && |g.tiles.vec| == nx * ny
    ensures r.1.Fail? <==> |m.tileSurf| == 0
    ensures r.1.Fail? ==> r.1.error == NoTilesLoaded && r.0.tiles == NewIndexArray(nx, ny)
    ensures r.1.Pass? ==> r.0.tiles.vec == draws && IndicesBelow(r.0.tiles, |m.tileSurf|)
  {
    var sized := m.(
      xExtent := nx, yExtent := ny,
      displayWidth := nx, displayHeight := ny,
      tileHeight := 32, tileWidth := 32,
      tiles := NewIndexArray(nx, ny),
      decos := NewIndexArray(nx, ny),
      overs := NewIndexArray(nx, ny));
    if |sized.tileSurf| == 0 then
      (sized, Fail(NoTilesLoaded))
    else
      FillStoresDrawsInOrder(sized.tiles, nx, ny, draws);
      (sized.(tiles := FillRows(sized.tiles, nx, ny, 0, draws)), Pass)
  }

  // ---------------------------------------------------------------------
  // Draw
  // ---------------------------------------------------------------------

  /** One blit: an image, its source rectangle and the destination on the
      drawing surface. */
  datatype Blit = Blit(image: ImageId, src: Rect, dest: Rect)

  /** The layers: base tiles, decorations, overlays. */
  datatype Layer = Tiles | Decorations | Overlays

  function LayerIndices(m: GameMap, l: Layer): IndexArray {
    match l
    case Tiles => m.tiles
    case Decorations => m.decos
    case Overlays => m.overs
  }

  function LayerImages(m: GameMap, l: Layer): seq<ImageId> {
    match l
    case Tiles => m.tileSurf
    case Decorations => m.decoSurf
    case Overlays => m.overSurf
  }

  /** The grid coordinate shown at display cell `k`: the `unsigned` loop
      counter plus the `int` offset is computed as `unsigned int` and then
      passed to an `int` parameter. */
  function ViewCell(k: u32, off: i32): (c: i32)
    ensures 0 <= k + off < TWO_31 ==> c == k + off
  {
    ToI32(ToU32(k + ToU32(off)))
  }

  /** The pixel coordinate of display cell `k`: the `int` tile size times
      the `unsigned` counter is computed as `unsigned int` and stored in an
      `int` field of the destination rectangle. */
  function PixelCoord(tile: u32, k: u32): (p: i32)
    ensures tile * k < TWO_31 ==> p == tile * k
  {
    var t := ToU32(ToI32(tile));
    U32RoundTrip(tile);
    MulNonNegative(t, k);
    ToI32(ToU32(t * k))
  }

  /** Display cell (kx, ky) can be drawn: its grid cell is in the layer's
      buffer and the stored index names a loaded image. */
  predicate CellDrawable(m: GameMap, layer: IndexArray, images: seq<ImageId>, kx: u32, ky: u32) {
    var x := ViewCell(kx, m.xOffset);
    var y := ViewCell(ky, m.yOffset);
    InBuffer(layer, x, y) && 0 <= At(layer, x, y) < |images|
  }

  /** Every display cell can be drawn. */
  predicate Drawable(m: GameMap, layer: IndexArray, images: seq<ImageId>) {
    forall kx: u32, ky: u32 :: kx < m.displayWidth && ky < m.displayHeight ==>
      CellDrawable(m, layer, images, kx, ky)
  }

  /** The blit for display cell (kx, ky): the image of the grid cell under
      it, placed at (kx * tile width, ky * tile height) with no offset. */
  function CellBlit(m: GameMap, layer: IndexArray, images: seq<ImageId>, kx: u32, ky: u32): (b: Blit)
    requires CellDrawable(m, layer, images, kx, ky)
    ensures b.image in images
    ensures b.src == Rect(0, 0, ToI32(m.tileWidth), ToI32(m.tileHeight))
    ensures b.dest.w == b.src.w && b.dest.h == b.src.h
    ensures 0 <= kx + m.xOffset < TWO_31 && 0 <= ky + m.yOffset < TWO_31 ==>
      b.image == images[At(layer, kx + m.xOffset, ky + m.yOffset)]
    ensures m.tileWidth * kx < TWO_31 ==> b.dest.x == m.tileWidth * kx
    ensures m.tileHeight * ky < TWO_31 ==> b.dest.y == m.tileHeight * ky
  {
    var size := Rect(0, 0, ToI32(m.tileWidth), ToI32(m.tileHeight));
    var tileindex := At(layer, ViewCell(kx, m.xOffset), ViewCell(ky, m.yOffset));
    Blit(images[tileindex], size,
         Rect(PixelCoord(m.tileWidth, kx), PixelCoord(m.tileHeight, ky), size.w, size.h))
  }

  /** The inner loop: display column `kx`, top to bottom. */
  function Column(m: GameMap, layer: IndexArray, images: seq<ImageId>, kx: u32): (r: seq<Blit>)
    requires kx < m.displayWidth && Drawable(m, layer, images)
    ensures |r| == m.displayHeight
    ensures forall ky: u32 :: ky < m.displayHeight ==> r[ky] == CellBlit(m, layer, images, kx, ky)
  {
    seq(m.displayHeight, ky requires 0 <= ky < m.displayHeight => CellBlit(m, layer, images, kx, ky))
  }

  /** `Draw`: one blit per display cell. The outer loop runs over display
      columns and the inner loop down each column, so the blits are emitted
      column by column: `r[kx][ky]` is the blit for display cell (kx, ky),
      and every blit uses one of the given images. */
  function Draw(m: GameMap, layer: IndexArray, images: seq<ImageId>): (r: seq<seq<Blit>>)
    requires Drawable(m, layer, images)
    ensures |r| == m.displayWidth
    ensures forall kx: u32 :: kx < m.displayWidth ==> |r[kx]| == m.displayHeight
    ensures forall kx: u32, ky: u32 :: kx < m.displayWidth && ky < m.displayHeight ==>
      r[kx][ky] == CellBlit(m, layer, images, kx, ky)
    ensures forall kx: u32, ky: u32 :: kx < m.displayWidth && ky < m.displayHeight ==>
      r[kx][ky].image in images
  {
    seq(m.displayWidth, kx requires 0 <= kx < m.displayWidth => Column(m, layer, images, kx))
  }

  /** `DrawTiles`, `DrawDecorators`, `DrawOverlay`: each draws one layer
      with its own image table. */
  function DrawLayer(m: GameMap, l: Layer): (r: seq<seq<Blit>>)
    requires Drawable(m, LayerIndices(m, l), LayerImages(m, l))
    ensures |r| == m.displayWidth
    ensures forall kx: u32 :: kx < m.displayWidth ==> |r[kx]| == m.displayHeight
    ensures forall kx: u32, ky: u32 :: kx < m.displayWidth && ky < m.displayHeight ==>
      r[kx][ky].image in LayerImages(m, l)
    ensures forall kx: u32, ky: u32 :: kx < m.displayWidth && ky < m.displayHeight ==>
      r[kx][ky] == CellBlit(m, LayerIndices(m, l), LayerImages(m, l), kx, ky)
  {
    Draw(m, LayerIndices(m, l), LayerImages(m, l))
  }

  /** The layer is an extent-sized grid. */
  predicate GridShaped(m: GameMap, layer: IndexArray) {
    && m.xExtent < TWO_31 && m.yExtent < TWO_31
    && layer.stride == m.xExtent
    && |layer.vec| == m.xExtent * m.yExtent
  }

  /** With the viewport invariant, an extent-sized layer and indices that all
      name loaded images, every lookup `Draw` makes is inside the grid and
      every blit uses a loaded image. */
  lemma ValidViewportIsDrawable(m: GameMap, layer: IndexArray, images: seq<ImageId>)
    requires ViewportFits(m) && OffsetValid(m)
    requires GridShaped(m, layer) && IndicesBelow(layer, |images|)
    ensures Drawable(m, layer, images)
  {
    forall kx: u32, ky: u32 | kx < m.displayWidth && ky < m.displayHeight
      ensures CellDrawable(m, layer, images, kx, ky)
    {
      var x := ViewCell(kx, m.xOffset);
      var y := ViewCell(ky, m.yOffset);
      assert x == kx + m.xOffset && y == ky + m.yOffset;
      GridBound(m.xExtent, m.yExtent, x, y);
    }
  }

  /** A freshly generated test map can be drawn at its initial offset
      (provided the offset was zero), tile by tile in display order. */
  lemma TestMapIsDrawable(m: GameMap, nx: u32, ny: u32, draws: seq<TileIndex>)
    requires nx < TWO_31 && ny < TWO_31 && nx * ny < TWO_31
    requires |m.tileSurf| > 0 && |draws| == nx * ny && (ny > 0 ==> nx > 0)
    requires forall k :: 0 <= k < |draws| ==> 0 <= draws[k] < |m.tileSurf|
    requires m.xOffset == 0 && m.yOffset == 0
    ensures LoadTestMap(m, nx, ny, draws).1.Pass?
    ensures Drawable(LoadTestMap(m, nx, ny, draws).0, LoadTestMap(m, nx, ny, draws).0.tiles, m.tileSurf)
  {
    var g := LoadTestMap(m, nx, ny, draws).0;
    ValidViewportIsDrawable(g, g.tiles, m.tileSurf);
  }

  /** A 10 by 10 grid over three images, shown through a 5 by 5 display:
      asking for offset (8, 8) gives (5, 5), and every blit of the base layer
      uses one of the three images. */
  lemma EndToEndScenario(m: GameMap)
    requires m.xExtent == 10 && m.yExtent == 10 && m.displayWidth == 5 && m.displayHeight == 5
    requires |m.tileSurf| == 3 && GridShaped(m, m.tiles) && IndicesBelow(m.tiles, 3)
    ensures SetOffset(m, 8, 8).xOffset == 5 && SetOffset(m, 8, 8).yOffset == 5
    ensures Drawable(SetOffset(m, 8, 8), m.tiles, m.tileSurf)
    ensures var r := DrawLayer(SetOffset(m, 8, 8), Tiles);
      forall kx: u32, ky: u32 :: kx < 5 && ky < 5 ==> r[kx][ky].image in m.tileSurf
  {
    ValidViewportIsDrawable(SetOffset(m, 8, 8), m.tiles, m.tileSurf);
  }
}
