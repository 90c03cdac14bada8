// The host side of the noisy-blur tiling effect: the canvas that follows its
// layout box, the image that becomes the texture, and the per-frame tile
// uniforms handed to the fragment shader.

module NoisyBlurHost {
  import opened NoisyBlurShader

  /** `Math.min(2, window.devicePixelRatio || 1)`: a ratio of 0 falls back
    * to 1, and the result never exceeds 2. */
  function Dpr(ratio: real): (d: real)
    ensures d <= 2.0
    ensures ratio >= 0.0 ==> d > 0.0
  {
    Min(2.0, if ratio == 0.0 then 1.0 else ratio)
  }

  /** The device-pixel ratio is taken as is up to 2, capped at 2 above it,
    * and replaced by 1 when it is 0. */
  lemma DprCases(ratio: real)
    ensures ratio == 0.0 ==> Dpr(ratio) == 1.0
    ensures 0.0 < ratio <= 2.0 ==> Dpr(ratio) == ratio
    ensures ratio > 2.0 ==> Dpr(ratio) == 2.0
  {
  }

  /** `Math.max(1, Math.floor(extent * dpr))`: the canvas size in device
    * pixels for a layout extent. */
  function CanvasDim(extent: real, ratio: real): (n: int)
    ensures n >= 1
    ensures n == 1 || (n as real <= extent * Dpr(ratio) < n as real + 1.0)
  {
    var f := (extent * Dpr(ratio)).Floor;
    if f < 1 then 1 else f
  }

  /** The three tile uniforms written together in one frame. */
  datatype TileUniforms = TileUniforms(size: Vec2, step: Vec2, offset: Vec2)

  /** The tile-geometry block of the render loop: the tile is the image
    * scaled by `tileScale` and the ratio and at least 1 pixel on each axis,
    * the step adds the gap (negative gaps clamped to 0), and the offset is
    * scaled by the ratio. */
  function TileGeometry(imgWidth: real, imgHeight: real, tileScale: real, gapX: real, gapY: real,
                        offsetX: real, offsetY: real, ratio: real): (t: TileUniforms)
    ensures t.size.x >= 1.0 && t.size.y >= 1.0
    ensures ratio >= 0.0 ==> t.step.x >= t.size.x && t.step.y >= t.size.y
  {
    var dpr := Dpr(ratio);
    var gx := Max(0.0, gapX);
    var gy := Max(0.0, gapY);
    var tileW := Max(1.0, imgWidth * tileScale * dpr);
    var tileH := Max(1.0, imgHeight * tileScale * dpr);
    GapNonNegative(gx, dpr, ratio);
    GapNonNegative(gy, dpr, ratio);
    TileUniforms(Vec2(tileW, tileH), Vec2(tileW + gx * dpr, tileH + gy * dpr), Vec2(offsetX * dpr, offsetY * dpr))
  }

  lemma GapNonNegative(g: real, dpr: real, ratio: real)
    requires g >= 0.0 && dpr == Dpr(ratio)
    ensures ratio >= 0.0 ==> g * dpr >= 0.0
  {
  }

  /** The tile uniforms are ready for the shader: tiles of at least one pixel
    * and steps no shorter than the tiles. */
  predicate Ready(t: TileUniforms) {
    t.size.x >= 1.0 && t.size.y >= 1.0 && t.step.x >= t.size.x && t.step.y >= t.size.y
  }

  /** For a non-negative ratio the geometry is ready, and any uniforms
    * carrying it satisfy the shader's tile precondition. */
  lemma GeometryReady(imgWidth: real, imgHeight: real, tileScale: real, gapX: real, gapY: real,
                      offsetX: real, offsetY: real, ratio: real, u: Uniforms)
    requires ratio >= 0.0
    requires var t := TileGeometry(imgWidth, imgHeight, tileScale, gapX, gapY, offsetX, offsetY, ratio);
      u.tileSize == t.size && u.tileStep == t.step
    ensures Ready(TileGeometry(imgWidth, imgHeight, tileScale, gapX, gapY, offsetX, offsetY, ratio))
    ensures TilesReady(u)
  {
  }

  /** With both gaps at most 0 the step equals the tile size, so no pixel
    * falls in a gap. */
  lemma NoGapsWithoutGap(imgWidth: real, imgHeight: real, tileScale: real, gapX: real, gapY: real,
                         offsetX: real, offsetY: real, ratio: real, u: Uniforms, coordPx: Vec2)
    requires ratio >= 0.0 && gapX <= 0.0 && gapY <= 0.0
    requires var t := TileGeometry(imgWidth, imgHeight, tileScale, gapX, gapY, offsetX, offsetY, ratio);
      u.tileSize == t.size && u.tileStep == t.step
    ensures TilesReady(u) && !InGap(coordPx, u)
  {
    GeometryReady(imgWidth, imgHeight, tileScale, gapX, gapY, offsetX, offsetY, ratio, u);
    NoGapWhenStepIsSize(coordPx, u);
  }

  /** The canvas, the image texture and the uniforms of one mounted
    * component. */
  class NoisyBlurCanvas {
    const tileScale: real
    const gapX: real
    const gapY: real
    const offsetX: real
    const offsetY: real
    /** The `performance.now()` reading taken when the loop started. */
    const start: real

    var canvasWidth: int
    var canvasHeight: int
    /** How many times the canvas size was assigned (each assignment clears
      * the drawing buffer). */
    var sizeWrites: nat
    var uRes: Vec2

    var imgWidth: real
    var imgHeight: real
    var textureReady: bool

    var tiles: TileUniforms
    var tilesWritten: bool
    var uTime: real

    /** The canvas is at least one pixel on each side, and tile uniforms are
      * only ever written once the texture is ready, and then are ready for
      * the shader. */
    ghost predicate Valid()
      reads this
    {
      canvasWidth >= 1 && canvasHeight >= 1 &&
      (tilesWritten ==> textureReady && Ready(tiles))
    }

    /** The state right after mounting: a default 300 x 150 canvas, a 1 x 1
      * placeholder image, no texture and all uniforms zero. */
    constructor (tileScale: real, gapX: real, gapY: real, offsetX: real, offsetY: real, start: real)
      ensures Valid()
      ensures this.tileScale == tileScale && this.gapX == gapX && this.gapY == gapY
      ensures this.offsetX == offsetX && this.offsetY == offsetY && this.start == start
      ensures canvasWidth == 300 && canvasHeight == 150 && sizeWrites == 0
      ensures imgWidth == 1.0 && imgHeight == 1.0 && !textureReady && !tilesWritten
    {
      this.tileScale := tileScale;
      this.gapX := gapX;
      this.gapY := gapY;
      this.offsetX := offsetX;
      this.offsetY := offsetY;
      this.start := start;
      canvasWidth := 300;
      canvasHeight := 150;
      sizeWrites := 0;
      uRes := Vec2(0.0, 0.0);
      imgWidth := 1.0;
      imgHeight := 1.0;
      textureReady := false;
      tiles := TileUniforms(Vec2(0.0, 0.0), Vec2(0.0, 0.0), Vec2(0.0, 0.0));
      tilesWritten := false;
      uTime := 0.0;
    }

    /** `resize`: fit the canvas to its layout box in device pixels,
      * assigning the size only when it changes, and pass the size to the
      * shader. */
    method Resize(rectWidth: real, rectHeight: real, ratio: real)
      requires Valid()
      modifies this
      ensures Valid()
      ensures canvasWidth == CanvasDim(rectWidth, ratio) && canvasHeight == CanvasDim(rectHeight, ratio)
      ensures uRes == Vec2(canvasWidth as real, canvasHeight as real)
      ensures sizeWrites == if old(canvasWidth) == canvasWidth && old(canvasHeight) == canvasHeight
                            then old(sizeWrites) else old(sizeWrites) + 1
      ensures imgWidth == old(imgWidth) && imgHeight == old(imgHeight) && textureReady == old(textureReady)
      ensures tiles == old(tiles) && tilesWritten == old(tilesWritten) && uTime == old(uTime)
    {
      var w := CanvasDim(rectWidth, ratio);
      var h := CanvasDim(rectHeight, ratio);
      if canvasWidth != w || canvasHeight != h {
        canvasWidth := w;
        canvasHeight := h;
        sizeWrites := sizeWrites + 1;
      }
      uRes := Vec2(w as real, h as real);
    }

    /** The image's `onload`: record its natural size and mark the texture
      * ready. */
    method OnImageLoad(naturalWidth: real, naturalHeight: real)
      requires Valid()
      modifies this
      ensures Valid()
      ensures imgWidth == naturalWidth && imgHeight == naturalHeight && textureReady
      ensures canvasWidth == old(canvasWidth) && canvasHeight == old(canvasHeight)
      ensures sizeWrites == old(sizeWrites) && uRes == old(uRes)
      ensures tiles == old(tiles) && tilesWritten == old(tilesWritten) && uTime == old(uTime)
    {
      imgWidth := naturalWidth;
      imgHeight := naturalHeight;
      textureReady := true;
    }

    /** One frame of the render loop: the elapsed time in seconds, then the
      * tile uniforms, but only once the texture is ready. */
    method Frame(now: real, ratio: real)
      requires Valid() && ratio >= 0.0
      modifies this
      ensures Valid()
      ensures uTime == (now - start) / 1000.0
      ensures old(textureReady) ==> tilesWritten
      ensures old(textureReady) ==>
        tiles == TileGeometry(imgWidth, imgHeight, tileScale, gapX, gapY, offsetX, offsetY, ratio)
      ensures !old(textureReady) ==> tiles == old(tiles) && tilesWritten == old(tilesWritten)
      ensures imgWidth == old(imgWidth) && imgHeight == old(imgHeight) && textureReady == old(textureReady)
      ensures canvasWidth == old(canvasWidth) && canvasHeight == old(canvasHeight)
      ensures sizeWrites == old(sizeWrites) && uRes == old(uRes)
    {
      uTime := (now - start) / 1000.0;
      if textureReady {
        tiles := TileGeometry(imgWidth, imgHeight, tileScale, gapX, gapY, offsetX, offsetY, ratio);
        tilesWritten := true;
      }
    }
  }

  /** Resizing twice to the same box assigns the canvas size at most once:
    * the second call finds the size already right. */
  method ResizeTwice(c: NoisyBlurCanvas, rectWidth: real, rectHeight: real, ratio: real)
    requires c.Valid()
    modifies c
    ensures c.Valid()
    ensures c.sizeWrites <= old(c.sizeWrites) + 1
    ensures c.canvasWidth == CanvasDim(rectWidth, ratio) && c.canvasHeight == CanvasDim(rectHeight, ratio)
  {
    c.Resize(rectWidth, rectHeight, ratio);
    ghost var writes := c.sizeWrites;
    c.Resize(rectWidth, rectHeight, ratio);
    assert c.sizeWrites == writes;
  }
}
