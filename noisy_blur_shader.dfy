// The fragment shader of the noisy-blur tiling effect, over real numbers:
// fractal value noise, wrap-around tile addressing, a Poisson-disc blur and
// the mask pipeline that mixes the sharp and blurred tiles.

module NoisyBlurShader {

  // ---------------------------------------------------------------------
  // Vectors and scalar helpers
  // ---------------------------------------------------------------------

  datatype Vec2 = Vec2(x: real, y: real)

  datatype Vec4 = Vec4(r: real, g: real, b: real, a: real)

  const Zero4: Vec4 := Vec4(0.0, 0.0, 0.0, 0.0)

  function Add2(p: Vec2, q: Vec2): Vec2 { Vec2(p.x + q.x, p.y + q.y) }

  function Scale2(p: Vec2, s: real): Vec2 { Vec2(p.x * s, p.y * s) }

  function Add4(v: Vec4, w: Vec4): Vec4 { Vec4(v.r + w.r, v.g + w.g, v.b + w.b, v.a + w.a) }

  function Scale4(v: Vec4, s: real): Vec4 { Vec4(v.r * s, v.g * s, v.b * s, v.a * s) }

  function Div4(v: Vec4, d: real): Vec4
    requires d != 0.0
  {
    Vec4(v.r / d, v.g / d, v.b / d, v.a / d)
  }

  function Max(a: real, b: real): (r: real)
    ensures r >= a && r >= b && (r == a || r == b)
  {
    if a >= b then a else b
  }

  function Min(a: real, b: real): (r: real)
    ensures r <= a && r <= b && (r == a || r == b)
  {
    if a <= b then a else b
  }

  /** GLSL `clamp(x, lo, hi)` for `lo <= hi`. */
  function Clamp(x: real, lo: real, hi: real): (r: real)
    requires lo <= hi
    ensures lo <= r <= hi
    ensures lo <= x <= hi ==> r == x
    ensures x < lo ==> r == lo
    ensures x > hi ==> r == hi
  {
    if x < lo then lo else if x > hi then hi else x
  }

  /** GLSL `fract(x) = x - floor(x)`. */
  function Fract(x: real): (r: real)
    ensures 0.0 <= r < 1.0
  {
    x - x.Floor as real
  }

  /** GLSL `mix(x, y, t)` on one channel. */
  function Lerp(x: real, y: real, t: real): real { x * (1.0 - t) + y * t }

  /** GLSL `mix(x, y, t)` on a colour. */
  function Mix4(v: Vec4, w: Vec4, t: real): Vec4 {
    Vec4(Lerp(v.r, w.r, t), Lerp(v.g, w.g, t), Lerp(v.b, w.b, t), Lerp(v.a, w.a, t))
  }

  /** Every channel of a colour lies in [0, 1]. */
  predicate InUnit(v: Vec4) {
    0.0 <= v.r <= 1.0 && 0.0 <= v.g <= 1.0 && 0.0 <= v.b <= 1.0 && 0.0 <= v.a <= 1.0
  }

  lemma MulBelow(s: real, w: real)
    requires 0.0 <= s <= 1.0 && w >= 0.0
    ensures 0.0 <= s * w <= w
  {
    assert s * w <= 1.0 * w;
  }

  lemma DivUnit(s: real, t: real)
    requires 0.0 <= s <= t && t > 0.0
    ensures 0.0 <= s / t <= 1.0
  {
    var q := s / t;
    assert q * t == s;
    assert (1.0 - q) * t == t - s;
    MulSign(1.0 - q, t);
    MulSign(q, t);
  }

  /** A product with a positive factor has the sign of the other factor. */
  lemma MulSign(a: real, t: real)
    requires t > 0.0
    ensures a * t >= 0.0 ==> a >= 0.0
  {
    if a < 0.0 {
      assert a * t < 0.0 * t;
    }
  }

  lemma DivCancel(a: real, v: real)
    requires a != 0.0
    ensures (a * v) / a == v
  {
  }

  lemma DivShift(c: real, p: real)
    requires p != 0.0
    ensures (c + p) / p == c / p + 1.0
  {
    var q := c / p;
    var r := (c + p) / p;
    assert q * p == c;
    assert r * p == c + p;
    assert (q + 1.0) * p == c + p;
    MulCancel(r, q + 1.0, p);
  }

  lemma MulCancel(a: real, b: real, p: real)
    requires p != 0.0 && a * p == b * p
    ensures a == b
  {
    assert (a - b) * p == 0.0;
  }

  lemma MulMonotone(a: real, s1: real, s2: real)
    requires a >= 0.0 && s1 <= s2
    ensures a * s1 <= a * s2
  {
    assert a * s2 - a * s1 == a * (s2 - s1);
    assert a * (s2 - s1) >= 0.0;
  }

  /** Adding a term in [0, w] to a value in [0, t] stays in [0, t + w]. */
  lemma AddWithin(acc: real, t: real, p: real, w: real)
    requires 0.0 <= acc <= t && 0.0 <= p <= w
    ensures 0.0 <= acc + p <= t + w
  {
  }

  /** Adding `s * w`, for `s` in [0, 1] and `w >= 0`, to a value in [0, t]
    * stays in [0, t + w]. */
  lemma AccStep(acc: real, t: real, s: real, w: real)
    requires 0.0 <= acc <= t && 0.0 <= s <= 1.0 && w >= 0.0
    ensures 0.0 <= acc + s * w <= t + w
  {
    MulBelow(s, w);
    AddWithin(acc, t, s * w, w);
  }

  lemma LerpUnit(x: real, y: real, t: real)
    requires 0.0 <= x <= 1.0 && 0.0 <= y <= 1.0 && 0.0 <= t <= 1.0
    ensures 0.0 <= Lerp(x, y, t) <= 1.0
  {
    var c := 1.0 - t;
    LerpSplit(x, y, t, c);
    ConvexUnit(x, y, c, t);
  }

  /** `x * a + y * b` with weights summing to 1 stays in [0, 1]. */
  lemma ConvexUnit(x: real, y: real, a: real, b: real)
    requires 0.0 <= x <= 1.0 && 0.0 <= y <= 1.0 && a >= 0.0 && b >= 0.0 && a + b == 1.0
    ensures 0.0 <= x * a + y * b <= 1.0
  {
    MulBelow(x, a);
    MulBelow(y, b);
    AddWithin(x * a, a, y * b, b);
  }

  lemma LerpSplit(x: real, y: real, t: real, c: real)
    requires c == 1.0 - t
    ensures Lerp(x, y, t) == x * c + y * t
  {
  }

  lemma Mix4Unit(v: Vec4, w: Vec4, t: real)
    requires InUnit(v) && InUnit(w) && 0.0 <= t <= 1.0
    ensures InUnit(Mix4(v, w, t))
  {
    LerpUnit(v.r, w.r, t);
    LerpUnit(v.g, w.g, t);
    LerpUnit(v.b, w.b, t);
    LerpUnit(v.a, w.a, t);
  }

  // ---------------------------------------------------------------------
  // Opaque primitives and uniforms
  // ---------------------------------------------------------------------

  /** The built-ins the shader calls but this model does not define: the
    * hash-based value noise and hash, `exp`, `sin`, `cos`, `pow`, `sqrt`
    * and the texture lookup. */
  datatype Primitives = Primitives(
    valueNoise: Vec2 -> real,
    hash: Vec2 -> real,
    exp: real -> Positive,
    sin: real -> real,
    cos: real -> real,
    pow: (real, real) -> real,
    sqrt: real -> real,
    texture: Vec2 -> Vec4)
  {
    /** The facts the shader relies on: value noise lies in [0, 1], `exp` is
      * positive with `exp(0) = 1`, `pow(0, 1.5) = 0`, and the texture (an
      * 8-bit RGBA image) yields channels in [0, 1]. */
    ghost predicate Sound() {
      (forall p :: 0.0 <= valueNoise(p) <= 1.0) &&
      exp(0.0) == 1.0 &&
      pow(0.0, 1.5) == 0.0 &&
      (forall p :: InUnit(texture(p)))
    }
  }

  /** The values of `exp`: always positive. */
  type Positive = x: real | x > 0.0 witness 1.0

  /** The shader's uniforms. */
  datatype Uniforms = Uniforms(
    res: Vec2,
    tileSize: Vec2,
    tileStep: Vec2,
    offset: Vec2,
    time: real,
    noiseScale: real,
    noiseSpeed: real,
    noiseContrast: real,
    blurRadius: real,
    blurMaskStrength: real,
    noiseFrequency: real,
    noiseAmplitude: real,
    noiseOctaves: real,
    noiseLacunarity: real,
    noiseGain: real,
    showNoise: real)

  /** The tile uniforms have been written with positive sizes and steps. */
  predicate TilesReady(u: Uniforms) {
    u.tileSize.x > 0.0 && u.tileSize.y > 0.0 && u.tileStep.x > 0.0 && u.tileStep.y > 0.0
  }

  // ---------------------------------------------------------------------
  // fbmCustom
  // ---------------------------------------------------------------------

  /** How many octaves run from octave `i` on: octave `i` runs while
    * `i < octaves`, and never past octave 7. */
  function OctaveRuns(octaves: real, i: nat): (r: nat)
    requires i <= 8
    ensures i + r <= 8
    decreases 8 - i
  {
    if i >= 8 || i as real >= octaves then 0 else 1 + OctaveRuns(octaves, i + 1)
  }

  /** The number of octaves `fbmCustom` runs. */
  function OctaveCount(octaves: real): (r: nat)
    ensures r <= 8
  {
    OctaveRuns(octaves, 0)
  }

  /** Octave `i` runs exactly when `i < octaves` (for `i` below 8). */
  lemma OctaveCountExact(octaves: real, i: nat)
    requires i < 8
    ensures i < OctaveCount(octaves) <==> i as real < octaves
  {
    OctaveRunsExact(octaves, 0, i);
  }

  lemma {:induction false} OctaveRunsExact(octaves: real, j: nat, i: nat)
    requires j <= i < 8
    ensures i < j + OctaveRuns(octaves, j) <==> i as real < octaves
    decreases 8 - j
  {
    if j as real < octaves && j < i {
      OctaveRunsExact(octaves, j + 1, i);
    }
  }

  /** The default `noiseOctaves` of 0.1 runs one octave; a non-positive count
    * runs none. */
  lemma OctaveCountCases(octaves: real)
    ensures octaves <= 0.0 ==> OctaveCount(octaves) == 0
    ensures 0.0 < octaves <= 1.0 ==> OctaveCount(octaves) == 1
    ensures octaves > 7.0 ==> OctaveCount(octaves) == 8
  {
    if octaves > 7.0 {
      assert OctaveRuns(octaves, 7) == 1;
    }
  }

  /** The frequency of octave `k`: the base frequency (at least 0.0001),
    * multiplied by the lacunarity once per octave. */
  function FreqAt(u: Uniforms, k: nat): real {
    if k == 0 then Max(u.noiseFrequency, 0.0001) else FreqAt(u, k - 1) * u.noiseLacunarity
  }

  /** The amplitude of octave `k`: the base amplitude times the gain per octave. */
  function AmpAt(u: Uniforms, k: nat): real {
    if k == 0 then u.noiseAmplitude else AmpAt(u, k - 1) * u.noiseGain
  }

  /** The weighted noise of the first `n` octaves. */
  function OctaveSum(p: Vec2, u: Uniforms, prim: Primitives, n: nat): real {
    if n == 0 then 0.0
    else OctaveSum(p, u, prim, n - 1) + AmpAt(u, n - 1) * prim.valueNoise(Scale2(p, FreqAt(u, n - 1)))
  }

  /** The total amplitude of the first `n` octaves. */
  function OctaveNorm(u: Uniforms, n: nat): real {
    if n == 0 then 0.0 else OctaveNorm(u, n - 1) + AmpAt(u, n - 1)
  }

  /** What `fbmCustom` returns: the weighted sum over the octaves that run,
    * divided by the total amplitude when that exceeds 1e-4. */
  function Fbm(p: Vec2, u: Uniforms, prim: Primitives): real {
    var n := OctaveCount(u.noiseOctaves);
    var norm := OctaveNorm(u, n);
    if norm > 0.0001 then OctaveSum(p, u, prim, n) / norm else OctaveSum(p, u, prim, n)
  }

  /** `fbmCustom`: the capped, early-breaking octave loop. */
  method FbmCustom(p: Vec2, u: Uniforms, prim: Primitives) returns (result: real)
    ensures result == Fbm(p, u, prim)
  {
    var freq := Max(u.noiseFrequency, 0.0001);
    var amp := u.noiseAmplitude;
    var sum := 0.0;
    var norm := 0.0;
    var i: nat := 0;
    while i < 8
      invariant i <= 8
      invariant OctaveRuns(u.noiseOctaves, 0) == i + OctaveRuns(u.noiseOctaves, i)
      invariant freq == FreqAt(u, i) && amp == AmpAt(u, i)
      invariant sum == OctaveSum(p, u, prim, i) && norm == OctaveNorm(u, i)
    {
      if i as real >= u.noiseOctaves {
        break;
      }
      var n := prim.valueNoise(Scale2(p, freq));
      OctaveStep(p, u, prim, i, freq, amp, sum, norm, n);
      sum := sum + amp * n;
      norm := norm + amp;
      freq := freq * u.noiseLacunarity;
      amp := amp * u.noiseGain;
      i := i + 1;
    }
    if norm > 0.0001 {
      sum := sum / norm;
    }
    result := sum;
  }

  /** One octave of `fbmCustom`, in terms of the running values: the sum, the
    * norm, the frequency and the amplitude after octave `i`. */
  lemma OctaveStep(p: Vec2, u: Uniforms, prim: Primitives, i: nat, freq: real, amp: real, sum: real, norm: real, n: real)
    requires freq == FreqAt(u, i) && amp == AmpAt(u, i)
    requires sum == OctaveSum(p, u, prim, i) && norm == OctaveNorm(u, i)
    requires n == prim.valueNoise(Scale2(p, freq))
    ensures sum + amp * n == OctaveSum(p, u, prim, i + 1)
    ensures norm + amp == OctaveNorm(u, i + 1)
    ensures freq * u.noiseLacunarity == FreqAt(u, i + 1)
    ensures amp * u.noiseGain == AmpAt(u, i + 1)
  {
  }

  lemma {:induction false} AmpNonNegative(u: Uniforms, k: nat)
    requires u.noiseAmplitude >= 0.0 && u.noiseGain >= 0.0
    ensures AmpAt(u, k) >= 0.0
  {
    if k > 0 {
      AmpNonNegative(u, k - 1);
      assert AmpAt(u, k - 1) * u.noiseGain >= 0.0;
    }
  }

  lemma {:induction false} OctaveSumBounds(p: Vec2, u: Uniforms, prim: Primitives, n: nat)
    requires prim.Sound() && u.noiseAmplitude >= 0.0 && u.noiseGain >= 0.0
    ensures 0.0 <= OctaveSum(p, u, prim, n) <= OctaveNorm(u, n)
  {
    if n > 0 {
      OctaveSumBounds(p, u, prim, n - 1);
      AmpNonNegative(u, n - 1);
      var sum := OctaveSum(p, u, prim, n - 1);
      var norm := OctaveNorm(u, n - 1);
      var freq := FreqAt(u, n - 1);
      var amp := AmpAt(u, n - 1);
      var v := prim.valueNoise(Scale2(p, freq));
      OctaveStep(p, u, prim, n - 1, freq, amp, sum, norm, v);
      MulBelow(v, amp);
      AddWithin(sum, norm, amp * v, amp);
    }
  }

  /** With a non-negative amplitude and gain, the noise stays in [0, 1]. */
  lemma FbmInUnit(p: Vec2, u: Uniforms, prim: Primitives)
    requires prim.Sound() && u.noiseAmplitude >= 0.0 && u.noiseGain >= 0.0
    ensures 0.0 <= Fbm(p, u, prim) <= 1.0
  {
    var n := OctaveCount(u.noiseOctaves);
    OctaveSumBounds(p, u, prim, n);
    if OctaveNorm(u, n) > 0.0001 {
      DivUnit(OctaveSum(p, u, prim, n), OctaveNorm(u, n));
    }
  }

  /** No octave runs for a non-positive octave count, and the noise is 0. */
  lemma FbmNoOctaves(p: Vec2, u: Uniforms, prim: Primitives)
    requires u.noiseOctaves <= 0.0
    ensures Fbm(p, u, prim) == 0.0
  {
    OctaveCountCases(u.noiseOctaves);
  }

  /** With one octave and an amplitude above 1e-4, the noise is the single
    * value-noise sample at `p * max(frequency, 0.0001)`. */
  lemma FbmOneOctave(p: Vec2, u: Uniforms, prim: Primitives)
    requires 0.0 < u.noiseOctaves <= 1.0 && u.noiseAmplitude > 0.0001
    ensures Fbm(p, u, prim) == prim.valueNoise(Scale2(p, Max(u.noiseFrequency, 0.0001)))
  {
    OctaveCountCases(u.noiseOctaves);
    var v := prim.valueNoise(Scale2(p, Max(u.noiseFrequency, 0.0001)));
    assert OctaveSum(p, u, prim, 1) == u.noiseAmplitude * v;
    assert OctaveNorm(u, 1) == u.noiseAmplitude;
    DivCancel(u.noiseAmplitude, v);
  }

  // ---------------------------------------------------------------------
  // gaussian, repeatCoord, samplePattern
  // ---------------------------------------------------------------------

  /** `gaussian(dist, sigma) = exp(-0.5 r^2)` with `r = dist / max(sigma, 1e-3)`. */
  function Gaussian(dist: real, sigma: real, prim: Primitives): (w: real)
    ensures w > 0.0
    ensures prim.Sound() && dist == 0.0 ==> w == 1.0
  {
    var r := dist / Max(sigma, 0.001);
    prim.exp(-0.5 * r * r)
  }

  /** `repeatCoord` on one axis: `fract(c / period) * period`. */
  function Repeat(c: real, period: real): (r: real)
    requires period > 0.0
    ensures 0.0 <= r < period
  {
    var f := Fract(c / period);
    assert f * period < period by { assert f * period < 1.0 * period; }
    f * period
  }

  /** Shifting by one period leaves the wrapped coordinate unchanged. */
  lemma RepeatPeriodic(c: real, period: real)
    requires period > 0.0
    ensures Repeat(c + period, period) == Repeat(c, period)
  {
    var q := c / period;
    DivShift(c, period);
    assert (q + 1.0).Floor == q.Floor + 1;
  }

  /** A coordinate already inside the period is its own wrap. */
  lemma RepeatInside(c: real, period: real)
    requires 0.0 <= c < period
    ensures Repeat(c, period) == c
  {
    var q := c / period;
    assert 0.0 <= q < 1.0 by {
      DivUnit(c, period);
      assert q != 1.0 by {
        assert q * period == c;
      }
    }
    assert q.Floor == 0;
    assert q * period == c;
  }

  /** `repeatCoord`. */
  function RepeatCoord(coord: Vec2, period: Vec2): (r: Vec2)
    requires period.x > 0.0 && period.y > 0.0
    ensures 0.0 <= r.x < period.x && 0.0 <= r.y < period.y
  {
    Vec2(Repeat(coord.x, period.x), Repeat(coord.y, period.y))
  }

  /** The wrapped cell a pixel falls in. */
  function Cell(coordPx: Vec2, u: Uniforms): Vec2
    requires TilesReady(u)
  {
    RepeatCoord(Add2(coordPx, u.offset), u.tileStep)
  }

  /** Whether a pixel falls in the gap between tiles. */
  predicate InGap(coordPx: Vec2, u: Uniforms)
    requires TilesReady(u)
  {
    Cell(coordPx, u).x > u.tileSize.x || Cell(coordPx, u).y > u.tileSize.y
  }

  /** `samplePattern`: transparent black in the gap, otherwise the texture at
    * the cell's position within the tile. */
  function SamplePattern(coordPx: Vec2, u: Uniforms, prim: Primitives): (c: Vec4)
    requires TilesReady(u)
    ensures prim.Sound() ==> InUnit(c)
  {
    var cell := Cell(coordPx, u);
    if cell.x > u.tileSize.x || cell.y > u.tileSize.y then Zero4
    else prim.texture(Vec2(cell.x / u.tileSize.x, cell.y / u.tileSize.y))
  }

  /** A pixel in a gap samples transparent black; any other pixel samples the
    * texture at its cell's position within the tile. */
  lemma SamplePatternCases(coordPx: Vec2, u: Uniforms, prim: Primitives)
    requires TilesReady(u)
    ensures InGap(coordPx, u) ==> SamplePattern(coordPx, u, prim) == Zero4
    ensures !InGap(coordPx, u) ==>
      SamplePattern(coordPx, u, prim) ==
      prim.texture(Vec2(Cell(coordPx, u).x / u.tileSize.x, Cell(coordPx, u).y / u.tileSize.y))
  {
  }

  /** The pattern repeats every tile step along each axis. */
  lemma SamplePatternPeriodic(coordPx: Vec2, u: Uniforms, prim: Primitives)
    requires TilesReady(u)
    ensures SamplePattern(Vec2(coordPx.x + u.tileStep.x, coordPx.y), u, prim) == SamplePattern(coordPx, u, prim)
    ensures SamplePattern(Vec2(coordPx.x, coordPx.y + u.tileStep.y), u, prim) == SamplePattern(coordPx, u, prim)
  {
    RepeatPeriodic(coordPx.x + u.offset.x, u.tileStep.x);
    RepeatPeriodic(coordPx.y + u.offset.y, u.tileStep.y);
    assert coordPx.x + u.tileStep.x + u.offset.x == (coordPx.x + u.offset.x) + u.tileStep.x;
    assert coordPx.y + u.tileStep.y + u.offset.y == (coordPx.y + u.offset.y) + u.tileStep.y;
  }

  /** When the step does not exceed the tile size (no gap), no pixel is in a
    * gap. */
  lemma NoGapWhenStepIsSize(coordPx: Vec2, u: Uniforms)
    requires TilesReady(u) && u.tileStep.x <= u.tileSize.x && u.tileStep.y <= u.tileSize.y
    ensures !InGap(coordPx, u)
  {
  }

  // ---------------------------------------------------------------------
  // blurPattern
  // ---------------------------------------------------------------------

  /** The 16 Poisson-disc taps of the blur kernel. */
  const Poisson: seq<Vec2> := [
    Vec2(-0.326, -0.406), Vec2(-0.840, -0.074), Vec2(-0.696, 0.457), Vec2(-0.203, 0.621),
    Vec2(0.962, -0.195), Vec2(0.473, -0.480), Vec2(0.519, 0.767), Vec2(0.185, -0.893),
    Vec2(0.507, 0.064), Vec2(0.896, 0.412), Vec2(-0.322, -0.932), Vec2(-0.792, -0.598),
    Vec2(-0.198, -0.218), Vec2(-0.054, -0.040), Vec2(0.421, -0.193), Vec2(-0.459, 0.436)]

  /** `mat2(cs, -sn, sn, cs) * v` (GLSL matrices are column-major). */
  function Rotate(cs: real, sn: real, v: Vec2): Vec2 {
    Vec2(cs * v.x + sn * v.y, -sn * v.x + cs * v.y)
  }

  /** The per-pixel state of one blur: centre, radius, sigma and rotation. */
  datatype Kernel = Kernel(coordPx: Vec2, radius: real, sigma: real, cs: real, sn: real)

  /** The kernel `blurPattern` sets up for a pixel and a radius. */
  function KernelFor(coordPx: Vec2, radiusPx: real, prim: Primitives): (k: Kernel)
    ensures k.sigma >= 1.0
  {
    var angle := prim.hash(Scale2(coordPx, 0.01)) * 6.2831853;
    Kernel(coordPx, radiusPx, Max(radiusPx * 0.55, 1.0), prim.cos(angle), prim.sin(angle))
  }

  function TapOffset(k: Kernel, i: nat): Vec2
    requires i < |Poisson|
  {
    Scale2(Rotate(k.cs, k.sn, Poisson[i]), k.radius)
  }

  function TapWeight(k: Kernel, i: nat, prim: Primitives): real
    requires i < |Poisson|
  {
    var off := TapOffset(k, i);
    Gaussian(prim.sqrt(off.x * off.x + off.y * off.y), k.sigma, prim)
  }

  /** The sum of the first `n` samples, each scaled by its weight. */
  function WeightedSum(samples: seq<Vec4>, weights: seq<real>, n: nat): Vec4
    requires n <= |samples| && n <= |weights|
  {
    if n == 0 then Zero4
    else Add4(WeightedSum(samples, weights, n - 1), Scale4(samples[n - 1], weights[n - 1]))
  }

  /** The sum of the first `n` weights. */
  function TotalWeight(weights: seq<real>, n: nat): real
    requires n <= |weights|
  {
    if n == 0 then 0.0 else TotalWeight(weights, n - 1) + weights[n - 1]
  }

  /** The 17 samples of one blur: the centre, then the 16 rotated taps. */
  function BlurSamples(k: Kernel, sample: Vec2 -> Vec4): (s: seq<Vec4>)
    ensures |s| == 17 && s[0] == sample(k.coordPx)
    ensures forall i :: 0 <= i < 16 ==> s[i + 1] == sample(Add2(k.coordPx, TapOffset(k, i)))
  {
    [sample(k.coordPx)] + seq(16, i requires 0 <= i < 16 => sample(Add2(k.coordPx, TapOffset(k, i))))
  }

  /** The 17 weights of one blur: the centre weight, then the tap weights. */
  function BlurWeights(k: Kernel, prim: Primitives): (w: seq<real>)
    ensures |w| == 17 && w[0] == Gaussian(0.0, k.sigma, prim)
    ensures forall i :: 0 <= i < 16 ==> w[i + 1] == TapWeight(k, i, prim)
  {
    [Gaussian(0.0, k.sigma, prim)] + seq(16, i requires 0 <= i < 16 => TapWeight(k, i, prim))
  }

  /** What `blurPattern` returns, for the sampler `sample`: the sharp sample
    * for a radius of at most 0.001, otherwise the weighted average of the
    * centre and the 16 taps (the total weight floored at 1e-5). */
  function Blur(coordPx: Vec2, radiusPx: real, sample: Vec2 -> Vec4, prim: Primitives): Vec4 {
    if radiusPx <= 0.001 then sample(coordPx)
    else
      var k := KernelFor(coordPx, radiusPx, prim);
      var weights := BlurWeights(k, prim);
      Div4(WeightedSum(BlurSamples(k, sample), weights, 17), Max(TotalWeight(weights, 17), 0.00001))
  }

  /** A radius of at most 0.001 leaves the pixel sharp: no tap is taken, and
    * the result is the sampler's value at the pixel itself. */
  lemma BlurSmallRadius(coordPx: Vec2, radiusPx: real, sample: Vec2 -> Vec4, prim: Primitives)
    requires radiusPx <= 0.001
    ensures Blur(coordPx, radiusPx, sample, prim) == sample(coordPx)
  {
  }

  /** `blurPattern`. */
  method BlurPattern(coordPx: Vec2, radiusPx: real, sample: Vec2 -> Vec4, prim: Primitives) returns (color: Vec4)
    ensures color == Blur(coordPx, radiusPx, sample, prim)
  {
    if radiusPx <= 0.001 {
      return sample(coordPx);
    }
    var k := KernelFor(coordPx, radiusPx, prim);
    ghost var samples := BlurSamples(k, sample);
    ghost var weights := BlurWeights(k, prim);
    var centerW := Gaussian(0.0, k.sigma, prim);
    var acc := Scale4(sample(coordPx), centerW);
    var total := centerW;
    assert acc == WeightedSum(samples, weights, 1);
    var i := 0;
    while i < 16
      invariant 0 <= i <= 16
      invariant acc == WeightedSum(samples, weights, i + 1)
      invariant total == TotalWeight(weights, i + 1)
    {
      var offset := TapOffset(k, i);
      var w := TapWeight(k, i, prim);
      acc := Add4(acc, Scale4(sample(Add2(coordPx, offset)), w));
      total := total + w;
      i := i + 1;
    }
    color := Div4(acc, Max(total, 0.00001));
  }

  /** Every channel of `acc` lies in [0, t]. */
  predicate Within(acc: Vec4, t: real) {
    0.0 <= acc.r <= t && 0.0 <= acc.g <= t && 0.0 <= acc.b <= t && 0.0 <= acc.a <= t
  }

  lemma StepWithin(acc: Vec4, t: real, s: Vec4, w: real)
    requires Within(acc, t) && InUnit(s) && w >= 0.0
    ensures Within(Add4(acc, Scale4(s, w)), t + w)
  {
    AccStep(acc.r, t, s.r, w);
    AccStep(acc.g, t, s.g, w);
    AccStep(acc.b, t, s.b, w);
    AccStep(acc.a, t, s.a, w);
  }

  /** With samples in [0, 1] and non-negative weights, every channel of the
    * weighted sum lies between 0 and the total weight. */
  lemma {:induction false} WeightedSumBounds(samples: seq<Vec4>, weights: seq<real>, n: nat)
    requires n <= |samples| && n <= |weights|
    requires forall i :: 0 <= i < n ==> InUnit(samples[i]) && weights[i] >= 0.0
    ensures Within(WeightedSum(samples, weights, n), TotalWeight(weights, n))
  {
    if n > 0 {
      WeightedSumBounds(samples, weights, n - 1);
      StepWithin(WeightedSum(samples, weights, n - 1), TotalWeight(weights, n - 1), samples[n - 1], weights[n - 1]);
    }
  }

  /** With non-negative weights, the total is at least the first weight. */
  lemma {:induction false} TotalWeightAtLeastFirst(weights: seq<real>, n: nat)
    requires 0 < n <= |weights|
    requires forall i :: 0 <= i < n ==> weights[i] >= 0.0
    ensures TotalWeight(weights, n) >= weights[0]
  {
    if n > 1 {
      TotalWeightAtLeastFirst(weights, n - 1);
    }
  }

  /** The blur centre has weight 1, so the total weight is at least 1 and the
    * blurred colour is a weighted average: every channel of it stays in
    * [0, 1] when every sample does. */
  lemma BlurInUnit(coordPx: Vec2, radiusPx: real, sample: Vec2 -> Vec4, prim: Primitives)
    requires prim.Sound() && forall p :: InUnit(sample(p))
    ensures InUnit(Blur(coordPx, radiusPx, sample, prim))
  {
    if radiusPx > 0.001 {
      var k := KernelFor(coordPx, radiusPx, prim);
      var samples := BlurSamples(k, sample);
      var weights := BlurWeights(k, prim);
      assert forall i :: 0 <= i < 17 ==> InUnit(samples[i]) && weights[i] >= 0.0 by {
        forall i | 0 <= i < 17
          ensures InUnit(samples[i]) && weights[i] >= 0.0
        {
          if i > 0 {
            assert samples[i] == sample(Add2(k.coordPx, TapOffset(k, i - 1)));
            assert weights[i] == TapWeight(k, i - 1, prim);
          }
        }
      }
      WeightedSumBounds(samples, weights, 17);
      TotalWeightAtLeastFirst(weights, 17);
      var t := TotalWeight(weights, 17);
      assert Max(t, 0.00001) == t;
      DivWithin(WeightedSum(samples, weights, 17), t);
    }
  }

  /** Dividing a colour whose channels lie in [0, t] by `t` gives a colour in
    * [0, 1]. */
  lemma DivWithin(acc: Vec4, t: real)
    requires Within(acc, t) && t > 0.0
    ensures InUnit(Div4(acc, t))
  {
    DivUnit(acc.r, t);
    DivUnit(acc.g, t);
    DivUnit(acc.b, t);
    DivUnit(acc.a, t);
  }

  /** `samplePattern` for the current uniforms, as the sampler `blurPattern`
    * and `main` read the pattern through. */
  function Pattern(u: Uniforms, prim: Primitives): (f: Vec2 -> Vec4)
    requires TilesReady(u)
    ensures forall p :: f(p) == SamplePattern(p, u, prim)
  {
    p => SamplePattern(p, u, prim)
  }

  /** With sound primitives every sample of the pattern lies in [0, 1]. */
  lemma PatternInUnit(u: Uniforms, prim: Primitives)
    requires TilesReady(u) && prim.Sound()
    ensures forall p :: InUnit(Pattern(u, prim)(p))
  {
    forall p
      ensures InUnit(Pattern(u, prim)(p))
    {
      assert Pattern(u, prim)(p) == SamplePattern(p, u, prim);
    }
  }

  // ---------------------------------------------------------------------
  // The mask pipeline of main()
  // ---------------------------------------------------------------------

  /** `clamp((n - 0.5) * contrast + 0.5, 0, 1)`. */
  function Contrasted(n: real, contrast: real): (c: real)
    ensures 0.0 <= c <= 1.0
  {
    Clamp((n - 0.5) * contrast + 0.5, 0.0, 1.0)
  }

  /** The logistic S-curve `1 / (1 + exp(-10 (c - 0.5)))`. */
  function Shaped(contrasted: real, prim: Primitives): (s: real)
    ensures 0.0 < s < 1.0
  {
    var e := prim.exp(-10.0 * (contrasted - 0.5));
    assert 1.0 / (1.0 + e) < 1.0 by { DivUnit(1.0, 1.0 + e); assert 1.0 / (1.0 + e) != 1.0; }
    1.0 / (1.0 + e)
  }

  /** `clamp(shaped * strength, 0, 1)`. */
  function Mask(shaped: real, strength: real): (m: real)
    ensures 0.0 <= m <= 1.0
  {
    Clamp(shaped * strength, 0.0, 1.0)
  }

  /** A stronger mask strength never gives a weaker mask. */
  lemma MaskMonotone(shaped: real, s1: real, s2: real)
    requires shaped > 0.0 && s1 <= s2
    ensures Mask(shaped, s1) <= Mask(shaped, s2)
  {
    MulMonotone(shaped, s1, s2);
  }

  /** A non-positive strength gives no mask at all. */
  lemma MaskZero(shaped: real, strength: real)
    requires shaped > 0.0 && strength <= 0.0
    ensures Mask(shaped, strength) == 0.0
  {
    assert shaped * strength <= 0.0;
  }

  /** The pixel coordinate of a fragment. */
  function FragCoord(vUv: Vec2, u: Uniforms): Vec2 {
    Vec2(vUv.x * u.res.x, vUv.y * u.res.y)
  }

  /** The animated noise coordinate of a pixel. */
  function NoiseCoord(coord: Vec2, u: Uniforms, prim: Primitives): Vec2 {
    var t := u.time * u.noiseSpeed;
    var offsetAnim := Vec2(prim.sin(t * 0.7) * 0.5 + 0.5, prim.cos(t * 0.43) * 0.5 + 0.5);
    Add2(Scale2(coord, u.noiseScale), Scale2(offsetAnim, 20.0))
  }

  /** The grey level the noise visualisation shows. */
  function NoiseVis(contrasted: real, u: Uniforms, prim: Primitives): (v: Vec4)
    ensures InUnit(v) && v.a == 1.0
  {
    var t := u.time * u.noiseSpeed;
    var wide := Clamp((contrasted - 0.5) * 1.8 + 0.5, 0.0, 1.0);
    var brightness := Clamp(wide + 0.10 * prim.sin(t * 2.0), 0.0, 1.0);
    Vec4(brightness, brightness, brightness, 1.0)
  }

  /** The blur mask of a pixel whose noise value is `n`. */
  function MaskOf(n: real, u: Uniforms, prim: Primitives): (m: real)
    ensures 0.0 <= m <= 1.0
  {
    Mask(Shaped(Contrasted(n, u.noiseContrast), prim), u.blurMaskStrength)
  }

  /** The blur radius in pixels for a mask value: `blurRadius * mask^1.5`. */
  function BlurRadius(mask: real, u: Uniforms, prim: Primitives): real {
    u.blurRadius * prim.pow(mask, 1.5)
  }

  /** The colour `main` writes for a fragment, given the noise value `n`
    * that `fbmCustom` computes for it and the sampler `sample` the pattern
    * is read through. */
  function Shade(vUv: Vec2, n: real, sample: Vec2 -> Vec4, u: Uniforms, prim: Primitives): Vec4 {
    var coord := FragCoord(vUv, u);
    var mask := MaskOf(n, u, prim);
    var blurred := Blur(coord, BlurRadius(mask, u, prim), sample, prim);
    Mix4(Mix4(sample(coord), blurred, mask), NoiseVis(Contrasted(n, u.noiseContrast), u, prim), u.showNoise)
  }

  /** `main`: the noise value from `fbmCustom`, then the rest of the pipeline. */
  method ShadeFragment(vUv: Vec2, u: Uniforms, prim: Primitives) returns (fragColor: Vec4)
    requires TilesReady(u)
    ensures fragColor == Shade(vUv, Fbm(NoiseCoord(FragCoord(vUv, u), u, prim), u, prim), Pattern(u, prim), u, prim)
  {
    var sample := Pattern(u, prim);
    var n := FbmCustom(NoiseCoord(FragCoord(vUv, u), u, prim), u, prim);
    fragColor := ShadeWithNoise(vUv, n, sample, u, prim);
  }

  /** The part of `main` after the noise: contrast, S-curve and mask, a mix of
    * the sharp and blurred pattern, then a mix with the noise visualisation. */
  method ShadeWithNoise(vUv: Vec2, n: real, sample: Vec2 -> Vec4, u: Uniforms, prim: Primitives) returns (fragColor: Vec4)
    ensures fragColor == Shade(vUv, n, sample, u, prim)
  {
    var coord := FragCoord(vUv, u);
    var contrasted := Contrasted(n, u.noiseContrast);
    var shaped := Shaped(contrasted, prim);
    var mask := Mask(shaped, u.blurMaskStrength);
    assert mask == MaskOf(n, u, prim);
    var radius := BlurRadius(mask, u, prim);
    var base := sample(coord);
    var blurred := BlurPattern(coord, radius, sample, prim);
    var color := Mix4(base, blurred, mask);
    fragColor := Mix4(color, NoiseVis(contrasted, u, prim), u.showNoise);
  }

  /** Two nested mixes of colours in [0, 1] by weights in [0, 1] stay in
    * [0, 1]. */
  lemma MixTwiceUnit(a: Vec4, b: Vec4, m: Vec4, s: real, t: real)
    requires InUnit(a) && InUnit(b) && InUnit(m) && 0.0 <= s <= 1.0 && 0.0 <= t <= 1.0
    ensures InUnit(Mix4(Mix4(a, b, s), m, t))
  {
    Mix4Unit(a, b, s);
    Mix4Unit(Mix4(a, b, s), m, t);
  }

  /** With `showNoise` in [0, 1] and every sample in [0, 1], every channel of
    * the output lies in [0, 1], whatever the noise value. */
  lemma ShadeInUnit(vUv: Vec2, n: real, sample: Vec2 -> Vec4, u: Uniforms, prim: Primitives)
    requires prim.Sound() && 0.0 <= u.showNoise <= 1.0
    requires forall p :: InUnit(sample(p))
    ensures InUnit(Shade(vUv, n, sample, u, prim))
  {
    var coord := FragCoord(vUv, u);
    var mask := MaskOf(n, u, prim);
    var radius := BlurRadius(mask, u, prim);
    BlurInUnit(coord, radius, sample, prim);
    MixTwiceUnit(sample(coord), Blur(coord, radius, sample, prim),
                 NoiseVis(Contrasted(n, u.noiseContrast), u, prim), mask, u.showNoise);
  }

  /** Every fragment `main` writes has all channels in [0, 1] when the
    * primitives are sound and `showNoise` is in [0, 1]. */
  lemma FragmentInUnit(vUv: Vec2, u: Uniforms, prim: Primitives)
    requires TilesReady(u) && prim.Sound() && 0.0 <= u.showNoise <= 1.0
    ensures InUnit(Shade(vUv, Fbm(NoiseCoord(FragCoord(vUv, u), u, prim), u, prim), Pattern(u, prim), u, prim))
  {
    PatternInUnit(u, prim);
    ShadeInUnit(vUv, Fbm(NoiseCoord(FragCoord(vUv, u), u, prim), u, prim), Pattern(u, prim), u, prim);
  }

  /** With a non-positive mask strength the mask is 0, the blur radius is 0,
    * and with the visualisation off the output is the sharp sample. */
  lemma ShadeWithoutMask(vUv: Vec2, n: real, sample: Vec2 -> Vec4, u: Uniforms, prim: Primitives)
    requires prim.Sound() && u.blurMaskStrength <= 0.0 && u.showNoise == 0.0
    ensures Shade(vUv, n, sample, u, prim) == sample(FragCoord(vUv, u))
  {
    MaskZero(Shaped(Contrasted(n, u.noiseContrast), prim), u.blurMaskStrength);
    var coord := FragCoord(vUv, u);
    assert MaskOf(n, u, prim) == 0.0;
    assert BlurRadius(0.0, u, prim) == 0.0;
    BlurSmallRadius(coord, 0.0, sample, prim);
    MixZero(Mix4(sample(coord), sample(coord), 0.0), NoiseVis(Contrasted(n, u.noiseContrast), u, prim));
    MixZero(sample(coord), sample(coord));
  }

  /** Mixing by 0 keeps the first colour. */
  lemma MixZero(v: Vec4, w: Vec4)
    ensures Mix4(v, w, 0.0) == v
  {
  }

  /** With the visualisation on (`showNoise` 1), the output is the grey noise
    * level, opaque. */
  lemma ShadeShowNoise(vUv: Vec2, n: real, sample: Vec2 -> Vec4, u: Uniforms, prim: Primitives)
    requires u.showNoise == 1.0
    ensures Shade(vUv, n, sample, u, prim) == NoiseVis(Contrasted(n, u.noiseContrast), u, prim)
  {
    MixOne(Mix4(sample(FragCoord(vUv, u)), Blur(FragCoord(vUv, u), BlurRadius(MaskOf(n, u, prim), u, prim), sample, prim), MaskOf(n, u, prim)),
           NoiseVis(Contrasted(n, u.noiseContrast), u, prim));
  }

  /** Mixing by 1 gives the second colour. */
  lemma MixOne(v: Vec4, w: Vec4)
    ensures Mix4(v, w, 1.0) == w
  {
  }
}
