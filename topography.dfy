/**
 * The topographic map of crates/rg_worldgen/src/topography.rs: contour
 * lines of the height map at every multiple of the iso step up to the
 * maximum height, stroked onto an image whose pixels become RGB cells.
 * Tracing the contours and stroking them belong to foreign crates; the
 * drawn image is a parameter here.  f32 and f64 arithmetic is modelled on
 * reals.
 */
module Topography {
  import opened Wrappers
  import opened Grids

  /** `i32::MAX`. */
  const I32Max: int := 0x7FFF_FFFF
  /** `i32::MIN`. */
  const I32Min: int := -0x8000_0000

  /** A float cast to i32 (`as i32`): truncated toward zero and saturated at the i32 bounds. */
  function ToI32(x: real): (r: int)
    ensures I32Min <= r <= I32Max
    ensures 0.0 <= x ==> 0 <= r && r as real <= x
    ensures 0.0 <= x && x < I32Max as real ==> x < r as real + 1.0
  {
    var t := if x >= 0.0 then x.Floor else -((-x).Floor);
    if t > I32Max then I32Max else if t < I32Min then I32Min else t
  }

  /** The number of thresholds: the inclusive range `0..=n` is empty when n is negative. */
  function ThresholdCount(maxHeight: real, isoStep: real): nat
    requires isoStep != 0.0
  {
    var n := ToI32(maxHeight / isoStep);
    if n < 0 then 0 else n + 1
  }

  /**
   * The contour thresholds: k times the iso step for k = 0 ..= trunc(max_height / iso_step).
   * What they cover is stated by ThresholdsSpec and ThresholdsComplete below.
   */
  function Thresholds(maxHeight: real, isoStep: real): (r: seq<real>)
    requires isoStep != 0.0
    ensures |r| == ThresholdCount(maxHeight, isoStep)
    ensures forall k | 0 <= k < |r| :: r[k] == k as real * isoStep
  {
    seq(ThresholdCount(maxHeight, isoStep), (k: int) => k as real * isoStep)
  }

  /**
   * For a positive step and a height that is not negative: the list starts
   * at 0, has trunc(max_height / iso_step) + 1 entries, increases strictly,
   * and lies in [0, max_height].
   */
  lemma ThresholdsSpec(maxHeight: real, isoStep: real)
    requires isoStep > 0.0 && maxHeight >= 0.0
    ensures var t := Thresholds(maxHeight, isoStep);
      |t| == ToI32(maxHeight / isoStep) + 1 && t[0] == 0.0 &&
      (forall j, k | 0 <= j < k < |t| :: t[j] < t[k]) &&
      (forall k | 0 <= k < |t| :: 0.0 <= t[k] <= maxHeight)
  {
    var t := Thresholds(maxHeight, isoStep);
    var q := maxHeight / isoStep;
    assert q >= 0.0 by { QuotientSign(maxHeight, isoStep); }
    forall j, k | 0 <= j < k < |t| ensures t[j] < t[k] {
      ScaleStrict(j as real, k as real, isoStep);
    }
    forall k | 0 <= k < |t| ensures 0.0 <= t[k] <= maxHeight {
      assert k as real <= q;
      ScaleBelow(k as real, maxHeight, isoStep);
    }
  }

  /**
   * No multiple of the step within the height is missed: when the quotient
   * does not saturate the i32, the next multiple lies above max_height.
   */
  lemma ThresholdsComplete(maxHeight: real, isoStep: real)
    requires isoStep > 0.0 && maxHeight >= 0.0 && maxHeight / isoStep < I32Max as real
    ensures |Thresholds(maxHeight, isoStep)| as real * isoStep > maxHeight
  {
    var q := maxHeight / isoStep;
    assert q >= 0.0 by { QuotientSign(maxHeight, isoStep); }
    var n := |Thresholds(maxHeight, isoStep)|;
    assert q < n as real;
    ScaleAbove(n as real, maxHeight, isoStep);
  }

  lemma QuotientSign(a: real, s: real)
    requires a >= 0.0 && s > 0.0
    ensures a / s >= 0.0
  {
  }

  lemma ScaleStrict(a: real, b: real, s: real)
    requires a < b && s > 0.0
    ensures a * s < b * s
  {
  }

  /** k <= a / s gives k * s <= a for a positive step. */
  lemma ScaleBelow(k: real, a: real, s: real)
    requires s > 0.0 && 0.0 <= k <= a / s
    ensures 0.0 <= k * s <= a
  {
    assert k * s <= (a / s) * s;
  }

  /** a / s < n gives a < n * s for a positive step. */
  lemma ScaleAbove(n: real, a: real, s: real)
    requires s > 0.0 && a / s < n
    ensures n * s > a
  {
    assert (a / s) * s < n * s;
  }

  /** The stroke width of a contour line: 2 at sea level, 1 elsewhere. */
  function StrokeWidth(threshold: real): (w: real)
    ensures w == 1.0 || w == 2.0
  {
    if threshold == 0.0 then 2.0 else 1.0
  }

  /** With a non-zero step, only the first threshold, sea level, is stroked wide. */
  lemma OnlyFirstIsWide(maxHeight: real, isoStep: real, k: nat)
    requires isoStep != 0.0 && k < |Thresholds(maxHeight, isoStep)|
    ensures StrokeWidth(Thresholds(maxHeight, isoStep)[k]) == 2.0 <==> k == 0
  {
    if k != 0 {
      assert k as real * isoStep != 0.0;
    }
  }

  /** An RGB pixel. */
  datatype Rgb = Rgb(r: bv8, g: bv8, b: bv8)

  /** The low byte of a u32 (`as u8`). */
  function LowByte(v: bv32): bv8 {
    (v & 0xFF) as bv8
  }

  /** A drawn u32 pixel unpacked as bits 16..23, 8..15 and 0..7; the top byte (alpha) is dropped. */
  function PixelBytes(v: bv32): Rgb {
    Rgb(LowByte(v >> 16), LowByte(v >> 8), LowByte(v))
  }

  /**
   * The three bytes are the low 24 bits of the pixel: repacking them gives
   * v with its top byte cleared, so pixels differing below the top byte
   * give different cells.
   */
  lemma PixelBytesRepack(v: bv32)
    ensures var p := PixelBytes(v);
      ((p.r as bv32) << 16) | ((p.g as bv32) << 8) | (p.b as bv32) == v & 0xFF_FFFF
  {
    assert (v >> 16) & 0xFF == (LowByte(v >> 16) as bv32);
    assert (v >> 8) & 0xFF == (LowByte(v >> 8) as bv32);
    assert v & 0xFF == (LowByte(v) as bv32);
  }

  /**
   * The last step of `generate_topographic_map`: the drawn image, one u32
   * per cell in row-major order, becomes a grid of the height map's size
   * whose cell i holds the bytes of pixel i.
   */
  function PixelGrid(size: UVec2, image: seq<bv32>): (r: GridValue<Rgb>)
    requires |image| == size.Area()
    ensures r.size == size && r.origin == Zero
    ensures forall i | 0 <= i < |image| :: r.cells[i] == PixelBytes(image[i])
  {
    RawGrid(Zero, size, seq(|image|, (i: int) requires 0 <= i < |image| => PixelBytes(image[i])))
  }
}
