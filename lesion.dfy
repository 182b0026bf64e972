/** The per-pixel rules of the stroke simulation: the three concentric
    regions around the lesion centre, the vessel threshold, the SO2 value a
    region receives and the label a pixel receives. The generator in module
    GroundTruth applies these rules to whole rasters. */
module Lesion {

  /** A point given as (x, y), that is (column, row). */
  datatype Point = Point(x: int, y: int)

  datatype Region = Core | Penumbra | Normal

  /** The squared Euclidean distance from pixel (row, col) to `c`. */
  function SqDist(row: int, col: int, c: Point): (d2: nat)
    ensures d2 == 0 <==> row == c.y && col == c.x
  {
    (col - c.x) * (col - c.x) + (row - c.y) * (row - c.y)
  }

  // The three region masks. With integer radius r and width p, `dist <= r`
  // holds exactly when `dist^2 <= r^2` (see DistanceTestIsSquaredTest).

  predicate InCoreMask(d2: nat, r: nat) {
    d2 <= r * r
  }

  predicate InPenumbraMask(d2: nat, r: nat, p: nat) {
    r * r < d2 && d2 <= (r + p) * (r + p)
  }

  predicate InNormalMask(d2: nat, r: nat, p: nat) {
    d2 > (r + p) * (r + p)
  }

  /** Comparing the distance with an integer radius is the same as comparing
      the squared distance with the squared radius. */
  lemma DistanceTestIsSquaredTest(dist: real, d2: nat, r: nat)
    requires 0.0 <= dist && dist * dist == d2 as real
    ensures dist <= r as real <==> d2 <= r * r
  {
    var rr := r as real;
    assert (r * r) as real == rr * rr;
    if dist <= rr {
      assert dist * dist <= rr * dist <= rr * rr;
    } else {
      assert dist - rr > 0.0;
      assert dist * (dist - rr) > 0.0;
      assert rr * (dist - rr) >= 0.0;
      assert dist * dist - rr * rr == dist * (dist - rr) + rr * (dist - rr);
      assert d2 as real > (r * r) as real;
    }
  }

  lemma SquareMonotone(a: nat, b: nat)
    requires a <= b
    ensures a * a <= b * b
  {
    assert a * a <= a * b <= b * b;
  }

  /** Every pixel lies in exactly one of the three masks. */
  lemma RegionsPartition(d2: nat, r: nat, p: nat)
    ensures InCoreMask(d2, r) || InPenumbraMask(d2, r, p) || InNormalMask(d2, r, p)
    ensures !(InCoreMask(d2, r) && InPenumbraMask(d2, r, p))
    ensures !(InCoreMask(d2, r) && InNormalMask(d2, r, p))
    ensures !(InPenumbraMask(d2, r, p) && InNormalMask(d2, r, p))
  {
    SquareMonotone(r, r + p);
  }

  /** The region a pixel at squared distance d2 falls in. */
  function RegionOf(d2: nat, r: nat, p: nat): (g: Region)
    ensures g == Core <==> InCoreMask(d2, r)
    ensures g == Penumbra <==> InPenumbraMask(d2, r, p)
    ensures g == Normal <==> InNormalMask(d2, r, p)
  {
    RegionsPartition(d2, r, p);
    if InCoreMask(d2, r) then Core
    else if InPenumbraMask(d2, r, p) then Penumbra
    else Normal
  }

  /** A pixel can lie in the penumbra only when the width is positive, so
      the normalisation by the width never divides by zero on a pixel it
      is applied to. */
  lemma PenumbraNeedsWidth(d2: nat, r: nat, p: nat)
    requires InPenumbraMask(d2, r, p)
    ensures p >= 1
  {
  }

  /** Growing the core radius, the other parameters fixed, never removes a
      pixel from the core. */
  lemma CoreGrowsWithRadius(d2: nat, r: nat, r': nat)
    requires r <= r' && InCoreMask(d2, r)
    ensures InCoreMask(d2, r')
  {
    SquareMonotone(r, r');
  }

  /** The centre itself is always in the core, even for radius 0. */
  lemma CentreIsCore(c: Point, r: nat, p: nat)
    ensures RegionOf(SqDist(c.y, c.x, c), r, p) == Core
  {
  }

  /** The binary vessel mask: `cv2.threshold(mask, 10, 1, THRESH_BINARY)`
      gives 1 where the mask exceeds 10 and 0 elsewhere. */
  function VesselBit(m: int): (b: int)
    ensures b == 0 || b == 1
    ensures b == 1 <==> m > 10
  {
    if m > 10 then 1 else 0
  }

  /** The SO2 levels of the three regions. The penumbra level is used only
      when the penumbra is empty, so it never reaches a pixel. */
  datatype So2Levels = So2Levels(normal: int, penumbra: int, core: int)

  const DefaultLevels := So2Levels(220, 140, 60)

  /** Levels that fit the 8-bit output and keep the clip interval non-empty.
      The penumbra level is free: it never reaches a pixel. */
  predicate ValidLevels(lv: So2Levels) {
    0 <= lv.core <= lv.normal <= 255
  }

  /** `np.clip(v, lo, hi)`. */
  function Clip(v: int, lo: int, hi: int): (c: int)
    requires lo <= hi
    ensures lo <= c <= hi
    ensures lo <= v <= hi ==> c == v
    ensures v < lo ==> c == lo
    ensures v > hi ==> c == hi
  {
    if v < lo then lo else if v > hi then hi else v
  }

  /** The SO2 map before gating. `sample` stands for the truncated value of
      the linear interpolation plus Gaussian noise at this pixel; whatever it
      is, the clip keeps the penumbra between the core and normal levels. */
  function So2MapValue(g: Region, sample: int, lv: So2Levels): (v: int)
    requires ValidLevels(lv)
    ensures g == Core ==> v == lv.core
    ensures g == Normal ==> v == lv.normal
    ensures g == Penumbra ==> lv.core <= v <= lv.normal
    ensures g == Penumbra && lv.core <= sample <= lv.normal ==> v == sample
  {
    match g
    case Normal => lv.normal
    case Penumbra => Clip(sample, lv.core, lv.normal)
    case Core => lv.core
  }

  /** A pixel of the final SO2 image: the map value times the vessel bit,
      cast to 8 bits (the value is already in [0, 255]). */
  function So2Pixel(m: int, g: Region, sample: int, lv: So2Levels): (v: int)
    requires ValidLevels(lv)
    ensures 0 <= v <= 255
    ensures m <= 10 ==> v == 0
    ensures m > 10 ==> v == So2MapValue(g, sample, lv)
  {
    So2MapValue(g, sample, lv) * VesselBit(m)
  }

  /** A pixel of the label image: 0 off the vessels, else 3 for the core,
      2 for the penumbra and 1 for normal tissue. */
  function LabelPixel(m: int, g: Region): (l: int)
    ensures 0 <= l <= 3
    ensures l == 0 <==> m <= 10
    ensures l == 3 <==> m > 10 && g == Core
    ensures l == 2 <==> m > 10 && g == Penumbra
    ensures l == 1 <==> m > 10 && g == Normal
  {
    if VesselBit(m) != 1 then 0
    else match g
      case Core => 3
      case Penumbra => 2
      case Normal => 1
  }

  /** The label write of region g at one pixel:
      `label_map[g_mask & (vessel_binary == 1)] = label of g`. */
  function LabelWrite(v: int, g: Region, m: int, d2: nat, r: nat, p: nat): int {
    match g
    case Core => if InCoreMask(d2, r) && VesselBit(m) == 1 then 3 else v
    case Penumbra => if InPenumbraMask(d2, r, p) && VesselBit(m) == 1 then 2 else v
    case Normal => if InNormalMask(d2, r, p) && VesselBit(m) == 1 then 1 else v
  }

  /** The three gated masks are disjoint, so the three label writes may come
      in any order: starting from 0, every order gives `LabelPixel`. */
  lemma LabelWritesAnyOrder(m: int, d2: nat, r: nat, p: nat, g1: Region, g2: Region, g3: Region)
    requires g1 != g2 && g1 != g3 && g2 != g3
    ensures LabelWrite(LabelWrite(LabelWrite(0, g1, m, d2, r, p), g2, m, d2, r, p), g3, m, d2, r, p)
      == LabelPixel(m, RegionOf(d2, r, p))
  {
    RegionsPartition(d2, r, p);
  }

  /** Label and signal agree at every pixel: background in one is
      background in the other, the core carries the core level and normal
      tissue the normal level. */
  lemma LabelMatchesSignal(m: int, g: Region, sample: int, lv: So2Levels)
    requires ValidLevels(lv) && lv.core > 0
    ensures LabelPixel(m, g) == 0 <==> So2Pixel(m, g, sample, lv) == 0
    ensures LabelPixel(m, g) == 3 ==> So2Pixel(m, g, sample, lv) == lv.core
    ensures LabelPixel(m, g) == 1 ==> So2Pixel(m, g, sample, lv) == lv.normal
    ensures LabelPixel(m, g) == 2 ==> lv.core <= So2Pixel(m, g, sample, lv) <= lv.normal
  {
  }

  /** With the default levels: core 60, normal 220, penumbra within
      [60, 220] whatever the noise, and 0 exactly off the vessels. */
  lemma DefaultLevelValues(m: int, g: Region, sample: int)
    ensures var v := So2Pixel(m, g, sample, DefaultLevels);
      && (v == 0 <==> m <= 10)
      && (m > 10 && g == Core ==> v == 60)
      && (m > 10 && g == Normal ==> v == 220)
      && (m > 10 && g == Penumbra ==> 60 <= v <= 220)
  {
  }
}
