/** The synthetic ground-truth generator `PicGroundTruth`: from a grayscale
    vessel mask it produces a simulated SO2 image and, optionally, a 4-class
    label image (0 background, 1 normal, 2 penumbra, 3 core) around one
    lesion; `batch_process` runs it over a directory. The random draws are
    the parameters `Draws` and `sample`. */
module GroundTruth {
  import opened Optional
  import opened Lesion
  import opened Raster
  import opened Paths
  import Names

  /** A pixel position as numpy indexes it: (row, column). */
  datatype Index = Index(row: nat, col: nat)

  predicate RowMajorLess(a: Index, b: Index) {
    a.row < b.row || (a.row == b.row && a.col < b.col)
  }

  /** The pixels of columns [0, cols) of one row whose mask value exceeds 20. */
  function RowVesselIndices(mask: array2<int>, row: nat, cols: nat): seq<Index>
    requires row < mask.Length0 && cols <= mask.Length1
    reads mask
  {
    if cols == 0 then []
    else
      RowVesselIndices(mask, row, cols - 1)
      + (if mask[row, cols - 1] > 20 then [Index(row, cols - 1)] else [])
  }

  /** `np.where(mask > 20)` over rows [0, rows), in row-major order. */
  function VesselIndices(mask: array2<int>, rows: nat): seq<Index>
    requires rows <= mask.Length0
    reads mask
  {
    if rows == 0 then []
    else VesselIndices(mask, rows - 1) + RowVesselIndices(mask, rows - 1, mask.Length1)
  }

  lemma {:induction false} RowVesselIndicesMembers(mask: array2<int>, row: nat, cols: nat)
    requires row < mask.Length0 && cols <= mask.Length1
    ensures forall p :: p in RowVesselIndices(mask, row, cols) <==>
      p.row == row && p.col < cols && mask[p.row, p.col] > 20
  {
    if cols > 0 {
      RowVesselIndicesMembers(mask, row, cols - 1);
    }
  }

  lemma {:induction false} RowVesselIndicesOrdered(mask: array2<int>, row: nat, cols: nat)
    requires row < mask.Length0 && cols <= mask.Length1
    ensures forall a, b :: 0 <= a < b < |RowVesselIndices(mask, row, cols)| ==>
      RowVesselIndices(mask, row, cols)[a].col < RowVesselIndices(mask, row, cols)[b].col
  {
    if cols > 0 {
      RowVesselIndicesOrdered(mask, row, cols - 1);
      RowVesselIndicesMembers(mask, row, cols - 1);
    }
  }

  /** The candidates are exactly the pixels above 20. */
  lemma {:induction false} VesselIndicesMembers(mask: array2<int>, rows: nat)
    requires rows <= mask.Length0
    ensures forall p :: p in VesselIndices(mask, rows) <==>
      p.row < rows && p.col < mask.Length1 && mask[p.row, p.col] > 20
  {
    if rows > 0 {
      VesselIndicesMembers(mask, rows - 1);
      RowVesselIndicesMembers(mask, rows - 1, mask.Length1);
      var front := VesselIndices(mask, rows - 1);
      var last := RowVesselIndices(mask, rows - 1, mask.Length1);
      assert VesselIndices(mask, rows) == front + last;
      forall p: Index
        ensures p in front + last <==> p.row < rows && p.col < mask.Length1 && mask[p.row, p.col] > 20
      {
        assert p in front + last <==> p in front || p in last;
        assert p in front <==> p.row < rows - 1 && p.col < mask.Length1 && mask[p.row, p.col] > 20;
        assert p in last <==> p.row == rows - 1 && p.col < mask.Length1 && mask[p.row, p.col] > 20;
      }
    }
  }

  /** The candidates come in the row-major order in which numpy lists them,
      each once. */
  lemma {:induction false} VesselIndicesOrdered(mask: array2<int>, rows: nat)
    requires rows <= mask.Length0
    ensures forall a, b :: 0 <= a < b < |VesselIndices(mask, rows)| ==>
      RowMajorLess(VesselIndices(mask, rows)[a], VesselIndices(mask, rows)[b])
  {
    if rows > 0 {
      VesselIndicesOrdered(mask, rows - 1);
      VesselIndicesMembers(mask, rows - 1);
      RowVesselIndicesMembers(mask, rows - 1, mask.Length1);
      RowVesselIndicesOrdered(mask, rows - 1, mask.Length1);
      var front := VesselIndices(mask, rows - 1);
      var last := RowVesselIndices(mask, rows - 1, mask.Length1);
      var all := front + last;
      forall a, b | 0 <= a < b < |all|
        ensures RowMajorLess(all[a], all[b])
      {
        if b < |front| {
          assert all[a] == front[a] && all[b] == front[b];
        } else if a >= |front| {
          assert all[a] == last[a - |front|] && all[b] == last[b - |front|];
        } else {
          assert all[a] == front[a] && front[a] in front;
          assert all[b] == last[b - |front|] && last[b - |front|] in last;
        }
      }
    }
  }

  /** The vessel candidates of the whole mask, found by scanning it. */
  method FindVesselIndices(mask: array2<int>) returns (found: seq<Index>)
    ensures found == VesselIndices(mask, mask.Length0)
  {
    found := [];
    var i := 0;
    while i < mask.Length0
      invariant 0 <= i <= mask.Length0
      invariant found == VesselIndices(mask, i)
    {
      var j := 0;
      while j < mask.Length1
        invariant 0 <= j <= mask.Length1
        invariant found == VesselIndices(mask, i) + RowVesselIndices(mask, i, j)
      {
        if mask[i, j] > 20 {
          found := found + [Index(i, j)];
        }
        j := j + 1;
      }
      i := i + 1;
    }
  }

  function Min(a: int, b: int): int {
    if a < b then a else b
  }

  /** The random draws of one generation. `pick` chooses among the vessel
      candidates, `fallbackX`/`fallbackY` place the centre when there is
      none, `radius` and `width` are the core radius and penumbra width. */
  datatype Draws = Draws(pick: int, fallbackX: int, fallbackY: int, radius: int, width: int)

  /** `min(h, w) // 5`. */
  function Margin(h: nat, w: nat): nat {
    Min(h, w) / 5
  }

  /** `min(h, w) // 15` and `min(h, w) // 8`, the bounds of both size draws. */
  function SizeLow(h: nat, w: nat): nat {
    Min(h, w) / 15
  }

  function SizeHigh(h: nat, w: nat): nat {
    Min(h, w) / 8
  }

  /** Each draw lies in the inclusive range `random.randint` gives it. */
  predicate DrawsInRange(d: Draws, h: nat, w: nat, candidates: nat) {
    && (candidates > 0 ==> 0 <= d.pick <= candidates - 1)
    && Margin(h, w) <= d.fallbackX <= w - Margin(h, w)
    && Margin(h, w) <= d.fallbackY <= h - Margin(h, w)
    && SizeLow(h, w) <= d.radius <= SizeHigh(h, w)
    && SizeLow(h, w) <= d.width <= SizeHigh(h, w)
  }

  /** Every range is non-empty, so a draw always exists. */
  lemma DrawRangesNonEmpty(h: nat, w: nat, candidates: nat)
    ensures DrawsInRange(Draws(0, Margin(h, w), Margin(h, w), SizeLow(h, w), SizeLow(h, w)), h, w, candidates)
  {
  }

  /** The automatically chosen centre, as (x, y) = (column, row): a vessel
      candidate if there is one, else the fallback point. */
  function AutoCentre(candidates: seq<Index>, h: nat, w: nat, d: Draws): (c: Point)
    requires DrawsInRange(d, h, w, |candidates|)
    ensures |candidates| > 0 ==> c.x >= 0 && c.y >= 0 && Index(c.y, c.x) in candidates
    ensures |candidates| == 0 ==>
      Margin(h, w) <= c.x <= w - Margin(h, w) && Margin(h, w) <= c.y <= h - Margin(h, w)
  {
    if |candidates| > 0 then
      var p := candidates[d.pick];
      Point(p.col, p.row)
    else Point(d.fallbackX, d.fallbackY)
  }

  /** The fallback centre lies inside the image whenever min(h, w) >= 5;
      for smaller images its upper bound reaches one past the last
      column or row. */
  lemma FallbackCentreInImage(h: nat, w: nat, d: Draws)
    requires DrawsInRange(d, h, w, 0) && Min(h, w) >= 5
    ensures 0 < d.fallbackX < w && 0 < d.fallbackY < h
  {
  }

  lemma FallbackCentreMayLeaveSmallImage()
    ensures var d := Draws(0, 4, 4, 0, 0);
      DrawsInRange(d, 4, 4, 0) && AutoCentre([], 4, 4, d) == Point(4, 4)
  {
  }

  /** The optional arguments of `generate_stroke_so2`; `None` means the
      value is drawn (or, for the levels, the defaults are used). */
  datatype Args = Args(centre: Option<Point>, radius: Option<int>, width: Option<int>, levels: Option<So2Levels>)

  predicate ArgsOk(a: Args) {
    && (a.radius.Some? ==> a.radius.value >= 0)
    && (a.width.Some? ==> a.width.value >= 0)
    && (a.levels.Some? ==> ValidLevels(a.levels.value))
  }

  /** What one call produces: the parameters it returns and the rasters it
      writes (the label only when a label path is given). */
  datatype Generated = Generated(centre: Point, radius: nat, width: nat, so2: array2<int>, labelImg: Option<array2<int>>)

  function LevelsOf(a: Args): So2Levels {
    if a.levels.Some? then a.levels.value else DefaultLevels
  }

  /** The three region masks of one lesion, as fresh boolean rasters. */
  method RegionMasks(h: nat, w: nat, c: Point, r: nat, p: nat)
    returns (core: array2<bool>, penumbra: array2<bool>, normal: array2<bool>)
    ensures fresh(core) && fresh(penumbra) && fresh(normal)
    ensures core.Length0 == penumbra.Length0 == normal.Length0 == h
    ensures core.Length1 == penumbra.Length1 == normal.Length1 == w
    ensures forall i, j :: 0 <= i < h && 0 <= j < w ==>
      && core[i, j] == InCoreMask(SqDist(i, j, c), r)
      && penumbra[i, j] == InPenumbraMask(SqDist(i, j, c), r, p)
      && normal[i, j] == InNormalMask(SqDist(i, j, c), r, p)
  {
    core := new bool[h, w];
    penumbra := new bool[h, w];
    normal := new bool[h, w];
    var i := 0;
    while i < h
      invariant 0 <= i <= h
      invariant forall y, x :: 0 <= y < i && 0 <= x < w ==>
        && core[y, x] == InCoreMask(SqDist(y, x, c), r)
        && penumbra[y, x] == InPenumbraMask(SqDist(y, x, c), r, p)
        && normal[y, x] == InNormalMask(SqDist(y, x, c), r, p)
    {
      var j := 0;
      while j < w
        invariant 0 <= j <= w
        invariant forall y, x :: 0 <= y < i && 0 <= x < w ==>
          && core[y, x] == InCoreMask(SqDist(y, x, c), r)
          && penumbra[y, x] == InPenumbraMask(SqDist(y, x, c), r, p)
          && normal[y, x] == InNormalMask(SqDist(y, x, c), r, p)
        invariant forall x :: 0 <= x < j ==>
          && core[i, x] == InCoreMask(SqDist(i, x, c), r)
          && penumbra[i, x] == InPenumbraMask(SqDist(i, x, c), r, p)
          && normal[i, x] == InNormalMask(SqDist(i, x, c), r, p)
      {
        var d2 := (j - c.x) * (j - c.x) + (i - c.y) * (i - c.y);
        core[i, j] := d2 <= r * r;
        penumbra[i, j] := d2 > r * r && d2 <= (r + p) * (r + p);
        normal[i, j] := d2 > (r + p) * (r + p);
        j := j + 1;
      }
      i := i + 1;
    }
  }

  /** The centre `generate_stroke_so2` uses: the given one, else a vessel
      candidate picked by `d.pick`, else the fallback point. */
  method ChooseCentre(m: array2<int>, given: Option<Point>, d: Draws) returns (c: Point)
    requires DrawsInRange(d, m.Length0, m.Length1, |VesselIndices(m, m.Length0)|)
    ensures c == if given.Some? then given.value
                 else AutoCentre(VesselIndices(m, m.Length0), m.Length0, m.Length1, d)
  {
    if given.Some? {
      c := given.value;
    } else {
      var candidates := FindVesselIndices(m);
      if |candidates| > 0 {
        var p := candidates[d.pick];
        c := Point(p.col, p.row);
      } else {
        c := Point(d.fallbackX, d.fallbackY);
      }
    }
  }

  /** The region masks of centre `c`, radius `r` and width `p` over `m`'s shape. */
  ghost predicate AreRegionMasks(m: array2<int>, core: array2<bool>, penumbra: array2<bool>, normal: array2<bool>,
                                 c: Point, r: nat, p: nat)
    reads core, penumbra, normal
  {
    && SameShape(core, m) && SameShape(penumbra, m) && SameShape(normal, m)
    && forall i, j :: 0 <= i < m.Length0 && 0 <= j < m.Length1 ==>
         && core[i, j] == InCoreMask(SqDist(i, j, c), r)
         && penumbra[i, j] == InPenumbraMask(SqDist(i, j, c), r, p)
         && normal[i, j] == InNormalMask(SqDist(i, j, c), r, p)
  }

  /** The SO2 image: zeros, the normal level on the normal region, the
      clipped samples on the penumbra (or the penumbra level when the
      penumbra is empty), the core level on the core, then gated by the
      vessel mask. */
  method So2Image(m: array2<int>, vessel: array2<int>, core: array2<bool>, penumbra: array2<bool>,
                  normal: array2<bool>, lv: So2Levels, sample: (int, int) -> int,
                  ghost c: Point, ghost r: nat, ghost p: nat)
    returns (img: array2<int>)
    requires ValidLevels(lv) && SameShape(vessel, m)
    requires AreRegionMasks(m, core, penumbra, normal, c, r, p)
    requires forall i, j :: 0 <= i < m.Length0 && 0 <= j < m.Length1 ==> vessel[i, j] == VesselBit(m[i, j])
    ensures fresh(img) && SameShape(img, m)
    ensures forall i, j :: 0 <= i < m.Length0 && 0 <= j < m.Length1 ==>
      img[i, j] == So2Pixel(m[i, j], RegionOf(SqDist(i, j, c), r, p), sample(i, j), lv)
  {
    var so2Map := new int[m.Length0, m.Length1]((i, j) => 0);
    MaskedFill(so2Map, normal, lv.normal);
    var anyPenumbra := AnySelected(penumbra);
    if anyPenumbra {
      MaskedClip(so2Map, penumbra, sample, lv.core, lv.normal);
    } else {
      MaskedFill(so2Map, penumbra, lv.penumbra);
    }
    MaskedFill(so2Map, core, lv.core);
    forall i, j | 0 <= i < m.Length0 && 0 <= j < m.Length1
      ensures so2Map[i, j] == So2MapValue(RegionOf(SqDist(i, j, c), r, p), sample(i, j), lv)
    {
      RegionsPartition(SqDist(i, j, c), r, p);
    }
    img := Multiply(so2Map, vessel);
  }

  /** The label image: zeros, then 1, 2 and 3 on the vessel pixels of the
      normal region, the penumbra and the core. */
  method LabelImage(m: array2<int>, vessel: array2<int>, core: array2<bool>, penumbra: array2<bool>,
                    normal: array2<bool>, ghost c: Point, ghost r: nat, ghost p: nat)
    returns (img: array2<int>)
    requires SameShape(vessel, m)
    requires AreRegionMasks(m, core, penumbra, normal, c, r, p)
    requires forall i, j :: 0 <= i < m.Length0 && 0 <= j < m.Length1 ==> vessel[i, j] == VesselBit(m[i, j])
    ensures fresh(img) && SameShape(img, m)
    ensures forall i, j :: 0 <= i < m.Length0 && 0 <= j < m.Length1 ==>
      img[i, j] == LabelPixel(m[i, j], RegionOf(SqDist(i, j, c), r, p))
  {
    img := new int[m.Length0, m.Length1]((i, j) => 0);
    var normalVessel := AndVessel(normal, vessel);
    var penumbraVessel := AndVessel(penumbra, vessel);
    var coreVessel := AndVessel(core, vessel);
    MaskedFill(img, normalVessel, 1);
    MaskedFill(img, penumbraVessel, 2);
    MaskedFill(img, coreVessel, 3);
    forall i, j | 0 <= i < m.Length0 && 0 <= j < m.Length1
      ensures img[i, j] == LabelPixel(m[i, j], RegionOf(SqDist(i, j, c), r, p))
    {
      RegionsPartition(SqDist(i, j, c), r, p);
    }
  }

  /** `generate_stroke_so2`. `mask` is the decoded mask, `None` when it
      cannot be read; `wantLabel` says whether a label path was given;
      `sample(i, j)` is the interpolated penumbra value plus noise at pixel
      (i, j), truncated to an integer, before the clip. */
  method GenerateStrokeSo2(mask: Option<array2<int>>, wantLabel: bool, args: Args, d: Draws,
                           sample: (int, int) -> int)
    returns (res: Option<Generated>)
    requires ArgsOk(args)
    requires mask.Some? ==>
      DrawsInRange(d, mask.value.Length0, mask.value.Length1,
                   |VesselIndices(mask.value, mask.value.Length0)|)
    ensures mask.None? <==> res.None?
    ensures mask.Some? ==>
      var m, g := mask.value, res.value;
      var h, w := m.Length0, m.Length1;
      && g.centre == (if args.centre.Some? then args.centre.value
                      else AutoCentre(VesselIndices(m, h), h, w, d))
      && g.radius == (if args.radius.Some? then args.radius.value else d.radius)
      && g.width == (if args.width.Some? then args.width.value else d.width)
      && fresh(g.so2) && g.so2.Length0 == h && g.so2.Length1 == w
      && (forall i, j :: 0 <= i < h && 0 <= j < w ==>
            g.so2[i, j] == So2Pixel(m[i, j], RegionOf(SqDist(i, j, g.centre), g.radius, g.width),
                                    sample(i, j), LevelsOf(args)))
      && (g.labelImg.Some? <==> wantLabel)
      && (wantLabel ==>
            && fresh(g.labelImg.value) && g.labelImg.value.Length0 == h && g.labelImg.value.Length1 == w
            && forall i, j :: 0 <= i < h && 0 <= j < w ==>
                 g.labelImg.value[i, j] == LabelPixel(m[i, j], RegionOf(SqDist(i, j, g.centre), g.radius, g.width)))
  {
    if mask.None? {
      return None;
    }
    var m := mask.value;
    var centre := ChooseCentre(m, args.centre, d);
    var radius: nat := if args.radius.Some? then args.radius.value else d.radius;
    var width: nat := if args.width.Some? then args.width.value else d.width;
    var lv := LevelsOf(args);

    var core, penumbra, normal := RegionMasks(m.Length0, m.Length1, centre, radius, width);
    var vessel := VesselBinary(m);
    var so2 := So2Image(m, vessel, core, penumbra, normal, lv, sample, centre, radius, width);
    var labelImg: Option<array2<int>> := None;
    if wantLabel {
      var labelMap := LabelImage(m, vessel, core, penumbra, normal, centre, radius, width);
      labelImg := Some(labelMap);
    }
    res := Some(Generated(centre, radius, width, so2, labelImg));
  }

  /** When the centre is chosen among the vessel candidates, it is a vessel
      pixel and lies in the core, so the label there is 3 and the SO2 value
      the core level. */
  lemma AutoCentreIsLabelledCore(mask: array2<int>, d: Draws, r: nat, p: nat, sample: int, lv: So2Levels)
    requires ValidLevels(lv)
    requires |VesselIndices(mask, mask.Length0)| > 0
    requires DrawsInRange(d, mask.Length0, mask.Length1, |VesselIndices(mask, mask.Length0)|)
    ensures var c := AutoCentre(VesselIndices(mask, mask.Length0), mask.Length0, mask.Length1, d);
      && 0 <= c.y < mask.Length0 && 0 <= c.x < mask.Length1
      && LabelPixel(mask[c.y, c.x], RegionOf(SqDist(c.y, c.x, c), r, p)) == 3
      && So2Pixel(mask[c.y, c.x], RegionOf(SqDist(c.y, c.x, c), r, p), sample, lv) == lv.core
  {
    var candidates := VesselIndices(mask, mask.Length0);
    var c := AutoCentre(candidates, mask.Length0, mask.Length1, d);
    VesselIndicesMembers(mask, mask.Length0);
    assert Index(c.y, c.x) in candidates;
    assert mask[c.y, c.x] > 20;
    CentreIsCore(c, r, p);
  }

  // ---- batch_process ----

  /** One call of the generator that `batch_process` makes: the call of
      `GenerateStrokeSo2` on the mask read from `input`, asking for a label
      image exactly when `labelPath` is given, with the optional arguments
      `args`, which `batch_process` always leaves at their defaults. */
  datatype Job = Job(input: string, imagePath: string, labelPath: Option<string>, args: Args)

  /** No centre, radius, width or levels given: all are drawn or defaulted. */
  const DefaultArgs := Args(None, None, None, None)

  /** `f"_sim_{i+1:02d}"` when several variants are made, else nothing. */
  function VariantSuffix(i: nat, count: int): string {
    if count > 1 then "_sim_" + Names.ZeroPad(i + 1, 2) else ""
  }

  function ImageName(base: string, i: nat, count: int): string {
    base + VariantSuffix(i, count) + ".png"
  }

  function LabelName(base: string, i: nat, count: int): string {
    base + VariantSuffix(i, count) + "_label.png"
  }

  /** `s` is "_sim_" followed by the decimal digits of i + 1. */
  predicate SimSuffix(s: string, i: nat) {
    |s| >= 7 && s[..5] == "_sim_" && Names.AllDigits(s[5..]) && Names.DigitsValue(s[5..]) == i + 1
  }

  /** `name` is `base`, then, with several variants, "_sim_" and the
      decimal digits of i + 1, and then `ext`. */
  predicate VariantNamed(name: string, base: string, i: nat, count: int, ext: string) {
    if count <= 1 then name == base + ext
    else
      && |base| + |ext| <= |name|
      && name[..|base|] == base && name[|name| - |ext|..] == ext
      && SimSuffix(name[|base|..|name| - |ext|], i)
  }

  /** The variant suffix spelled out: nothing for a single variant, else
      "_sim_" and at least two digits holding i + 1, exactly two below 100. */
  lemma VariantSuffixSpec(i: nat, count: int)
    ensures count <= 1 ==> VariantSuffix(i, count) == ""
    ensures count > 1 ==> SimSuffix(VariantSuffix(i, count), i)
    ensures count > 1 && i + 1 < 100 ==> |VariantSuffix(i, count)| == 7
  {
    if count > 1 {
      var digits := Names.ZeroPad(i + 1, 2);
      Names.ZeroPadSpec(i + 1, 2);
      assert Names.Pow10(2) == 100;
      var suffix := VariantSuffix(i, count);
      assert suffix[..5] == "_sim_";
      assert suffix[5..] == digits;
    }
  }

  /** A name with a variant suffix: the base, the suffix, then `ext`. */
  lemma VariantNameSpec(base: string, i: nat, count: int, ext: string)
    ensures VariantNamed(base + VariantSuffix(i, count) + ext, base, i, count, ext)
  {
    var suffix := VariantSuffix(i, count);
    VariantSuffixSpec(i, count);
    if count <= 1 {
      assert base + suffix == base;
    } else {
      Names.ConcatSlices(base, suffix, ext);
    }
  }

  /** The image name: the base, the variant suffix, then ".png". */
  lemma ImageNameSpec(base: string, i: nat, count: int)
    ensures VariantNamed(ImageName(base, i, count), base, i, count, ".png")
  {
    VariantNameSpec(base, i, count, ".png");
  }

  /** The label name: the base, the variant suffix, then "_label.png". */
  lemma LabelNameSpec(base: string, i: nat, count: int)
    ensures VariantNamed(LabelName(base, i, count), base, i, count, "_label.png")
  {
    VariantNameSpec(base, i, count, "_label.png");
  }

  /** A name made from a relative base stays relative. */
  lemma VariantNameRelative(base: string, i: nat, count: int, ext: string)
    requires !IsAbsolute(base) && |ext| > 0 && ext[0] != '/'
    ensures !IsAbsolute(base + VariantSuffix(i, count) + ext)
  {
    var name := base + VariantSuffix(i, count) + ext;
    if |base| > 0 {
      assert name[0] == base[0];
    } else if count > 1 {
      assert name[0] == '_';
    } else {
      assert name[0] == ext[0];
    }
  }

  /** The label file name is the image file name with "_label" inserted
      before ".png". */
  lemma LabelNameFromImageName(base: string, i: nat, count: int)
    ensures var img := ImageName(base, i, count);
      |img| >= 4 && LabelName(base, i, count) == img[..|img| - 4] + "_label.png"
  {
    var img := ImageName(base, i, count);
    assert img[..|img| - 4] == base + VariantSuffix(i, count);
  }

  /** With several variants, distinct variants get distinct image names
      and distinct label names. */
  lemma VariantNamesDistinct(base: string, i: nat, k: nat, count: int)
    requires count > 1 && i != k
    ensures ImageName(base, i, count) != ImageName(base, k, count)
    ensures LabelName(base, i, count) != LabelName(base, k, count)
  {
    var x, y := Names.ZeroPad(i + 1, 2), Names.ZeroPad(k + 1, 2);
    Names.ZeroPadInjective(i + 1, k + 1, 2);
    Names.ConcatCancel("_sim_", x, y, "");
    assert "_sim_" + x + "" == "_sim_" + x && "_sim_" + y + "" == "_sim_" + y;
    Names.ConcatCancel(base, VariantSuffix(i, count), VariantSuffix(k, count), ".png");
    Names.ConcatCancel(base, VariantSuffix(i, count), VariantSuffix(k, count), "_label.png");
  }

  /** A label directory is configured when it is given and not empty
      (Python's truthiness of `output_label_dir`). */
  predicate HasDir(dir: Option<string>) {
    dir.Some? && dir.value != ""
  }

  function JobFor(path: string, i: nat, count: int, imageDir: string, labelDir: Option<string>): Job {
    var base := Stem(BaseName(path));
    Job(path, Join(imageDir, ImageName(base, i, count)),
        if HasDir(labelDir) then Some(Join(labelDir.value, LabelName(base, i, count))) else None,
        DefaultArgs)
  }

  /** The call for variant i of `path` reads `path` with every optional
      argument defaulted. It saves the image under the image directory with
      its image name, and asks for a label image, saved under the label
      directory with its label name, exactly when a non-empty label
      directory is given. */
  lemma JobForSpec(path: string, i: nat, count: int, imageDir: string, labelDir: Option<string>)
    ensures var job := JobFor(path, i, count, imageDir, labelDir);
      var base := Stem(BaseName(path));
      && job.input == path && job.args == DefaultArgs
      && imageDir <= job.imagePath && EndsWith(job.imagePath, ImageName(base, i, count))
      && (job.labelPath.Some? <==> labelDir.Some? && labelDir.value != "")
      && (job.labelPath.Some? ==>
            labelDir.value <= job.labelPath.value && EndsWith(job.labelPath.value, LabelName(base, i, count)))
  {
    var base := Stem(BaseName(path));
    StemOfBaseNameRelative(path);
    VariantNameRelative(base, i, count, ".png");
    JoinSpec(imageDir, ImageName(base, i, count));
    if HasDir(labelDir) {
      VariantNameRelative(base, i, count, "_label.png");
      JoinSpec(labelDir.value, LabelName(base, i, count));
    }
  }

  /** The variants of one input file are written to pairwise different
      image paths, and to different label paths when labels are written. */
  lemma VariantPathsDistinct(path: string, i: nat, k: nat, count: int, imageDir: string, labelDir: Option<string>)
    requires count > 1 && i != k
    ensures JobFor(path, i, count, imageDir, labelDir).imagePath != JobFor(path, k, count, imageDir, labelDir).imagePath
    ensures HasDir(labelDir) ==>
      JobFor(path, i, count, imageDir, labelDir).labelPath.value != JobFor(path, k, count, imageDir, labelDir).labelPath.value
  {
    var base := Stem(BaseName(path));
    StemOfBaseNameRelative(path);
    VariantNamesDistinct(base, i, k, count);
    var a, b := ImageName(base, i, count), ImageName(base, k, count);
    var la, lb := LabelName(base, i, count), LabelName(base, k, count);
    assert !IsAbsolute(a) by { if |base| > 0 { assert a[0] == base[0]; } else { assert a[0] == '_'; } }
    assert !IsAbsolute(b) by { if |base| > 0 { assert b[0] == base[0]; } else { assert b[0] == '_'; } }
    assert !IsAbsolute(la) by { if |base| > 0 { assert la[0] == base[0]; } else { assert la[0] == '_'; } }
    assert !IsAbsolute(lb) by { if |base| > 0 { assert lb[0] == base[0]; } else { assert lb[0] == '_'; } }
    JoinInjective(imageDir, a, b);
    if HasDir(labelDir) {
      JoinInjective(labelDir.value, la, lb);
    }
  }

  function Variants(count: int): nat {
    if count > 0 then count else 0
  }

  /** A (file, variant) pair: one iteration of the nested loop. */
  datatype Call = Call(path: string, variant: nat)

  /** Variants 0 .. n-1 of one file. */
  function VariantCalls(path: string, n: nat): (r: seq<Call>)
    ensures |r| == n
    ensures forall i :: 0 <= i < n ==> r[i] == Call(path, i)
  {
    if n == 0 then [] else VariantCalls(path, n - 1) + [Call(path, n - 1)]
  }

  /** All (file, variant) pairs, file after file. */
  function BatchCalls(files: seq<string>, n: nat): seq<Call> {
    if files == [] then []
    else BatchCalls(files[..|files| - 1], n) + VariantCalls(files[|files| - 1], n)
  }

  /** The generator calls for a sequence of (file, variant) pairs, one
      per pair, in order. */
  function JobsOf(calls: seq<Call>, jobOf: Call -> Job): (r: seq<Job>)
    ensures |r| == |calls|
    ensures forall k :: 0 <= k < |calls| ==> r[k] == jobOf(calls[k])
  {
    if calls == [] then []
    else JobsOf(calls[..|calls| - 1], jobOf) + [jobOf(calls[|calls| - 1])]
  }

  lemma {:induction false} JobsOfAppend(a: seq<Call>, b: seq<Call>, jobOf: Call -> Job)
    ensures JobsOf(a + b, jobOf) == JobsOf(a, jobOf) + JobsOf(b, jobOf)
  {
    if b != [] {
      JobsOfAppend(a, b[..|b| - 1], jobOf);
      assert (a + b)[..|a + b| - 1] == a + b[..|b| - 1];
    } else {
      assert a + b == a;
    }
  }

  /** The generator call for one (file, variant) pair of a batch. */
  function BatchJobOf(count: int, imageDir: string, labelDir: Option<string>): Call -> Job {
    (c: Call) => JobFor(c.path, c.variant, count, imageDir, labelDir)
  }

  /** Every generator call of `batch_process`, in order. */
  function BatchJobs(files: seq<string>, count: int, imageDir: string, labelDir: Option<string>): seq<Job> {
    JobsOf(BatchCalls(files, Variants(count)), BatchJobOf(count, imageDir, labelDir))
  }

  /** The position of call (f, i) when every file makes n calls: f * n + i,
      counted out by repeated addition. */
  function Slot(f: nat, n: nat, i: nat): nat {
    if f == 0 then i else Slot(f - 1, n, i) + n
  }

  lemma {:induction false} SlotIsProduct(f: nat, n: nat, i: nat)
    ensures Slot(f, n, i) == f * n + i
  {
    if f > 0 {
      SlotIsProduct(f - 1, n, i);
      assert f * n == (f - 1) * n + n;
    }
  }

  lemma {:induction false} SlotOffset(f: nat, n: nat, i: nat)
    ensures Slot(f, n, i) == Slot(f, n, 0) + i
  {
    if f > 0 {
      SlotOffset(f - 1, n, i);
    }
  }

  /** The calls of an earlier file all come before those of a later one. */
  lemma {:induction false} SlotBefore(f: nat, g: nat, n: nat, i: nat)
    requires f < g && i < n
    ensures Slot(f, n, i) < Slot(g, n, 0)
  {
    if f < g - 1 {
      SlotBefore(f, g - 1, n, i);
    } else {
      SlotOffset(f, n, i);
    }
  }

  /** There are len(files) * n pairs. */
  lemma {:induction false} BatchCallsLength(files: seq<string>, n: nat)
    ensures |BatchCalls(files, n)| == Slot(|files|, n, 0)
  {
    if files != [] {
      BatchCallsLength(files[..|files| - 1], n);
    }
  }

  /** Pair number f * n + i is variant i of file f. */
  lemma {:induction false} BatchCallAt(files: seq<string>, n: nat, f: nat, i: nat)
    requires f < |files| && i < n
    ensures var calls := BatchCalls(files, n);
      Slot(f, n, i) < |calls| && calls[Slot(f, n, i)] == Call(files[f], i)
  {
    var init := files[..|files| - 1];
    var front := BatchCalls(init, n);
    var calls := BatchCalls(files, n);
    assert calls == front + VariantCalls(files[|files| - 1], n);
    BatchCallsLength(init, n);
    var k := Slot(f, n, i);
    if f < |init| {
      SlotBefore(f, |init|, n, i);
      BatchCallAt(init, n, f, i);
      assert calls[k] == front[k];
      assert files[f] == init[f];
    } else {
      SlotOffset(f, n, i);
      assert k == |front| + i;
    }
  }

  /** `batch_process` calls the generator exactly len(files) *
      count_per_image times, none for a count below 1. */
  lemma BatchJobsCount(files: seq<string>, count: int, imageDir: string, labelDir: Option<string>)
    ensures |BatchJobs(files, count, imageDir, labelDir)| == |files| * Variants(count)
  {
    BatchCallsLength(files, Variants(count));
    SlotIsProduct(|files|, Variants(count), 0);
  }

  /** Call number f * count + i (see SlotIsProduct) is variant i of file f;
      no call's result changes this. */
  lemma BatchJobAt(files: seq<string>, count: int, imageDir: string, labelDir: Option<string>,
                   f: nat, i: nat)
    requires f < |files| && i < Variants(count)
    ensures var jobs := BatchJobs(files, count, imageDir, labelDir);
      var k := Slot(f, Variants(count), i);
      k < |jobs| && jobs[k] == JobFor(files[f], i, count, imageDir, labelDir)
  {
    var n := Variants(count);
    var calls := BatchCalls(files, n);
    var jobOf := BatchJobOf(count, imageDir, labelDir);
    BatchCallAt(files, n, f, i);
    var k := Slot(f, n, i);
    var jobs := JobsOf(calls, jobOf);
    assert jobs[k] == jobOf(calls[k]);
  }

  lemma BatchCallsStep(files: seq<string>, k: nat, n: nat)
    requires k < |files|
    ensures BatchCalls(files[..k + 1], n) == BatchCalls(files[..k], n) + VariantCalls(files[k], n)
  {
    assert files[..k + 1][..k] == files[..k];
  }

  /** The inner loop of `batch_process`: the `count_per_image` generator
      calls for one input file. */
  method VariantJobs(path: string, count: int, imageDir: string, labelDir: Option<string>)
    returns (variants: seq<Job>)
    ensures variants == JobsOf(VariantCalls(path, Variants(count)), BatchJobOf(count, imageDir, labelDir))
  {
    var base := Stem(BaseName(path));
    var i := 0;
    variants := [];
    while i < count
      invariant 0 <= i <= Variants(count)
      invariant variants == VariantPrefix(path, count, imageDir, labelDir, i)
    {
      var imagePath := Join(imageDir, ImageName(base, i, count));
      var labelPath: Option<string> := None;
      if labelDir.Some? && labelDir.value != "" {
        labelPath := Some(Join(labelDir.value, LabelName(base, i, count)));
      }
      var job := Job(path, imagePath, labelPath, DefaultArgs);
      assert job == JobFor(path, i, count, imageDir, labelDir);
      VariantStep(path, count, imageDir, labelDir, i);
      variants := variants + [job];
      assert variants == VariantPrefix(path, count, imageDir, labelDir, i + 1);
      i := i + 1;
    }
    assert i == Variants(count);
  }

  /** The calls the inner loop has made for its first i variants. */
  function VariantPrefix(path: string, count: int, imageDir: string, labelDir: Option<string>, i: nat): seq<Job> {
    JobsOf(VariantCalls(path, i), BatchJobOf(count, imageDir, labelDir))
  }

  /** One pass of the inner loop makes the call for variant i. */
  lemma VariantStep(path: string, count: int, imageDir: string, labelDir: Option<string>, i: nat)
    ensures VariantPrefix(path, count, imageDir, labelDir, i + 1)
      == VariantPrefix(path, count, imageDir, labelDir, i) + [JobFor(path, i, count, imageDir, labelDir)]
  {
    var jobOf := BatchJobOf(count, imageDir, labelDir);
    assert VariantCalls(path, i + 1) == VariantCalls(path, i) + [Call(path, i)];
    JobsOfAppend(VariantCalls(path, i), [Call(path, i)], jobOf);
    assert JobsOf([Call(path, i)], jobOf) == [jobOf(Call(path, i))];
  }

  /** `batch_process`: the generator calls, in order, for the sorted
      directory listing `listing`. */
  method BatchProcess(listing: seq<string>, imageDir: string, labelDir: Option<string>, count: int)
    returns (jobs: seq<Job>)
    ensures jobs == BatchJobs(ImageFiles(listing, GroundTruthExts), count, imageDir, labelDir)
  {
    var files := ImageFiles(listing, GroundTruthExts);
    ghost var n := Variants(count);
    ghost var jobOf := BatchJobOf(count, imageDir, labelDir);
    jobs := [];
    var k := 0;
    while k < |files|
      invariant 0 <= k <= |files|
      invariant jobs == JobsOf(BatchCalls(files[..k], n), jobOf)
    {
      var variants := VariantJobs(files[k], count, imageDir, labelDir);
      BatchCallsStep(files, k, n);
      JobsOfAppend(BatchCalls(files[..k], n), VariantCalls(files[k], n), jobOf);
      jobs := jobs + variants;
      k := k + 1;
    }
    assert files[..|files|] == files;
  }
}
