/** The element-wise numpy and OpenCV raster operations the lesion
    generator performs, each as a loop over a two-dimensional array:
    binary thresholding, masked assignment (`a[sel] = v`), masked clipped
    copy, element-wise product, element-wise "and", and the emptiness test
    of a boolean mask. */
module Raster {
  import opened Lesion

  predicate SameShape<S, T>(a: array2<S>, b: array2<T>)
    reads {}
  {
    a.Length0 == b.Length0 && a.Length1 == b.Length1
  }

  /** `cv2.threshold(mask, 10, 1, cv2.THRESH_BINARY)`: a fresh 0/1 raster. */
  method VesselBinary(mask: array2<int>) returns (v: array2<int>)
    ensures fresh(v) && SameShape(v, mask)
    ensures forall i, j :: 0 <= i < v.Length0 && 0 <= j < v.Length1 ==>
      v[i, j] == VesselBit(mask[i, j])
  {
    var h, w := mask.Length0, mask.Length1;
    v := new int[h, w];
    var i := 0;
    while i < h
      invariant 0 <= i <= h
      invariant forall r, c :: 0 <= r < i && 0 <= c < w ==> v[r, c] == VesselBit(mask[r, c])
    {
      var j := 0;
      while j < w
        invariant 0 <= j <= w
        invariant forall r, c :: 0 <= r < i && 0 <= c < w ==> v[r, c] == VesselBit(mask[r, c])
        invariant forall c :: 0 <= c < j ==> v[i, c] == VesselBit(mask[i, c])
      {
        v[i, j] := if mask[i, j] > 10 then 1 else 0;
        j := j + 1;
      }
      i := i + 1;
    }
  }

  /** `dst[sel] = value`. */
  method MaskedFill(dst: array2<int>, sel: array2<bool>, value: int)
    requires SameShape(dst, sel)
    modifies dst
    ensures forall i, j :: 0 <= i < dst.Length0 && 0 <= j < dst.Length1 ==>
      dst[i, j] == if sel[i, j] then value else old(dst[i, j])
  {
    var h, w := dst.Length0, dst.Length1;
    var i := 0;
    while i < h
      invariant 0 <= i <= h
      invariant forall r, c :: 0 <= r < i && 0 <= c < w ==>
        dst[r, c] == if sel[r, c] then value else old(dst[r, c])
      invariant forall r, c :: i <= r < h && 0 <= c < w ==> dst[r, c] == old(dst[r, c])
    {
      var j := 0;
      while j < w
        invariant 0 <= j <= w
        invariant forall r, c :: 0 <= r < i && 0 <= c < w ==>
          dst[r, c] == if sel[r, c] then value else old(dst[r, c])
        invariant forall c :: 0 <= c < j ==> dst[i, c] == if sel[i, c] then value else old(dst[i, c])
        invariant forall r, c :: i <= r < h && 0 <= c < w && (r > i || c >= j) ==>
          dst[r, c] == old(dst[r, c])
      {
        if sel[i, j] {
          dst[i, j] := value;
        }
        j := j + 1;
      }
      i := i + 1;
    }
  }

  /** `dst[sel] = np.clip(sample[sel], lo, hi)`, where `sample(i, j)` is the
      value computed for pixel (i, j) before clipping. */
  method MaskedClip(dst: array2<int>, sel: array2<bool>, sample: (int, int) -> int, lo: int, hi: int)
    requires SameShape(dst, sel) && lo <= hi
    modifies dst
    ensures forall i, j :: 0 <= i < dst.Length0 && 0 <= j < dst.Length1 ==>
      dst[i, j] == if sel[i, j] then Clip(sample(i, j), lo, hi) else old(dst[i, j])
  {
    var h, w := dst.Length0, dst.Length1;
    var i := 0;
    while i < h
      invariant 0 <= i <= h
      invariant forall r, c :: 0 <= r < i && 0 <= c < w ==>
        dst[r, c] == if sel[r, c] then Clip(sample(r, c), lo, hi) else old(dst[r, c])
      invariant forall r, c :: i <= r < h && 0 <= c < w ==> dst[r, c] == old(dst[r, c])
    {
      var j := 0;
      while j < w
        invariant 0 <= j <= w
        invariant forall r, c :: 0 <= r < i && 0 <= c < w ==>
          dst[r, c] == if sel[r, c] then Clip(sample(r, c), lo, hi) else old(dst[r, c])
        invariant forall c :: 0 <= c < j ==>
          dst[i, c] == if sel[i, c] then Clip(sample(i, c), lo, hi) else old(dst[i, c])
        invariant forall r, c :: i <= r < h && 0 <= c < w && (r > i || c >= j) ==>
          dst[r, c] == old(dst[r, c])
      {
        if sel[i, j] {
          var v := sample(i, j);
          dst[i, j] := if v < lo then lo else if v > hi then hi else v;
        }
        j := j + 1;
      }
      i := i + 1;
    }
  }

  /** `a * b` element-wise, into a fresh raster. */
  method Multiply(a: array2<int>, b: array2<int>) returns (p: array2<int>)
    requires SameShape(a, b)
    ensures fresh(p) && SameShape(p, a)
    ensures forall i, j :: 0 <= i < p.Length0 && 0 <= j < p.Length1 ==> p[i, j] == a[i, j] * b[i, j]
  {
    var h, w := a.Length0, a.Length1;
    p := new int[h, w];
    var i := 0;
    while i < h
      invariant 0 <= i <= h
      invariant forall r, c :: 0 <= r < i && 0 <= c < w ==> p[r, c] == a[r, c] * b[r, c]
    {
      var j := 0;
      while j < w
        invariant 0 <= j <= w
        invariant forall r, c :: 0 <= r < i && 0 <= c < w ==> p[r, c] == a[r, c] * b[r, c]
        invariant forall c :: 0 <= c < j ==> p[i, c] == a[i, c] * b[i, c]
      {
        p[i, j] := a[i, j] * b[i, j];
        j := j + 1;
      }
      i := i + 1;
    }
  }

  /** `sel & (vessel == 1)`, into a fresh boolean raster. */
  method AndVessel(sel: array2<bool>, vessel: array2<int>) returns (m: array2<bool>)
    requires SameShape(sel, vessel)
    ensures fresh(m) && SameShape(m, sel)
    ensures forall i, j :: 0 <= i < m.Length0 && 0 <= j < m.Length1 ==>
      m[i, j] == (sel[i, j] && vessel[i, j] == 1)
  {
    var h, w := sel.Length0, sel.Length1;
    m := new bool[h, w];
    var i := 0;
    while i < h
      invariant 0 <= i <= h
      invariant forall r, c :: 0 <= r < i && 0 <= c < w ==> m[r, c] == (sel[r, c] && vessel[r, c] == 1)
    {
      var j := 0;
      while j < w
        invariant 0 <= j <= w
        invariant forall r, c :: 0 <= r < i && 0 <= c < w ==> m[r, c] == (sel[r, c] && vessel[r, c] == 1)
        invariant forall c :: 0 <= c < j ==> m[i, c] == (sel[i, c] && vessel[i, c] == 1)
      {
        m[i, j] := sel[i, j] && vessel[i, j] == 1;
        j := j + 1;
      }
      i := i + 1;
    }
  }

  /** `len(a[sel]) > 0`: whether the mask selects any pixel. */
  method AnySelected(sel: array2<bool>) returns (any: bool)
    ensures any <==> exists i, j :: 0 <= i < sel.Length0 && 0 <= j < sel.Length1 && sel[i, j]
  {
    var h, w := sel.Length0, sel.Length1;
    any := false;
    var i := 0;
    while i < h
      invariant 0 <= i <= h
      invariant !any ==> forall r, c :: 0 <= r < i && 0 <= c < w ==> !sel[r, c]
      invariant any ==> exists r, c :: 0 <= r < h && 0 <= c < w && sel[r, c]
    {
      var j := 0;
      while j < w
        invariant 0 <= j <= w
        invariant !any ==> forall r, c :: 0 <= r < i && 0 <= c < w ==> !sel[r, c]
        invariant !any ==> forall c :: 0 <= c < j ==> !sel[i, c]
        invariant any ==> exists r, c :: 0 <= r < h && 0 <= c < w && sel[r, c]
      {
        if sel[i, j] {
          any := true;
        }
        j := j + 1;
      }
      i := i + 1;
    }
  }
}
