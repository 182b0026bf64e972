/** The preprocessing steps `PicPreprocess`: rescaling images onto a black
    canvas of their original size (`pics_rescale`), renumbering them
    (`pics_rename`) and augmenting them with rotations and mirror images
    (`mirror_and_rotate`). Reading, resizing, rotating and writing images are
    OpenCV calls outside the model: whether a file can be read is the
    parameter `canRead`, a resized image is given as an array, and a rotated
    or mirrored image is described by the transform that produces it. */
module Preprocess {
  import opened Paths
  import Names

  /** A colour pixel as OpenCV stores it, blue first. */
  datatype Pixel = Bgr(b: int, g: int, r: int)

  const Black := Bgr(0, 0, 0)

  // ---- centring the rescaled image ----

  /** `(total - inner) // 2`: where a block of size `inner` starts when it is
      centred in `total`. The block fits, and the margin after it is the
      margin before it or one more. */
  function CentreOffset(total: nat, inner: nat): (start: nat)
    requires inner <= total
    ensures start + inner <= total
    ensures var after := total - inner - start; after == start || after == start + 1
  {
    (total - inner) / 2
  }

  /** Only one start position gives margins balanced that way. */
  lemma CentreOffsetUnique(total: nat, inner: nat, start: nat)
    requires inner <= total && start + inner <= total
    requires var after := total - inner - start; after == start || after == start + 1
    ensures start == CentreOffset(total, inner)
  {
  }

  /** Whether canvas pixel (i, j) of an h x w canvas lies in the centred
      block of size nh x nw. */
  predicate InPaste(i: int, j: int, h: nat, w: nat, nh: nat, nw: nat)
    requires nh <= h && nw <= w
  {
    var sy := CentreOffset(h, nh);
    var sx := CentreOffset(w, nw);
    sy <= i < sy + nh && sx <= j < sx + nw
  }

  /** The canvas of `pics_rescale`: a black h x w image with the resized
      image pasted at its centre. Each block pixel is the resized pixel at
      the same offset from the block's corner; every other pixel is black. */
  method CentrePaste(h: nat, w: nat, resized: array2<Pixel>) returns (canvas: array2<Pixel>)
    requires resized.Length0 <= h && resized.Length1 <= w
    ensures fresh(canvas) && canvas.Length0 == h && canvas.Length1 == w
    ensures forall i, j :: 0 <= i < h && 0 <= j < w ==>
      canvas[i, j] ==
        if InPaste(i, j, h, w, resized.Length0, resized.Length1)
        then resized[i - CentreOffset(h, resized.Length0), j - CentreOffset(w, resized.Length1)]
        else Black
  {
    var nh, nw := resized.Length0, resized.Length1;
    canvas := new Pixel[h, w]((i, j) => Black);
    var sy := (h - nh) / 2;
    var sx := (w - nw) / 2;
    var y := 0;
    while y < nh
      invariant 0 <= y <= nh
      invariant forall i, j :: 0 <= i < h && 0 <= j < w ==>
        canvas[i, j] == if sy <= i < sy + y && sx <= j < sx + nw then resized[i - sy, j - sx] else Black
    {
      var x := 0;
      while x < nw
        invariant 0 <= x <= nw
        invariant forall i, j :: 0 <= i < h && 0 <= j < w ==>
          canvas[i, j] ==
            if (sy <= i < sy + y && sx <= j < sx + nw) || (i == sy + y && sx <= j < sx + x)
            then resized[i - sy, j - sx]
            else Black
      {
        canvas[sy + y, sx + x] := resized[y, x];
        x := x + 1;
      }
      y := y + 1;
    }
  }

  // ---- which files are processed ----

  /** `max(0, startIdx)`. */
  function ClampLow(startIdx: int): nat {
    if startIdx > 0 then startIdx else 0
  }

  /** `min(n - 1, endIdx)`. */
  function ClampHigh(n: nat, endIdx: int): int {
    if endIdx < n - 1 then endIdx else n - 1
  }

  /** The clamps are `max` and `min`: the low end is the least value that
      is at least 0 and at least `startIdx`, the high end the greatest value
      that is at most `n - 1` and at most `endIdx`. */
  lemma ClampSpec(n: nat, startIdx: int, endIdx: int)
    ensures var lo := ClampLow(startIdx);
      0 <= lo && startIdx <= lo && (lo == 0 || lo == startIdx)
    ensures var hi := ClampHigh(n, endIdx);
      hi <= n - 1 && hi <= endIdx && (hi == n - 1 || hi == endIdx)
  {
  }

  /** The clamped range holds exactly the list positions within the
      requested inclusive range, so the loop's `break` never fires. */
  lemma ClampedRange(n: nat, startIdx: int, endIdx: int, i: int)
    ensures ClampHigh(n, endIdx) < n
    ensures ClampLow(startIdx) <= i <= ClampHigh(n, endIdx) <==>
      0 <= i < n && startIdx <= i <= endIdx
  {
  }

  /** The positions lo..hi of `files` whose image can be read, in
      increasing order: the iterations that reach `cv2.imwrite`. */
  function ReadablePositions(files: seq<string>, canRead: string -> bool, lo: nat, hi: int): (ps: seq<nat>)
    requires hi < |files| || hi < lo
    ensures forall k :: 0 <= k < |ps| ==> lo <= ps[k] <= hi
    decreases hi - lo + 1
  {
    if hi < lo then []
    else ReadablePositions(files, canRead, lo, hi - 1) + (if canRead(files[hi]) then [hi] else [])
  }

  lemma {:induction false} ReadablePositionsMembers(files: seq<string>, canRead: string -> bool, lo: nat, hi: int)
    requires hi < |files|
    ensures var ps := ReadablePositions(files, canRead, lo, hi);
      forall i: nat :: i in ps <==> lo <= i <= hi && canRead(files[i])
    decreases hi - lo + 1
  {
    if lo <= hi {
      ReadablePositionsMembers(files, canRead, lo, hi - 1);
    }
  }

  /** Strictly increasing positions, as a loop over a range yields them. */
  predicate Increasing(ps: seq<nat>) {
    forall a, b :: 0 <= a < b < |ps| ==> ps[a] < ps[b]
  }

  lemma {:induction false} ReadablePositionsIncreasing(files: seq<string>, canRead: string -> bool, lo: nat, hi: int)
    requires hi < |files|
    ensures Increasing(ReadablePositions(files, canRead, lo, hi))
    decreases hi - lo + 1
  {
    if lo <= hi {
      ReadablePositionsIncreasing(files, canRead, lo, hi - 1);
      ReadablePositionsMembers(files, canRead, lo, hi - 1);
    }
  }

  /** Every position is a valid index of `files`. */
  predicate Positions(ps: seq<nat>, n: nat) {
    forall k :: 0 <= k < |ps| ==> ps[k] < n
  }

  lemma ReadablePositionsStep(files: seq<string>, canRead: string -> bool, lo: nat, hi: int)
    requires lo <= hi < |files|
    ensures ReadablePositions(files, canRead, lo, hi)
      == ReadablePositions(files, canRead, lo, hi - 1) + (if canRead(files[hi]) then [hi] else [])
  {
  }

  // ---- numbered names: pics_rescale and pics_rename ----

  /** `f"{front}_{i+1:04d}.png"`. */
  function NumberedName(front: string, i: nat): string {
    front + "_" + Names.ZeroPad(i + 1, 4) + ".png"
  }

  /** The name spelled out: the front, '_', the decimal digits of i + 1
      (exactly four below 10000), then ".png". */
  lemma NumberedNameSpec(front: string, i: nat)
    ensures var n := NumberedName(front, i);
      && |front| + 9 <= |n| && front + "_" <= n && EndsWith(n, ".png")
      && Names.AllDigits(n[|front| + 1..|n| - 4]) && Names.DigitsValue(n[|front| + 1..|n| - 4]) == i + 1
      && (i + 1 < 10000 ==> |n| == |front| + 9)
  {
    var digits := Names.ZeroPad(i + 1, 4);
    Names.ZeroPadSpec(i + 1, 4);
    assert Names.Pow10(4) == 10000;
    var n := NumberedName(front, i);
    assert n == (front + "_") + digits + ".png";
    assert n[..|front| + 1] == front + "_";
    assert n[|n| - 4..] == ".png";
    assert n[|front| + 1..|n| - 4] == digits;
  }

  /** With one front, different positions give different names: the
      number is i + 1, padded but never truncated. */
  lemma NumberedNameInjective(front: string, i: nat, k: nat)
    ensures NumberedName(front, i) == NumberedName(front, k) <==> i == k
  {
    Names.ConcatCancel(front + "_", Names.ZeroPad(i + 1, 4), Names.ZeroPad(k + 1, 4), ".png");
    Names.ZeroPadInjective(i + 1, k + 1, 4);
  }

  /** Even with different fronts, two positions never get the same name:
      the number follows the last '_' of the name. */
  lemma NumberedNamesDistinct(s: string, t: string, i: nat, k: nat)
    requires i != k
    ensures NumberedName(s, i) != NumberedName(t, k)
  {
    var p, q := Names.ZeroPad(i + 1, 4), Names.ZeroPad(k + 1, 4);
    Names.ZeroPadSpec(i + 1, 4);
    Names.ZeroPadSpec(k + 1, 4);
    Names.ZeroPadInjective(i + 1, k + 1, 4);
    Names.SeparatedDigitsCancel(s, t, p, q);
    var a, b := s + "_" + p, t + "_" + q;
    Names.SuffixCancel(a, b, ".png");
  }

  /** A name that starts with a character other than '/' is relative. */
  lemma NumberedNameRelative(front: string, i: nat)
    requires !IsAbsolute(front)
    ensures !IsAbsolute(NumberedName(front, i))
  {
    assert NumberedName(front, i)[0] == (front + "_")[0];
  }

  /** A file the loop saved: its position in the filtered list, its path and
      the output path. */
  datatype Written = Written(index: nat, source: string, path: string)

  /** The output of `pics_rescale` for position i: the file's stem followed
      by the position plus one. */
  function RescaleOutput(files: seq<string>, toDir: string, i: nat): Written
    requires i < |files|
  {
    Written(i, files[i], Join(toDir, NumberedName(Stem(BaseName(files[i])), i)))
  }

  /** Position i is saved from file i, under `toDir`, with the numbered name
      of its own stem. */
  lemma RescaleOutputSpec(files: seq<string>, toDir: string, i: nat)
    requires i < |files|
    ensures var w := RescaleOutput(files, toDir, i);
      && w.index == i && w.source == files[i]
      && toDir <= w.path && EndsWith(w.path, NumberedName(Stem(BaseName(files[i])), i))
  {
    var front := Stem(BaseName(files[i]));
    StemOfBaseNameRelative(files[i]);
    NumberedNameRelative(front, i);
    JoinSpec(toDir, NumberedName(front, i));
  }

  /** The outputs of `pics_rescale` for the positions `ps`, in order. */
  function RescaleOutputs(files: seq<string>, toDir: string, ps: seq<nat>): (r: seq<Written>)
    requires Positions(ps, |files|)
    ensures |r| == |ps|
  {
    if ps == [] then []
    else RescaleOutputs(files, toDir, ps[..|ps| - 1]) + [RescaleOutput(files, toDir, ps[|ps| - 1])]
  }

  lemma {:induction false} RescaleOutputsIndex(files: seq<string>, toDir: string, ps: seq<nat>)
    requires Positions(ps, |files|)
    ensures var r := RescaleOutputs(files, toDir, ps);
      forall k :: 0 <= k < |ps| ==> r[k].index == ps[k]
  {
    forall k | 0 <= k < |ps| {
      RescaleOutputsAt(files, toDir, ps, k);
    }
  }

  lemma {:induction false} RescaleOutputsAt(files: seq<string>, toDir: string, ps: seq<nat>, k: nat)
    requires Positions(ps, |files|) && k < |ps|
    ensures RescaleOutputs(files, toDir, ps)[k] == RescaleOutput(files, toDir, ps[k])
  {
    if k < |ps| - 1 {
      RescaleOutputsAt(files, toDir, ps[..|ps| - 1], k);
    }
  }

  /** `pics_rescale` over the sorted listing `listing`: the files it saves,
      in order. The canvas saved for each is `CentrePaste` of its resized
      image. */
  method PicsRescale(listing: seq<string>, toDir: string, startIdx: int, endIdx: int, canRead: string -> bool)
    returns (written: seq<Written>)
    ensures var files := ImageFiles(listing, PreprocessExts);
      written == RescaleOutputs(files, toDir,
                   ReadablePositions(files, canRead, ClampLow(startIdx), ClampHigh(|files|, endIdx)))
  {
    var files := ImageFiles(listing, PreprocessExts);
    written := RescaleFiles(files, toDir, startIdx, endIdx, canRead);
  }

  /** The loop of `pics_rescale` over the filtered files. */
  method RescaleFiles(files: seq<string>, toDir: string, startIdx: int, endIdx: int, canRead: string -> bool)
    returns (written: seq<Written>)
    ensures written == RescaleOutputs(files, toDir,
                         ReadablePositions(files, canRead, ClampLow(startIdx), ClampHigh(|files|, endIdx)))
  {
    var lo := ClampLow(startIdx);
    var hi := ClampHigh(|files|, endIdx);
    written := [];
    if hi < lo {
      return;
    }
    var i := lo;
    while i <= hi
      invariant lo <= i <= hi + 1
      invariant written == RescalePrefix(files, toDir, canRead, lo, i)
      decreases hi + 1 - i
    {
      RescaleStep(files, toDir, canRead, lo, i);
      if canRead(files[i]) {
        written := written + [RescaleOutput(files, toDir, i)];
      }
      i := i + 1;
    }
  }

  /** What the `pics_rescale` loop has saved once it reaches position i. */
  function RescalePrefix(files: seq<string>, toDir: string, canRead: string -> bool, lo: nat, i: nat): seq<Written>
    requires i <= |files|
  {
    RescaleOutputs(files, toDir, ReadablePositions(files, canRead, lo, i - 1))
  }

  /** One iteration of the `pics_rescale` loop appends the output of
      position i exactly when its file can be read. */
  lemma RescaleStep(files: seq<string>, toDir: string, canRead: string -> bool, lo: nat, i: nat)
    requires lo <= i < |files|
    ensures RescalePrefix(files, toDir, canRead, lo, i + 1)
      == RescalePrefix(files, toDir, canRead, lo, i) + (if canRead(files[i]) then [RescaleOutput(files, toDir, i)] else [])
  {
    var before := ReadablePositions(files, canRead, lo, i - 1);
    ReadablePositionsStep(files, canRead, lo, i);
    if canRead(files[i]) {
      assert (before + [i])[..|before|] == before;
    } else {
      assert before + [] == before;
    }
  }

  /** `pics_rescale` saves exactly the readable files at the clamped
      positions, file i under its own stem and the number i + 1; a file
      that cannot be read is skipped without renumbering the others. */
  lemma RescaleSaves(files: seq<string>, toDir: string, startIdx: int, endIdx: int,
                     canRead: string -> bool, i: nat)
    ensures var written := RescaleOutputs(files, toDir,
                  ReadablePositions(files, canRead, ClampLow(startIdx), ClampHigh(|files|, endIdx)));
      (exists k :: 0 <= k < |written| && written[k].index == i) <==>
        (i < |files| && startIdx <= i <= endIdx && canRead(files[i]))
  {
    var lo, hi := ClampLow(startIdx), ClampHigh(|files|, endIdx);
    var ps := ReadablePositions(files, canRead, lo, hi);
    ReadablePositionsMembers(files, canRead, lo, hi);
    ClampedRange(|files|, startIdx, endIdx, i);
    var written := RescaleOutputs(files, toDir, ps);
    RescaleOutputsIndex(files, toDir, ps);
    if i in ps {
      var k :| 0 <= k < |ps| && ps[k] == i;
      assert written[k].index == i;
    }
    if exists k :: 0 <= k < |written| && written[k].index == i {
      var k :| 0 <= k < |written| && written[k].index == i;
      assert ps[k] in ps;
    }
  }

  /** The output paths of `pics_rescale` are pairwise distinct, so no saved
      canvas overwrites another, even when two files share a stem. */
  lemma RescalePathsDistinct(files: seq<string>, toDir: string, startIdx: int, endIdx: int, canRead: string -> bool)
    ensures var written := RescaleOutputs(files, toDir,
                  ReadablePositions(files, canRead, ClampLow(startIdx), ClampHigh(|files|, endIdx)));
      forall a, b :: 0 <= a < b < |written| ==> written[a].path != written[b].path
  {
    var lo, hi := ClampLow(startIdx), ClampHigh(|files|, endIdx);
    ClampedRange(|files|, startIdx, endIdx, 0);
    var ps := ReadablePositions(files, canRead, lo, hi);
    ReadablePositionsIncreasing(files, canRead, lo, hi);
    assert Positions(ps, |files|);
    RescaleOutputsDistinct(files, toDir, ps);
  }

  lemma RescaleOutputsDistinct(files: seq<string>, toDir: string, ps: seq<nat>)
    requires Positions(ps, |files|)
    requires Increasing(ps)
    ensures var written := RescaleOutputs(files, toDir, ps);
      forall a, b :: 0 <= a < b < |written| ==> written[a].path != written[b].path
  {
    var written := RescaleOutputs(files, toDir, ps);
    forall a, b | 0 <= a < b < |written|
      ensures written[a].path != written[b].path
    {
      RescaleOutputsAt(files, toDir, ps, a);
      RescaleOutputsAt(files, toDir, ps, b);
      var s, t := Stem(BaseName(files[ps[a]])), Stem(BaseName(files[ps[b]]));
      StemOfBaseNameRelative(files[ps[a]]);
      StemOfBaseNameRelative(files[ps[b]]);
      NumberedNameRelative(s, ps[a]);
      NumberedNameRelative(t, ps[b]);
      NumberedNamesDistinct(s, t, ps[a], ps[b]);
      JoinInjective(toDir, NumberedName(s, ps[a]), NumberedName(t, ps[b]));
    }
  }

  /** The output of `pics_rename` for position i: the prefix followed by
      the position plus one. */
  function RenameOutput(files: seq<string>, toDir: string, prefix: string, i: nat): Written
    requires i < |files|
  {
    Written(i, files[i], Join(toDir, NumberedName(prefix, i)))
  }

  /** Position i is saved from file i with the numbered name of the prefix:
      under `toDir`, unless the prefix is an absolute path, which then
      replaces `toDir`. */
  lemma RenameOutputSpec(files: seq<string>, toDir: string, prefix: string, i: nat)
    requires i < |files|
    ensures var w := RenameOutput(files, toDir, prefix, i);
      && w.index == i && w.source == files[i]
      && EndsWith(w.path, NumberedName(prefix, i))
      && (!IsAbsolute(prefix) ==> toDir <= w.path)
      && (IsAbsolute(prefix) ==> w.path == NumberedName(prefix, i))
  {
    var name := NumberedName(prefix, i);
    if IsAbsolute(prefix) {
      assert name[0] == prefix[0];
    } else {
      NumberedNameRelative(prefix, i);
    }
    JoinSpec(toDir, name);
  }

  /** The outputs of `pics_rename` for the positions `ps`, in order. */
  function RenameOutputs(files: seq<string>, toDir: string, prefix: string, ps: seq<nat>): (r: seq<Written>)
    requires Positions(ps, |files|)
    ensures |r| == |ps|
  {
    if ps == [] then []
    else RenameOutputs(files, toDir, prefix, ps[..|ps| - 1]) + [RenameOutput(files, toDir, prefix, ps[|ps| - 1])]
  }

  lemma {:induction false} RenameOutputsIndex(files: seq<string>, toDir: string, prefix: string, ps: seq<nat>)
    requires Positions(ps, |files|)
    ensures var r := RenameOutputs(files, toDir, prefix, ps);
      forall k :: 0 <= k < |ps| ==> r[k].index == ps[k]
  {
    forall k | 0 <= k < |ps| {
      RenameOutputsAt(files, toDir, prefix, ps, k);
    }
  }

  lemma {:induction false} RenameOutputsAt(files: seq<string>, toDir: string, prefix: string, ps: seq<nat>, k: nat)
    requires Positions(ps, |files|) && k < |ps|
    ensures RenameOutputs(files, toDir, prefix, ps)[k] == RenameOutput(files, toDir, prefix, ps[k])
  {
    if k < |ps| - 1 {
      RenameOutputsAt(files, toDir, prefix, ps[..|ps| - 1], k);
    }
  }

  /** `pics_rename` over the sorted listing `listing`: the files it saves,
      in order. */
  method PicsRename(listing: seq<string>, toDir: string, prefix: string, canRead: string -> bool)
    returns (written: seq<Written>)
    ensures var files := ImageFiles(listing, PreprocessExts);
      written == RenameOutputs(files, toDir, prefix, ReadablePositions(files, canRead, 0, |files| - 1))
  {
    var files := ImageFiles(listing, PreprocessExts);
    written := RenameFiles(files, toDir, prefix, canRead);
  }

  /** The loop of `pics_rename` over the filtered files. */
  method RenameFiles(files: seq<string>, toDir: string, prefix: string, canRead: string -> bool)
    returns (written: seq<Written>)
    ensures written == RenameOutputs(files, toDir, prefix, ReadablePositions(files, canRead, 0, |files| - 1))
  {
    written := [];
    var i := 0;
    while i < |files|
      invariant 0 <= i <= |files|
      invariant written == RenamePrefix(files, toDir, prefix, canRead, i)
    {
      RenameStep(files, toDir, prefix, canRead, i);
      if canRead(files[i]) {
        written := written + [RenameOutput(files, toDir, prefix, i)];
      }
      i := i + 1;
    }
  }

  /** What the `pics_rename` loop has saved after its first i files. */
  function RenamePrefix(files: seq<string>, toDir: string, prefix: string, canRead: string -> bool, i: nat): seq<Written>
    requires i <= |files|
  {
    RenameOutputs(files, toDir, prefix, ReadablePositions(files, canRead, 0, i - 1))
  }

  /** One iteration of the `pics_rename` loop appends the output of
      position i exactly when its file can be read. */
  lemma RenameStep(files: seq<string>, toDir: string, prefix: string, canRead: string -> bool, i: nat)
    requires i < |files|
    ensures RenamePrefix(files, toDir, prefix, canRead, i + 1)
      == RenamePrefix(files, toDir, prefix, canRead, i) + (if canRead(files[i]) then [RenameOutput(files, toDir, prefix, i)] else [])
  {
    var before := ReadablePositions(files, canRead, 0, i - 1);
    ReadablePositionsStep(files, canRead, 0, i);
    if canRead(files[i]) {
      assert (before + [i])[..|before|] == before;
    } else {
      assert before + [] == before;
    }
  }

  /** The number in a renamed file's name is fixed by its position before
      the readability check: position i is saved, as number i + 1, exactly
      when it can be read, whatever happens to the other files. */
  lemma RenameNumbering(files: seq<string>, toDir: string, prefix: string, canRead: string -> bool, i: nat)
    ensures var written := RenameOutputs(files, toDir, prefix, ReadablePositions(files, canRead, 0, |files| - 1));
      (exists k :: 0 <= k < |written| && written[k].index == i) <==> (i < |files| && canRead(files[i]))
  {
    var ps := ReadablePositions(files, canRead, 0, |files| - 1);
    ReadablePositionsMembers(files, canRead, 0, |files| - 1);
    var written := RenameOutputs(files, toDir, prefix, ps);
    RenameOutputsIndex(files, toDir, prefix, ps);
    if i in ps {
      var k :| 0 <= k < |ps| && ps[k] == i;
      assert written[k].index == i;
    }
    if exists k :: 0 <= k < |written| && written[k].index == i {
      var k :| 0 <= k < |written| && written[k].index == i;
      assert ps[k] in ps;
    }
  }

  /** The files `pics_rename` saves get pairwise distinct output paths,
      however many there are. */
  lemma RenamePathsDistinct(files: seq<string>, toDir: string, prefix: string, canRead: string -> bool)
    ensures var written := RenameOutputs(files, toDir, prefix, ReadablePositions(files, canRead, 0, |files| - 1));
      forall a, b :: 0 <= a < b < |written| ==> written[a].path != written[b].path
  {
    var ps := ReadablePositions(files, canRead, 0, |files| - 1);
    ReadablePositionsIncreasing(files, canRead, 0, |files| - 1);
    assert Positions(ps, |files|);
    RenameOutputsDistinct(files, toDir, prefix, ps);
  }

  lemma RenameOutputsDistinct(files: seq<string>, toDir: string, prefix: string, ps: seq<nat>)
    requires Positions(ps, |files|)
    requires Increasing(ps)
    ensures var written := RenameOutputs(files, toDir, prefix, ps);
      forall a, b :: 0 <= a < b < |written| ==> written[a].path != written[b].path
  {
    var written := RenameOutputs(files, toDir, prefix, ps);
    forall a, b | 0 <= a < b < |written|
      ensures written[a].path != written[b].path
    {
      RenameOutputsAt(files, toDir, prefix, ps, a);
      RenameOutputsAt(files, toDir, prefix, ps, b);
      var x, y := NumberedName(prefix, ps[a]), NumberedName(prefix, ps[b]);
      assert x[0] == (prefix + "_")[0] && y[0] == (prefix + "_")[0];
      NumberedNameInjective(prefix, ps[a], ps[b]);
      JoinInjective(toDir, x, y);
    }
  }

  // ---- mirror_and_rotate ----

  /** The rotation `cv2.rotate` applies for each angle; angle 0 keeps the
      image as read. */
  datatype Rotation = Unrotated | Clockwise90 | Rotate180 | CounterClockwise90

  const Angles: seq<nat> := [0, 90, 180, 270]

  function RotationFor(angle: nat): Rotation {
    if angle == 0 then Unrotated
    else if angle == 90 then Clockwise90
    else if angle == 180 then Rotate180
    else CounterClockwise90
  }

  /** An augmented image: the source it comes from, where it is saved and
      the transform that makes it (`cv2.rotate`, then `cv2.flip(..., 1)`
      when mirrored). */
  datatype Augmented = Augmented(source: string, path: string, rotation: Rotation, mirrored: bool)

  /** What follows the base name: `f"_rot{angle}.png"` or
      `f"_rot{angle}_mirrored.png"`. */
  function RotSuffix(angle: nat, mirrored: bool): string {
    "_rot" + Names.Decimal(angle) + (if mirrored then "_mirrored.png" else ".png")
  }

  function AugmentedOutput(path: string, toDir: string, angle: nat, mirrored: bool): Augmented {
    Augmented(path, Join(toDir, Stem(BaseName(path)) + RotSuffix(angle, mirrored)),
              RotationFor(angle), mirrored)
  }

  /** The image for the a-th angle, mirrored or not, comes from `path` with
      the rotation of that angle (none for 0, clockwise for 90, half a turn
      for 180, counter-clockwise for 270), and is saved under `toDir` with
      the stem of `path` followed by the rotation suffix. */
  lemma AugmentedOutputSpec(path: string, toDir: string, a: nat, m: bool)
    requires a < 4
    ensures var o := AugmentedOutput(path, toDir, Angles[a], m);
      && o.source == path && o.mirrored == m
      && o.rotation == [Unrotated, Clockwise90, Rotate180, CounterClockwise90][a]
      && toDir <= o.path && EndsWith(o.path, Stem(BaseName(path)) + RotSuffix(Angles[a], m))
  {
    var base := Stem(BaseName(path));
    var name := base + RotSuffix(Angles[a], m);
    StemOfBaseNameRelative(path);
    if |base| > 0 {
      assert name[0] == base[0];
    } else {
      assert name[0] == '_';
    }
    JoinSpec(toDir, name);
  }

  /** The suffix for the a-th angle, as `f"_rot{angle}.png"` and
      `f"_rot{angle}_mirrored.png"` spell it. */
  lemma RotSuffixTexts(a: nat, m: bool)
    requires a < 4
    ensures RotSuffix(Angles[a], m) == "_rot" + ["0", "90", "180", "270"][a] + (if m then "_mirrored.png" else ".png")
  {
    AngleTexts();
  }

  /** For each of `angles` in turn, the rotated image, then its mirror
      image. */
  function AngleVariants(path: string, toDir: string, angles: seq<nat>): (r: seq<Augmented>)
    ensures |r| == 2 * |angles|
  {
    if angles == [] then []
    else
      var angle := angles[|angles| - 1];
      AngleVariants(path, toDir, angles[..|angles| - 1])
      + [AugmentedOutput(path, toDir, angle, false), AugmentedOutput(path, toDir, angle, true)]
  }

  lemma {:induction false} AngleVariantsAt(path: string, toDir: string, angles: seq<nat>, k: nat)
    requires k < |angles|
    ensures AngleVariants(path, toDir, angles)[2 * k] == AugmentedOutput(path, toDir, angles[k], false)
    ensures AngleVariants(path, toDir, angles)[2 * k + 1] == AugmentedOutput(path, toDir, angles[k], true)
  {
    if k < |angles| - 1 {
      AngleVariantsAt(path, toDir, angles[..|angles| - 1], k);
    }
  }

  /** The eight images of one input, in the order they are saved. */
  function FileVariants(path: string, toDir: string): (r: seq<Augmented>)
    ensures |r| == 8
  {
    AngleVariants(path, toDir, Angles)
  }

  lemma AngleTexts()
    ensures Names.Decimal(0) == "0" && Names.Decimal(90) == "90"
    ensures Names.Decimal(180) == "180" && Names.Decimal(270) == "270"
  {
    assert Names.Decimal(9) == "9";
    assert Names.Decimal(18) == Names.Decimal(1) + "8";
    assert Names.Decimal(27) == Names.Decimal(2) + "7";
  }

  /** The eight suffixes differ: by length, or else by the first digit of
      the angle. */
  lemma RotSuffixesDistinct(a: nat, m: bool, b: nat, n: bool)
    requires a < 4 && b < 4 && (a, m) != (b, n)
    ensures RotSuffix(Angles[a], m) != RotSuffix(Angles[b], n)
  {
    AngleTexts();
    var s, t := RotSuffix(Angles[a], m), RotSuffix(Angles[b], n);
    assert s[4] == Names.Decimal(Angles[a])[0];
    assert t[4] == Names.Decimal(Angles[b])[0];
  }

  /** Two different (angle, mirrored) choices give two different output
      paths for the same input. */
  lemma AugmentedPathsDistinct(path: string, toDir: string, a: nat, m: bool, b: nat, n: bool)
    requires a < 4 && b < 4 && (a, m) != (b, n)
    ensures AugmentedOutput(path, toDir, Angles[a], m).path != AugmentedOutput(path, toDir, Angles[b], n).path
  {
    var base := Stem(BaseName(path));
    var x, y := RotSuffix(Angles[a], m), RotSuffix(Angles[b], n);
    RotSuffixesDistinct(a, m, b, n);
    Names.ConcatCancel(base, x, y, "");
    assert base + x + "" == base + x && base + y + "" == base + y;
    assert (base + x)[0] == (base + y)[0];
    JoinInjective(toDir, base + x, base + y);
  }

  /** `mirror_and_rotate` saves eight images per input under eight
      different paths: image 2a is the input rotated by the a-th angle and
      image 2a + 1 its mirror image, and no two of them share a path. */
  lemma FileVariantsDistinct(path: string, toDir: string, a: nat, m: bool, b: nat, n: bool)
    requires a < 4 && b < 4 && (a, m) != (b, n)
    ensures var r := FileVariants(path, toDir);
      var k, l := 2 * a + (if m then 1 else 0), 2 * b + (if n then 1 else 0);
      && r[k] == Augmented(r[k].source, r[k].path, RotationFor(Angles[a]), m)
      && r[k].source == path
      && r[k].path != r[l].path
  {
    AngleVariantsAt(path, toDir, Angles, a);
    AngleVariantsAt(path, toDir, Angles, b);
    AugmentedPathsDistinct(path, toDir, a, m, b, n);
  }

  /** The augmented images of the files at positions `ps`, file by file. */
  function MirrorOutputs(files: seq<string>, toDir: string, ps: seq<nat>): (r: seq<Augmented>)
    requires Positions(ps, |files|)
    ensures |r| == 8 * |ps|
  {
    if ps == [] then []
    else MirrorOutputs(files, toDir, ps[..|ps| - 1]) + FileVariants(files[ps[|ps| - 1]], toDir)
  }

  /** Image 8k + j is variant j of the k-th readable file. */
  lemma {:induction false} MirrorOutputsAt(files: seq<string>, toDir: string, ps: seq<nat>, k: nat, j: nat)
    requires Positions(ps, |files|) && k < |ps| && j < 8
    ensures MirrorOutputs(files, toDir, ps)[8 * k + j] == FileVariants(files[ps[k]], toDir)[j]
  {
    var init := ps[..|ps| - 1];
    var front := MirrorOutputs(files, toDir, init);
    var last := FileVariants(files[ps[|ps| - 1]], toDir);
    assert MirrorOutputs(files, toDir, ps) == front + last;
    if k < |init| {
      MirrorOutputsAt(files, toDir, init, k, j);
      assert ps[k] == init[k];
      assert 8 * k + j < |front|;
    } else {
      assert 8 * k + j == |front| + j;
    }
  }

  /** `mirror_and_rotate` over the sorted listing `listing`: the images it
      saves, in order. */
  method MirrorAndRotate(listing: seq<string>, toDir: string, canRead: string -> bool)
    returns (saved: seq<Augmented>)
    ensures var files := ImageFiles(listing, PreprocessExts);
      saved == MirrorOutputs(files, toDir, ReadablePositions(files, canRead, 0, |files| - 1))
  {
    var files := ImageFiles(listing, PreprocessExts);
    saved := MirrorFiles(files, toDir, canRead);
  }

  /** The loop of `mirror_and_rotate` over the filtered files. */
  method MirrorFiles(files: seq<string>, toDir: string, canRead: string -> bool)
    returns (saved: seq<Augmented>)
    ensures saved == MirrorOutputs(files, toDir, ReadablePositions(files, canRead, 0, |files| - 1))
  {
    saved := [];
    var i := 0;
    while i < |files|
      invariant 0 <= i <= |files|
      invariant saved == MirrorPrefix(files, toDir, canRead, i)
    {
      var path := files[i];
      MirrorStep(files, toDir, canRead, i);
      if canRead(path) {
        var variants := AugmentFile(path, toDir);
        saved := saved + variants;
      }
      i := i + 1;
    }
  }

  /** What the `mirror_and_rotate` loop has saved after its first i files. */
  function MirrorPrefix(files: seq<string>, toDir: string, canRead: string -> bool, i: nat): seq<Augmented>
    requires i <= |files|
  {
    MirrorOutputs(files, toDir, ReadablePositions(files, canRead, 0, i - 1))
  }

  /** One iteration of the `mirror_and_rotate` loop appends the eight
      variants of position i exactly when its file can be read. */
  lemma MirrorStep(files: seq<string>, toDir: string, canRead: string -> bool, i: nat)
    requires i < |files|
    ensures MirrorPrefix(files, toDir, canRead, i + 1)
      == MirrorPrefix(files, toDir, canRead, i) + (if canRead(files[i]) then FileVariants(files[i], toDir) else [])
  {
    var before := ReadablePositions(files, canRead, 0, i - 1);
    ReadablePositionsStep(files, canRead, 0, i);
    if canRead(files[i]) {
      assert (before + [i])[..|before|] == before;
    } else {
      assert before + [] == before;
    }
  }

  method AugmentFile(path: string, toDir: string) returns (variants: seq<Augmented>)
    ensures variants == FileVariants(path, toDir)
  {
    var base := Stem(BaseName(path));
    variants := [];
    var a := 0;
    while a < |Angles|
      invariant 0 <= a <= |Angles|
      invariant variants == AngleVariants(path, toDir, Angles[..a])
    {
      var angle := Angles[a];
      var rotation := RotationFor(angle);
      var rotated := Augmented(path, Join(toDir, base + RotSuffix(angle, false)), rotation, false);
      var mirrored := Augmented(path, Join(toDir, base + RotSuffix(angle, true)), rotation, true);
      assert Angles[..a + 1][..a] == Angles[..a];
      variants := variants + [rotated, mirrored];
      a := a + 1;
    }
    assert Angles[..|Angles|] == Angles;
  }

  /** Two inputs with the same stem, such as "a.png" and "a.jpg", are saved
      under the same eight paths, so the later one overwrites the earlier. */
  lemma SameStemSamePaths(p: string, q: string, toDir: string, k: nat)
    requires Stem(BaseName(p)) == Stem(BaseName(q)) && k < 8
    ensures FileVariants(p, toDir)[k].path == FileVariants(q, toDir)[k].path
  {
    var a := k / 2;
    AngleVariantsAt(p, toDir, Angles, a);
    AngleVariantsAt(q, toDir, Angles, a);
    var m := k % 2 == 1;
    assert k == 2 * a + (if m then 1 else 0);
    assert AugmentedOutput(p, toDir, Angles[a], m).path == AugmentedOutput(q, toDir, Angles[a], m).path;
  }
}
