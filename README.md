# Stroke SO2 ground truth and image preprocessing, in Dafny

This project models two classes of the image pipeline under
`utils/pic_process/`:

- `PicGroundTruth` turns a grayscale vessel mask into two rasters of the
  same size. The first is a simulated SO2 image. The second is a 4-class
  label image: 0 is background, 1 normal tissue, 2 penumbra and 3 infarct
  core.
  - `generate_stroke_so2` picks one lesion centre. It prefers a pixel of
    the mask above 20; when there is none it draws a point of an inset
    region.
  - It draws an integer core radius and an integer penumbra width.
  - It splits the pixels into core, penumbra and normal tissue by their
    distance from the centre.
  - It writes the SO2 levels (normal 220, core 60, a clipped noisy gradient
    in the penumbra) and the labels.
  - It zeroes both outputs off the vessels, where the mask is 10 or less.
  - `batch_process` makes the generator calls for every image file of a
    directory, `count_per_image` times each, and derives their output paths.
- `PicPreprocess` has three steps.
  - `pics_rescale` pastes a resized image at the centre of a black canvas
    of the original size, for an index range of the image files.
  - `pics_rename` saves the image files under numbered names.
  - `mirror_and_rotate` saves each image rotated by 0, 90, 180 and 270
    degrees, and each rotation mirrored as well.

Modules:

- `Names`: decimal formatting and zero padding (`f"{n:0Wd}"`).
- `Paths`: `str.lower`, `str.endswith` with a tuple, `os.path.basename`,
  `os.path.splitext`, POSIX `os.path.join`, and the image-file filter.
- `Lesion`: the per-pixel rules: regions, vessel threshold, SO2 value and
  label.
- `Raster`: the masked array assignments of numpy and OpenCV, as methods
  on `array2`.
- `GroundTruth`: the generator and the batch driver.
- `Preprocess`: the three preprocessing steps.

The generator places exactly one lesion; there is no multi-lesion
placement or compositing.

Randomness, I/O and floating point become inputs:

- Every `random.randint` draw is a field of `GroundTruth.Draws`. Its range
  is the precondition `DrawsInRange`.
- The penumbra value at a pixel (interpolation plus Gaussian noise) is an
  arbitrary integer `sample(i, j)`, which the model then clips.
  - Clipping to integer bounds and then truncating to 8 bits gives the same
    value as truncating first and then clipping.
- The Euclidean distance is replaced by the squared distance. Both radii
  are integers, so `dist <= r` is exactly `dx² + dy² <= r²`; see
  `Lesion.DistanceTestIsSquaredTest`.
- A mask that cannot be read is `None`.
- Whether an image file can be read is the parameter `canRead`.
- A resized image is an input array.
- A rotated or mirrored image is described by its transform.
- The directory listing is an input. The model takes it in the order
  `sorted(glob(...))` returns.

## Model

| member | source | states |
|---|---|---|
| Names.DecimalSpec | utils/pic_process/pic_preprocess.py:138 | `str(n)` is all digits, has the value n, and has no leading zero |
| Names.ZeroPadSpec | utils/pic_process/pic_preprocess.py:70 | `f"{n:0Wd}"` is all digits and has the value n. Its length is W or the length of `str(n)`, whichever is larger, so it is exactly W when n < 10^W |
| Names.ZeroPadInjective | utils/pic_process/pic_preprocess.py:101 | padded numbers are equal iff the numbers are equal; padding never truncates |
| Names.SeparatedDigitsCancel | utils/pic_process/pic_preprocess.py:70 | in `front_digits`, the digits are what follows the last '_', so equal names have equal digits whatever their fronts |
| Paths.ToLowerSpec | utils/pic_process/pic_preprocess.py:31 | `lower()` maps each of 'A'..'Z' to its lower-case letter and keeps every other character |
| Paths.ToLowerIdempotent | utils/pic_process/pic_preprocess.py:31 | lower-casing twice is lower-casing once |
| Paths.EndsWithAnySpec | utils/pic_process/pic_preprocess.py:31 | `endswith(tuple)` holds iff some extension of the tuple ends the string |
| Paths.IsImageFileIgnoresCase | utils/pic_process/pic_preprocess.py:31 | a path and its lower-cased form are accepted or refused together |
| Paths.ImageFilterExtensions | utils/pic_process/pic_preprocess.py:31 | the preprocessing filter (also at lines 91 and 119) accepts exactly the names whose lower-case form ends in .png, .jpg, .jpeg, .bmp or .tiff |
| Paths.GroundTruthFilterExtensions | utils/pic_process/pic_groundtruth.py:134 | the generator's filter accepts exactly .png, .jpg and .jpeg in any case, and only files the preprocessing filter also accepts |
| Paths.ImageFilesSpec | utils/pic_process/pic_groundtruth.py:133-134 | the filtered list is no longer than the listing and holds exactly its image files; a sorted listing stays sorted |
| Paths.BaseNameSpec | utils/pic_process/pic_groundtruth.py:139 | `basename` is a suffix of the path with no '/', and it is the whole path or follows a '/' |
| Paths.StemSpec | utils/pic_process/pic_groundtruth.py:139 | `splitext(name)[0]` is a prefix of the name. When shorter, a '.' follows it, no later '.' occurs, and the stem is not all dots |
| Paths.StemOfExtended | utils/pic_process/pic_preprocess.py:67 | `splitext` removes exactly an appended extension (a '.' and then no other '.'), when the stem is not all dots |
| Paths.StemOfBaseNameRelative | utils/pic_process/pic_preprocess.py:67 | the stem of a base name never starts with '/' |
| Paths.JoinInjective | utils/pic_process/pic_groundtruth.py:146 | `os.path.join(dir, a) == os.path.join(dir, b)` iff a == b, for two relative names or two absolute names |
| Paths.JoinSpec | utils/pic_process/pic_groundtruth.py:146 | `os.path.join(dir, name)` ends with the name. An absolute name replaces the directory; a relative one follows the directory, after a '/' unless the directory is empty or already ends in one |
| Lesion.SqDist | utils/pic_process/pic_groundtruth.py:68-69 | the squared distance is zero iff the pixel is the centre (x is the column, y the row) |
| Lesion.DistanceTestIsSquaredTest | utils/pic_process/pic_groundtruth.py:69-74 | for a non-negative distance whose square is d2, `dist <= r` iff d2 <= r² |
| Lesion.RegionsPartition | utils/pic_process/pic_groundtruth.py:72-74 | every pixel lies in exactly one of the core, penumbra and normal masks |
| Lesion.RegionOf | utils/pic_process/pic_groundtruth.py:72-74 | the region is Core, Penumbra or Normal exactly when the corresponding mask holds |
| Lesion.PenumbraNeedsWidth | utils/pic_process/pic_groundtruth.py:87-97 | a pixel is in the penumbra only if the width is at least 1, so the division at line 90 only happens with a non-zero width |
| Lesion.CoreGrowsWithRadius | utils/pic_process/pic_groundtruth.py:72 | a larger core radius keeps every core pixel in the core |
| Lesion.CentreIsCore | utils/pic_process/pic_groundtruth.py:72 | the centre is in the core even for radius 0 |
| Lesion.VesselBit | utils/pic_process/pic_groundtruth.py:80 | the binary threshold is 0 or 1, and 1 iff the mask exceeds 10 |
| Lesion.Clip | utils/pic_process/pic_groundtruth.py:95 | `np.clip` lies in [lo, hi], keeps values inside, and maps values below to lo and above to hi |
| Lesion.So2MapValue | utils/pic_process/pic_groundtruth.py:83-99 | the map has the core level on the core and the normal level on normal tissue. On the penumbra it lies between the two whatever the noise, and equals the sample when the sample is in range |
| Lesion.So2Pixel | utils/pic_process/pic_groundtruth.py:102-103 | the output pixel is in [0, 255], 0 where the mask is 10 or less, and the map value elsewhere |
| Lesion.LabelPixel | utils/pic_process/pic_groundtruth.py:112-117 | the label is in {0..3}. It is 0 iff the mask is 10 or less; on vessels it is 3 on the core, 2 on the penumbra and 1 on normal tissue |
| Lesion.LabelWritesAnyOrder | utils/pic_process/pic_groundtruth.py:115-117 | the three gated label writes select disjoint pixels, so every order of the three writes gives `LabelPixel` |
| Lesion.LabelMatchesSignal | utils/pic_process/pic_groundtruth.py:83-117 | for a positive core level, label 0 iff signal 0. Label 3 gives the core level, label 1 the normal level, and label 2 a value between them |
| Lesion.DefaultLevelValues | utils/pic_process/pic_groundtruth.py:61-65 | with the default levels, vessel core pixels are 60, normal ones 220 and penumbra ones in [60, 220]; the value is 0 exactly off the vessels |
| Raster.VesselBinary | utils/pic_process/pic_groundtruth.py:80 | a fresh raster of the mask's shape holding the vessel bit of each pixel |
| Raster.MaskedFill | utils/pic_process/pic_groundtruth.py:83 | `dst[sel] = value` writes the value at the selected pixels and leaves every other pixel unchanged |
| Raster.MaskedClip | utils/pic_process/pic_groundtruth.py:95 | `dst[sel] = np.clip(sample[sel], lo, hi)` writes the clipped sample at the selected pixels and nothing else |
| Raster.Multiply | utils/pic_process/pic_groundtruth.py:102 | the element-wise product, into a fresh raster |
| Raster.AndVessel | utils/pic_process/pic_groundtruth.py:115-117 | `sel & (vessel == 1)`, pixel by pixel, into a fresh raster |
| Raster.AnySelected | utils/pic_process/pic_groundtruth.py:87-88 | `len(a[sel]) > 0` iff some pixel is selected |
| GroundTruth.VesselIndicesMembers | utils/pic_process/pic_groundtruth.py:41 | the candidates of `np.where(mask > 20)` are exactly the pixels above 20 |
| GroundTruth.VesselIndicesOrdered | utils/pic_process/pic_groundtruth.py:41 | the candidates come in row-major order, each once |
| GroundTruth.FindVesselIndices | utils/pic_process/pic_groundtruth.py:41 | the scan of the mask returns the candidate list |
| GroundTruth.DrawRangesNonEmpty | utils/pic_process/pic_groundtruth.py:44-57 | every `randint` range is non-empty, so some draw always exists |
| GroundTruth.AutoCentre | utils/pic_process/pic_groundtruth.py:41-49 | with candidates, the centre is a candidate given as (column, row); without, it lies in [margin, w - margin] x [margin, h - margin] |
| GroundTruth.FallbackCentreInImage | utils/pic_process/pic_groundtruth.py:48-49 | for min(h, w) >= 5 the fallback centre is strictly inside the image |
| GroundTruth.FallbackCentreMayLeaveSmallImage | utils/pic_process/pic_groundtruth.py:48-49 | on a 4x4 image an in-range fallback draw puts the centre at (4, 4), outside the image |
| GroundTruth.RegionMasks | utils/pic_process/pic_groundtruth.py:68-74 | three fresh h x w masks holding the core, penumbra and normal tests of every pixel |
| GroundTruth.ChooseCentre | utils/pic_process/pic_groundtruth.py:38-49 | the centre is the given one, or else the automatic choice |
| GroundTruth.So2Image | utils/pic_process/pic_groundtruth.py:77-103 | after the normal fill, the penumbra fill and the core fill, and the gating, every pixel is `So2Pixel` of its region and sample |
| GroundTruth.LabelImage | utils/pic_process/pic_groundtruth.py:110-117 | after the three masked writes every pixel is `LabelPixel` of its region |
| GroundTruth.GenerateStrokeSo2 | utils/pic_process/pic_groundtruth.py:29-127 | an unreadable mask gives None. Otherwise it returns the given or drawn centre, radius and width, a fresh SO2 image with every pixel `So2Pixel`, and a label image exactly when one is requested |
| GroundTruth.AutoCentreIsLabelledCore | utils/pic_process/pic_groundtruth.py:41-45 | an automatically chosen vessel centre lies in the image, is labelled 3, and carries the core level |
| GroundTruth.VariantSuffixSpec | utils/pic_process/pic_groundtruth.py:143 | the suffix is empty when count_per_image <= 1; otherwise it is "_sim_" followed by the digits of i + 1, exactly two of them below 100 |
| GroundTruth.VariantNameSpec | utils/pic_process/pic_groundtruth.py:145-150 | an output name is the base name, then the suffix, then its extension |
| GroundTruth.ImageNameSpec | utils/pic_process/pic_groundtruth.py:145 | the image name is the base name, then the suffix, then ".png" |
| GroundTruth.LabelNameSpec | utils/pic_process/pic_groundtruth.py:150 | the label name is the base name, then the suffix, then "_label.png" |
| GroundTruth.JobForSpec | utils/pic_process/pic_groundtruth.py:139-154 | variant i of a file is generated from that file with every optional argument defaulted; its image goes under the image directory with its image name; a label is requested, and goes under the label directory with its label name, exactly when a non-empty label directory is given |
| GroundTruth.LabelNameFromImageName | utils/pic_process/pic_groundtruth.py:145-150 | the label name is the image name with "_label" inserted before ".png" |
| GroundTruth.VariantNamesDistinct | utils/pic_process/pic_groundtruth.py:143-150 | with count_per_image > 1, distinct variants get distinct image names and distinct label names |
| GroundTruth.VariantPathsDistinct | utils/pic_process/pic_groundtruth.py:143-151 | the variants of one file go to distinct image paths, and to distinct label paths when a label directory is given |
| GroundTruth.VariantCalls | utils/pic_process/pic_groundtruth.py:141 | `range(count)` gives variants 0 .. count-1 of the file, in order |
| GroundTruth.JobsOf | utils/pic_process/pic_groundtruth.py:138-154 | one generator call per (file, variant) pair, in the same order |
| GroundTruth.SlotIsProduct | utils/pic_process/pic_groundtruth.py:138-141 | the position of variant i of file f is f * n + i |
| GroundTruth.BatchCallsLength | utils/pic_process/pic_groundtruth.py:138-141 | there are len(files) * n pairs |
| GroundTruth.BatchCallAt | utils/pic_process/pic_groundtruth.py:138-141 | pair f * n + i is variant i of file f |
| GroundTruth.BatchJobsCount | utils/pic_process/pic_groundtruth.py:138-154 | the generator is called exactly len(files) * count_per_image times, and never when the count is below 1 |
| GroundTruth.BatchJobAt | utils/pic_process/pic_groundtruth.py:138-154 | call f * count + i is variant i of file f, with its output paths; no call's result changes this |
| GroundTruth.VariantJobs | utils/pic_process/pic_groundtruth.py:141-154 | the inner loop makes the calls of one file's variants in order, with their image and label paths |
| GroundTruth.VariantStep | utils/pic_process/pic_groundtruth.py:141-154 | one pass of the inner loop makes the call for variant i, after those for the earlier variants |
| GroundTruth.BatchProcess | utils/pic_process/pic_groundtruth.py:129-154 | the batch makes exactly the calls `BatchJobs` lists, over the filtered listing |
| Preprocess.CentreOffset | utils/pic_process/pic_preprocess.py:60-61 | the centred block fits, and the margin after it equals the margin before it or is one more |
| Preprocess.CentreOffsetUnique | utils/pic_process/pic_preprocess.py:60-61 | no other start position balances the margins that way |
| Preprocess.CentrePaste | utils/pic_process/pic_preprocess.py:57-64 | the canvas is a fresh h x w image. A block pixel is the resized pixel at the same offset from the block's corner; every other pixel is black |
| Preprocess.ClampSpec | utils/pic_process/pic_preprocess.py:34-35 | `max(0, startIdx)` is at least 0 and at least startIdx and equals one of them; `min(len - 1, endIdx)` is at most len - 1 and at most endIdx and equals one of them |
| Preprocess.ClampedRange | utils/pic_process/pic_preprocess.py:34-39 | the clamped range holds exactly the valid list positions within [startIdx, endIdx], so the `break` never fires |
| Preprocess.ReadablePositions | utils/pic_process/pic_preprocess.py:37-45 | the saved positions lie in the visited range |
| Preprocess.ReadablePositionsMembers | utils/pic_process/pic_preprocess.py:37-45 | a position is saved iff it is in the range and its file can be read |
| Preprocess.ReadablePositionsIncreasing | utils/pic_process/pic_preprocess.py:37 | saved positions come in increasing order |
| Preprocess.NumberedNameSpec | utils/pic_process/pic_preprocess.py:70 | a numbered name (also at line 101) is the front, '_', the digits of i + 1 (exactly four below 10000), then ".png" |
| Preprocess.NumberedNameInjective | utils/pic_process/pic_preprocess.py:101 | `f"{prefix}_{i+1:04d}.png"` names are equal iff the positions are equal |
| Preprocess.NumberedNamesDistinct | utils/pic_process/pic_preprocess.py:70 | two different positions never get the same name, even with different stems |
| Preprocess.RescaleOutputSpec | utils/pic_process/pic_preprocess.py:67-71 | position i is saved from file i, under toDir, with the numbered name of its own stem |
| Preprocess.RescaleOutputs | utils/pic_process/pic_preprocess.py:67-72 | one saved file per saved position |
| Preprocess.PicsRescale | utils/pic_process/pic_preprocess.py:14-74 | the files saved are the readable files at the clamped positions of the filtered listing, each under its stem and number |
| Preprocess.RescaleFiles | utils/pic_process/pic_preprocess.py:34-72 | the loop over the clamped range saves the readable files in order |
| Preprocess.RescaleStep | utils/pic_process/pic_preprocess.py:37-72 | one pass of the loop saves position i, under its own number, exactly when its file can be read |
| Preprocess.RescaleSaves | utils/pic_process/pic_preprocess.py:34-45 | position i is saved iff it is a list position, lies in [startIdx, endIdx] and is readable; an unreadable file renumbers nothing |
| Preprocess.RescalePathsDistinct | utils/pic_process/pic_preprocess.py:67-71 | no two canvases saved by one call share an output path |
| Preprocess.RenameOutputSpec | utils/pic_process/pic_preprocess.py:100-102 | position i is saved from file i with the numbered name of the prefix, under toDir; an absolute prefix replaces toDir |
| Preprocess.RenameOutputs | utils/pic_process/pic_preprocess.py:100-105 | one saved file per saved position |
| Preprocess.PicsRename | utils/pic_process/pic_preprocess.py:76-105 | the files saved are the readable files of the filtered listing, file i as `prefix_{i+1:04d}.png` |
| Preprocess.RenameFiles | utils/pic_process/pic_preprocess.py:93-105 | the loop saves the readable files in order |
| Preprocess.RenameStep | utils/pic_process/pic_preprocess.py:93-105 | one pass of the loop saves position i as `prefix_{i+1:04d}.png` exactly when its file can be read |
| Preprocess.RenameNumbering | utils/pic_process/pic_preprocess.py:93-101 | position i is saved iff its file is readable. Numbers are fixed by position, so an unreadable file leaves a gap |
| Preprocess.RenamePathsDistinct | utils/pic_process/pic_preprocess.py:100-102 | the saved files get pairwise distinct paths, however many there are |
| Preprocess.AngleVariants | utils/pic_process/pic_preprocess.py:128-148 | two images per angle |
| Preprocess.AngleVariantsAt | utils/pic_process/pic_preprocess.py:128-148 | image 2a is the rotation by the a-th angle and image 2a + 1 its mirror |
| Preprocess.FileVariants | utils/pic_process/pic_preprocess.py:126-148 | eight images per input |
| Preprocess.RotSuffixTexts | utils/pic_process/pic_preprocess.py:138-146 | the suffix for angle 0, 90, 180 or 270 is `_rot` and the angle's digits, then `.png` or `_mirrored.png` |
| Preprocess.AugmentedOutputSpec | utils/pic_process/pic_preprocess.py:127-147 | the image for an angle, mirrored or not, comes from the input with that angle's rotation (none, clockwise, half turn, counter-clockwise) and is saved under toDir as the stem followed by the rotation suffix |
| Preprocess.RotSuffixesDistinct | utils/pic_process/pic_preprocess.py:138-146 | the eight suffixes `_rot{a}.png` and `_rot{a}_mirrored.png` are pairwise distinct |
| Preprocess.AugmentedPathsDistinct | utils/pic_process/pic_preprocess.py:138-147 | different (angle, mirrored) choices give different output paths |
| Preprocess.FileVariantsDistinct | utils/pic_process/pic_preprocess.py:126-148 | image 2a (+1 when mirrored) comes from the input with the a-th rotation; the eight paths are pairwise distinct |
| Preprocess.MirrorOutputs | utils/pic_process/pic_preprocess.py:121-148 | eight images per readable input |
| Preprocess.MirrorOutputsAt | utils/pic_process/pic_preprocess.py:121-148 | image 8k + j is variant j of the k-th readable input |
| Preprocess.MirrorAndRotate | utils/pic_process/pic_preprocess.py:109-148 | the images saved are the eight variants of each readable file of the filtered listing, in order |
| Preprocess.MirrorFiles | utils/pic_process/pic_preprocess.py:121-148 | the loop over the files saves the variants of the readable ones in order |
| Preprocess.MirrorStep | utils/pic_process/pic_preprocess.py:121-148 | one pass of the loop saves the eight variants of position i exactly when its file can be read |
| Preprocess.AugmentFile | utils/pic_process/pic_preprocess.py:126-148 | the inner loop over the four angles saves the eight variants of one file |
| Preprocess.SameStemSamePaths | utils/pic_process/pic_preprocess.py:127-147 | two inputs with the same stem (`a.png`, `a.jpg`) get the same eight output paths, so the later input overwrites the earlier one's images |

## Left out

- Pixel I/O (`cv2.imread` and `cv2.imwrite`) is not modelled. A mask or
  image either decodes (an array, or `canRead`) or does not. Nothing is
  written to disk; the model states which outputs are produced and under
  which paths.
- `cv2.resize` is not modelled. The resized image is an input of
  `Preprocess.CentrePaste`.
- Preprocess.PicsRescale: states the file, the number and the output path
  of each canvas, but not the canvas's pixels. Those are stated per image by
  `Preprocess.CentrePaste`, which is given the resized image.
- `int(h * scaleFactor)` is floating point and is not modelled.
- Preprocess.CentrePaste: requires the resized image to be no larger than
  the canvas. A scale factor above 1, and a resized size of 0, are not
  modelled.
- `cv2.rotate` and `cv2.flip` are not modelled. They are described by the
  transform tags `Rotation` and `mirrored`, with no pixel semantics.
- The sqrt distance, the linear interpolation and the Gaussian noise in the
  penumbra are floating point. They become the squared distance and the
  integer oracle `sample`.
- Lesion.DistanceTestIsSquaredTest: covers integer radii and integer
  centres only. These are what `randint` and `np.where` give; a radius, or
  a `core_center` coordinate, passed in as a non-integer is not modelled
  (`GroundTruth.Args` holds integers).
- `os.makedirs` on an empty directory name raises. With an empty `toDir`,
  `pics_rescale`, `pics_rename` and `mirror_and_rotate` stop before saving
  anything. With an empty `output_img_dir`, `batch_process` stops at the
  first mask it can read, because the image path then has no directory
  part. Likewise a direct `generate_stroke_so2` call whose image or label
  path has no directory part raises at the save step, after the mask is
  read. The model does not raise: `Preprocess.PicsRescale`,
  `Preprocess.PicsRename`, `Preprocess.MirrorAndRotate`,
  `GroundTruth.BatchProcess`, `GroundTruth.BatchJobsCount` and
  `GroundTruth.GenerateStrokeSo2` describe the calls and files as if the
  directory could be created (`GenerateStrokeSo2` returns `Some`).
- GroundTruth.GenerateStrokeSo2: requires a given radius and width to be
  non-negative. The squared distance tests match `dist <= r` only for
  r >= 0, and a negative width makes the source's core and normal masks
  overlap, which `Lesion.RegionsPartition` rules out. It also requires given
  SO2 levels to satisfy 0 <= core <= normal <= 255; outside that, the uint8
  cast wraps and `np.clip` gets an empty interval.
- The `so2_levels` dictionary is a record of three integers. A dictionary
  with a missing key is not modelled.
- `os.makedirs`, `glob` and `sorted` are not modelled. The sorted listing is
  an input.
- Paths.ToLower: lower-cases ASCII letters only. Python's full Unicode case
  mapping is not modelled.
- Console output (`print`), and the `test_*` and `main` drivers, are not
  modelled.
- Nothing of `calculate_scale_factor.py` or of the `reconstruction/scripts`
  training, testing and data-loading code is modelled. They are
  floating-point heuristics and deep-learning plumbing.
- The value `generate_stroke_so2` returns to `batch_process` is ignored
  there. `GroundTruth.BatchProcess` lists the calls and their output paths;
  the images of each call are what `GroundTruth.GenerateStrokeSo2` states.
